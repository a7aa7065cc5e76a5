/** The dataclasses of event data and call arguments, declaration by declaration:
    inherited fields first, each with its annotation and default. */
module ShapeFields {
  import opened Arguments
  import opened Bytes
  import opened Shapes
  import opened WireShapes

  // ----- declarations

  function Str(name: string): Decl { Decl(name, None, TText, DText("")) }

  function Int(name: string): Decl { Decl(name, None, TInt, DInt(0)) }

  function Bool(name: string): Decl { Decl(name, None, TBool, DBool(false)) }

  function Maybe(name: string): Decl { Decl(name, None, TOptional(TText), DNull) }

  function List(name: string): Decl { Decl(name, None, TList(TText), DList([])) }

  function Dict(name: string, ty: Ty): Decl { Decl(name, None, TDict(ty), DDict([])) }

  function MaybeDict(name: string): Decl { Decl(name, None, TOptional(TDict(TVm)), DNull) }

  function ListOf(name: string, fields: seq<Decl>): Decl { Decl(name, None, TList(TShape(Shape(fields))), DList([])) }

  /** from_, which travels as "from" */
  const FROM_FIELD := Decl("from_", Some("from"), TText, DText(""))

  /** A count, "0" unless it is given. */
  function Counter(name: string): Decl { Decl(name, None, TText, DText("0")) }

  // ----- event data

  function EventFields(kind: string): Option<seq<Decl>> {
    match kind
    case "TokenCreate" => Some(
      [Str("symbol"), Str("max_supply"), Int("decimals"), Bool("is_non_fungible"), Int("carbon_token_id"),
       Dict("metadata", TText)])
    case "TokenSeriesCreate" => Some(
      [Str("symbol"), Str("series_id"), Int("max_mint"), Int("max_supply"), Str("owner"), Int("carbon_token_id"),
       Int("carbon_series_id"), Dict("metadata", TText)])
    case "OrderCreated" => Some(ORDER)
    case "OrderCancelled" => Some(ORDER)
    case "OrderFilled" => Some(ORDER)
    case _ => None
  }

  const ORDER :=
    [Str("base_symbol"), Str("quote_symbol"), Str("token_id"), Int("carbon_base_token_id"),
     Int("carbon_quote_token_id"), Int("carbon_instance_id"), Str("seller"), Str("buyer"), Str("price"),
     Str("end_price"), Int("start_date"), Int("end_date"), Str("type")]

  /** EVENT_SHAPES holds exactly these. */
  lemma EventShapeExactly(kind: string)
    ensures EventShape(kind) == Made(EventFields(kind))
  {
    assert Dataclass(TOKEN_CREATE).fields == EventFields("TokenCreate").value;
    assert Dataclass(TOKEN_SERIES_CREATE).fields == EventFields("TokenSeriesCreate").value;
    assert Dataclass(MARKET_ORDER).fields == ORDER;
  }

  // ----- call arguments

  /** An undecoded buffer is one text. */
  lemma RawExactly()
    ensures RAW == Shape([Str("raw_args")])
  {
    assert RAW.fields == [Str("raw_args")];
  }

  const GAS :=
    [Str("version"), Str("max_name_length"), Str("max_token_symbol_length"), Str("fee_shift"),
     Str("max_structure_size"), Str("fee_multiplier"), Str("gas_token_id"), Str("data_token_id"),
     Str("minimum_gas_offer"), Str("data_escrow_per_row"), Str("gas_fee_transfer"), Str("gas_fee_query"),
     Str("gas_fee_create_token_base"), Str("gas_fee_create_token_symbol"), Str("gas_fee_create_token_series"),
     Str("gas_fee_per_byte"), Str("gas_fee_register_name"), Str("gas_burn_ratio_mul"), Str("gas_burn_ratio_shift"),
     Maybe("minimum_gas_bill"), Maybe("gas_producer_ratio_mul"), Maybe("gas_producer_ratio_shift"),
     Maybe("gas_dapp_ratio_mul"), Maybe("gas_dapp_ratio_shift"), Maybe("policy_fee_create_token_base"),
     Maybe("policy_fee_create_token_symbol"), Maybe("policy_fee_create_token_series"),
     Maybe("policy_fee_register_name"), Maybe("legacy_data_escrow_per_row")]

  function GovernanceFields(methodName: string): Option<seq<Decl>> {
    match methodName
    case "SetGasConfig" => Some(GAS)
    case "SetChainConfig" => Some(
      [Str("version"), Str("reserved1"), Str("reserved2"), Str("reserved3"), Str("allowed_tx_types"),
       Str("expiry_window"), Str("block_rate_target")])
    case "SpecialResolution" => Some([Str("resolution_id")])
    case "SetMetadata" => Some([Dict("metadata", TVm)])
    case "SetNodeConfig" => Some([ListOf("nodes", [Str("id"), Str("type")])])
    case "RegisterName" => Some([Str("address"), Str("name")])
    case "LookupName" => Some([Str("address")])
    case "LookupAddress" => Some([Str("name")])
    case _ => None
  }

  const ROW := [Str("key"), Str("value")]

  const SUPPLEMENT :=
    [Str("token"), Str("token_id"), Str("phantasma_series_id"), Str("max_supply"), Str("mint_count"), Str("mode"),
     Str("script"), Str("abi"), Str("rom")]

  const MINT_REPAIR :=
    [Str("token"), Str("token_id"), Str("phantasma_series_id"), Str("imported_live_count"), Str("script"), Str("abi")]

  const FLAG_REPAIR :=
    [Str("token"), Str("token_id"), Str("symbol"), Str("script"), Str("abi"), Str("token_flags"), Str("repair_mask")]

  const CONTRACT :=
    [Str("name"), Str("address"), Str("owner"), Str("script"), Str("abi"), ListOf("root_variables", ROW),
     ListOf("tables", [Str("name"), ListOf("rows", ROW)])]

  function VmFields(methodName: string): Option<seq<Decl>> {
    match methodName
    case "ExecuteScript" => Some([Str("max_gas"), Str("gas_from"), Str("script")])
    case "RegisterTokenContract" => Some([Str("token_id"), Str("symbol"), Str("script"), Str("abi"), Maybe("token")])
    case "DeployContract" => Some([FROM_FIELD, Str("contract_name"), Str("script"), Str("abi")])
    case "IsContractDeployed" => Some([Str("name")])
    case "SetConfig" => Some(
      [Str("feature_level"), Str("gas_constructor"), Str("gas_nexus"), Str("gas_organization"), Str("gas_account"),
       Str("gas_leaderboard"), Str("gas_standard"), Str("gas_oracle"), Str("fuel_per_contract_deploy")])
    case "ImportContracts" => Some([Counter("contracts_count"), ListOf("contracts", CONTRACT)])
    case "RepairSeries" => Some(
      [Counter("supplements_count"), ListOf("supplements", SUPPLEMENT), Counter("repairs_count"),
       ListOf("repairs", MINT_REPAIR)])
    case "RepairToken" => Some([Counter("repairs_count"), ListOf("repairs", FLAG_REPAIR)])
    case _ => None
  }

  /** TokenReferenceArguments, which most others extend. */
  const OF_TOKEN := [Str("token"), Str("token_id")]

  const NEW_SERIES :=
    OF_TOKEN + [Str("owner"), Str("max_mint"), Str("max_supply"), MaybeDict("metadata"), Maybe("series_id"),
                Maybe("metadata_raw")]

  function TokenFields(methodName: string): Option<seq<Decl>> {
    match methodName
    case "TransferFungible" => Some(OF_TOKEN + [FROM_FIELD, Str("to"), Str("amount")])
    case "TransferNonFungible" => Some(OF_TOKEN + [FROM_FIELD, Str("to"), List("instance_ids")])
    case "CreateToken" => Some(
      [Str("symbol"), Str("owner"), Str("max_supply"), Str("decimals"), Str("flags"), MaybeDict("metadata"),
       Maybe("token_schemas")])
    case "MintFungible" => Some(OF_TOKEN + [Str("to"), Str("amount")])
    case "BurnFungible" => Some(OF_TOKEN + [FROM_FIELD, Str("amount")])
    case "GetBalance" => Some(OF_TOKEN + [Str("address")])
    case "CreateTokenSeries" => Some(NEW_SERIES)
    case "MintNonFungible" => Some(
      OF_TOKEN + [Str("owner"), ListOf("tokens", [Str("series_id"), Str("rom"), Str("ram")])])
    case "BurnNonFungible" => Some(OF_TOKEN + [Str("address"), List("instance_ids")])
    case "CreateMintedTokenSeries" => Some(NEW_SERIES + [Str("recipient"), List("roms"), List("rams")])
    case "SetTokensConfig" => Some([Str("flags"), List("flags_names")])
    case "UpdateTokenMetadata" => Some(OF_TOKEN + [MaybeDict("metadata")])
    case "UpdateSeriesMetadata" => Some(OF_TOKEN + [Str("series_id"), Str("metadata")])
    case "MintPhantasmaNonFungible" => Some(
      OF_TOKEN + [Str("owner"), ListOf("tokens", [Str("phantasma_series_id"), Str("rom"), Str("ram")])])
    case _ => QueryFields(methodName)
  }

  function QueryFields(methodName: string): Option<seq<Decl>> {
    match methodName
    case "DeleteTokenSeries" => Some(OF_TOKEN + [Str("series_id")])
    case "GetSeriesInfo" => Some(OF_TOKEN + [Str("series_id")])
    case "GetSeriesSupply" => Some(OF_TOKEN + [Str("series_id")])
    case "GetTokenInfo" => Some(OF_TOKEN)
    case "GetTokenSupply" => Some(OF_TOKEN)
    case "ApplyInflation" => Some(OF_TOKEN)
    case "GetNextTokenInflation" => Some(OF_TOKEN)
    case "GetTokenInfoBySymbol" => Some([Str("symbol")])
    case "GetTokenIdBySymbol" => Some([Str("symbol")])
    case "GetNonFungibleInfo" => Some(OF_TOKEN + [Str("instance_id"), Str("get_schemas")])
    case "GetNonFungibleInfoByRomId" => Some(OF_TOKEN + [Str("rom_id"), Str("get_schemas")])
    case "GetSeriesInfoByMetaId" => Some(OF_TOKEN + [Str("rom_id")])
    case "GetBalances" => Some([Str("address")])
    case _ => None
  }

  function ArgumentFields(moduleName: string, methodName: string): Option<seq<Decl>> {
    match moduleName
    case "governance" => GovernanceFields(methodName)
    case "phantasma_vm" => VmFields(methodName)
    case "token" => TokenFields(methodName)
    case _ => None
  }

  function Made(fs: Option<seq<Decl>>): Option<Shape> { if fs.None? then None else Some(Shape(fs.value)) }

  lemma Extended(a: Class, b: Class)
    requires |a.names| == |a.tys| && |b.names| == |b.tys|
    ensures Dataclass(Extend(a, b)).fields == Dataclass(a).fields + Dataclass(b).fields
  {
  }

  lemma LimitFields()
    ensures Dataclass(GAS_LIMITS).fields == GAS[..10]
  {
  }

  lemma FeeFields()
    ensures Dataclass(GAS_FEES).fields == GAS[10..19]
  {
  }

  lemma TailFields()
    ensures Dataclass(GAS_TAIL).fields == GAS[19..]
  {
  }

  lemma GasFields()
    ensures Dataclass(GAS_CONFIG).fields == GAS
  {
    LimitFields();
    FeeFields();
    TailFields();
    GasCut();
    Lengths();
    hide Dataclass, Texts, Optionals, GAS, GAS_LIMITS, GAS_FEES, GAS_TAIL;
    Extended(GAS_FEES, GAS_TAIL);
    Extended(GAS_LIMITS, Extend(GAS_FEES, GAS_TAIL));
  }

  lemma GasCut()
    ensures GAS == GAS[..10] + (GAS[10..19] + GAS[19..])
  {
  }

  lemma Lengths()
    ensures |GAS_LIMITS.names| == |GAS_LIMITS.tys| && |GAS_FEES.names| == |GAS_FEES.tys|
    ensures |GAS_TAIL.names| == |GAS_TAIL.tys|
  {
  }

  lemma GovernanceExactly(methodName: string)
    ensures GovernanceShape(methodName) == Made(GovernanceFields(methodName))
  {
    hide GAS, GAS_CONFIG;
    GasFields();
    assert Dataclass(CHAIN_CONFIG).fields == GovernanceFields("SetChainConfig").value;
    assert Dataclass(NESTED_RESOLUTION).fields == GovernanceFields("SpecialResolution").value;
    assert Dataclass(METADATA_ONLY).fields == GovernanceFields("SetMetadata").value;
    assert Dataclass(CONSENSUS_NODE).fields == [Str("id"), Str("type")];
    assert Dataclass(NODE_CONFIG).fields == GovernanceFields("SetNodeConfig").value;
    assert Dataclass(REGISTER_NAME).fields == GovernanceFields("RegisterName").value;
    assert Dataclass(ADDRESS_ONLY).fields == GovernanceFields("LookupName").value;
    assert Dataclass(NAME_ONLY).fields == GovernanceFields("LookupAddress").value;
  }

  lemma ContractFields()
    ensures Dataclass(IMPORTED_CONTRACT).fields == CONTRACT
  {
    assert Dataclass(STORAGE_ROW).fields == ROW;
    assert Dataclass(STORAGE_TABLE).fields == [Str("name"), ListOf("rows", ROW)];
  }

  lemma RepairFields()
    ensures Dataclass(SERIES_SUPPLEMENT).fields == SUPPLEMENT
    ensures Dataclass(MINT_COUNT_REPAIR).fields == MINT_REPAIR
    ensures Dataclass(TOKEN_REPAIR).fields == FLAG_REPAIR
  {
  }

  lemma CountedFields()
    ensures Starting(Dataclass(IMPORT_CONTRACTS), 0, "0").fields == VmFields("ImportContracts").value
    ensures Starting(Starting(Dataclass(REPAIR_SERIES), 0, "0"), 2, "0").fields == VmFields("RepairSeries").value
    ensures Starting(Dataclass(REPAIR_TOKEN), 0, "0").fields == VmFields("RepairToken").value
  {
    hide CONTRACT, IMPORTED_CONTRACT, SUPPLEMENT, SERIES_SUPPLEMENT, MINT_REPAIR, MINT_COUNT_REPAIR, FLAG_REPAIR, TOKEN_REPAIR;
    ContractFields();
    RepairFields();
  }

  lemma ScriptFields()
    ensures Dataclass(EXECUTE_SCRIPT).fields == VmFields("ExecuteScript").value
    ensures Dataclass(REGISTER_TOKEN_CONTRACT).fields == VmFields("RegisterTokenContract").value
    ensures Spelled(Dataclass(DEPLOY_CONTRACT), 0, "from_").fields == VmFields("DeployContract").value
    ensures Dataclass(NAME_ONLY).fields == VmFields("IsContractDeployed").value
    ensures Dataclass(PHANTASMA_VM_CONFIG).fields == VmFields("SetConfig").value
  {
  }

  lemma VmExactly(methodName: string)
    ensures VmShape(methodName) == Made(VmFields(methodName))
  {
    hide Dataclass, Spelled, Starting, Texts, Extend;
    CountedFields();
    ScriptFields();
  }

  lemma TransferFields()
    ensures Spelled(Dataclass(TRANSFER_FUNGIBLE), 2, "from_").fields == TokenFields("TransferFungible").value
    ensures Spelled(Dataclass(TRANSFER_NON_FUNGIBLE), 2, "from_").fields == TokenFields("TransferNonFungible").value
    ensures Spelled(Dataclass(BURN_FUNGIBLE), 2, "from_").fields == TokenFields("BurnFungible").value
    ensures Dataclass(MINT_FUNGIBLE).fields == TokenFields("MintFungible").value
    ensures Dataclass(BALANCE).fields == TokenFields("GetBalance").value
    ensures Dataclass(BURN_NON_FUNGIBLE).fields == TokenFields("BurnNonFungible").value
  {
  }

  lemma CreateFields()
    ensures Dataclass(CREATE_TOKEN).fields == TokenFields("CreateToken").value
    ensures Dataclass(TOKEN_SERIES).fields == TokenFields("CreateTokenSeries").value
    ensures Dataclass(MINTED_TOKEN_SERIES).fields == TokenFields("CreateMintedTokenSeries").value
  {
  }

  lemma MintFields()
    ensures Dataclass(MINT_NON_FUNGIBLE).fields == TokenFields("MintNonFungible").value
    ensures Dataclass(MINT_PHANTASMA_NON_FUNGIBLE).fields == TokenFields("MintPhantasmaNonFungible").value
  {
    assert Dataclass(NFT_MINT).fields == [Str("series_id"), Str("rom"), Str("ram")];
    assert Dataclass(PHANTASMA_NFT_MINT).fields == [Str("phantasma_series_id"), Str("rom"), Str("ram")];
  }

  lemma UpdateFields()
    ensures Dataclass(TOKENS_CONFIG).fields == TokenFields("SetTokensConfig").value
    ensures Dataclass(UPDATE_TOKEN_METADATA).fields == TokenFields("UpdateTokenMetadata").value
    ensures Dataclass(UPDATE_SERIES_METADATA).fields == TokenFields("UpdateSeriesMetadata").value
  {
  }

  lemma QueryExactly(methodName: string)
    ensures TokenQueryShape(methodName) == Made(QueryFields(methodName))
  {
    assert Dataclass(SERIES_REFERENCE).fields == OF_TOKEN + [Str("series_id")];
    assert Dataclass(TOKEN_REFERENCE).fields == OF_TOKEN;
    assert Dataclass(SYMBOL_ONLY).fields == [Str("symbol")];
    assert Dataclass(NON_FUNGIBLE_INFO).fields == OF_TOKEN + [Str("instance_id"), Str("get_schemas")];
    assert Dataclass(INFO_BY_ROM_ID).fields == OF_TOKEN + [Str("rom_id"), Str("get_schemas")];
    assert Dataclass(SERIES_INFO_BY_META_ID).fields == OF_TOKEN + [Str("rom_id")];
    assert Dataclass(ADDRESS_ONLY).fields == [Str("address")];
  }

  lemma TokenExactly(methodName: string)
    ensures TokenShape(methodName) == Made(TokenFields(methodName))
  {
    hide Dataclass, Spelled, TokenQueryShape, QueryFields, Texts, Extend;
    TransferFields();
    CreateFields();
    MintFields();
    UpdateFields();
    QueryExactly(methodName);
  }

  /** ARGUMENT_SHAPES holds exactly these. */
  lemma ArgumentShapeExactly(moduleName: string, methodName: string)
    ensures ArgumentShape(moduleName, methodName) == Made(ArgumentFields(moduleName, methodName))
  {
    hide GovernanceShape, GovernanceFields, VmShape, VmFields, TokenShape, TokenFields;
    GovernanceExactly(methodName);
    VmExactly(methodName);
    TokenExactly(methodName);
  }
}
