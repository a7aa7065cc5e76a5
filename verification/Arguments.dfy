/** The argument shapes of special-resolution calls, by module and method. */
module Arguments {
  import opened Bytes
  import opened FieldNames
  import opened Shapes
  import opened WireShapes

  /** A list of nested dataclasses. */
  function Each(c: Class): Ty
    requires |c.names| == |c.tys|
  {
    TList(TShape(Dataclass(c)))
  }

  // ----- governance

  const GAS_LIMITS := Texts(
    [VERSION, MAX_NAME_LENGTH, MAX_TOKEN_SYMBOL_LENGTH, FEE_SHIFT, MAX_STRUCTURE_SIZE, FEE_MULTIPLIER,
     GAS_TOKEN_ID, DATA_TOKEN_ID, MINIMUM_GAS_OFFER, DATA_ESCROW_PER_ROW])

  const GAS_FEES := Texts(
    [GAS_FEE_TRANSFER, GAS_FEE_QUERY, GAS_FEE_CREATE_TOKEN_BASE, GAS_FEE_CREATE_TOKEN_SYMBOL,
     GAS_FEE_CREATE_TOKEN_SERIES, GAS_FEE_PER_BYTE, GAS_FEE_REGISTER_NAME, GAS_BURN_RATIO_MUL,
     GAS_BURN_RATIO_SHIFT])

  /** The tail of the second gas model. */
  const GAS_TAIL := Optionals(
    [MINIMUM_GAS_BILL, GAS_PRODUCER_RATIO_MUL, GAS_PRODUCER_RATIO_SHIFT, GAS_DAPP_RATIO_MUL, GAS_DAPP_RATIO_SHIFT,
     POLICY_FEE_CREATE_TOKEN_BASE, POLICY_FEE_CREATE_TOKEN_SYMBOL, POLICY_FEE_CREATE_TOKEN_SERIES,
     POLICY_FEE_REGISTER_NAME, LEGACY_DATA_ESCROW_PER_ROW])

  const GAS_CONFIG := Extend(GAS_LIMITS, Extend(GAS_FEES, GAS_TAIL))

  const CHAIN_CONFIG := Texts(
    [VERSION, RESERVED1, RESERVED2, RESERVED3, ALLOWED_TX_TYPES, EXPIRY_WINDOW, BLOCK_RATE_TARGET])

  const NESTED_RESOLUTION := Texts([RESOLUTION_ID])

  const METADATA_ONLY := Class([METADATA], [TDict(TVm)])

  const CONSENSUS_NODE := Texts([ID, TYPE])

  const NODE_CONFIG := Class([NODES], [Each(CONSENSUS_NODE)])

  const REGISTER_NAME := Texts([ADDRESS, NAME])

  const ADDRESS_ONLY := Texts([ADDRESS])

  const NAME_ONLY := Texts([NAME])

  // ----- phantasma_vm

  const EXECUTE_SCRIPT := Texts([MAX_GAS, GAS_FROM, SCRIPT])

  const REGISTER_TOKEN_CONTRACT := Extend(Texts([TOKEN_ID, SYMBOL, SCRIPT, ABI]), Optionals([TOKEN]))

  const DEPLOY_CONTRACT := Texts([FROM, CONTRACT_NAME, SCRIPT, ABI])

  const PHANTASMA_VM_CONFIG := Texts(
    [FEATURE_LEVEL, GAS_CONSTRUCTOR, GAS_NEXUS, GAS_ORGANIZATION, GAS_ACCOUNT, GAS_LEADERBOARD, GAS_STANDARD,
     GAS_ORACLE, FUEL_PER_CONTRACT_DEPLOY])

  const STORAGE_ROW := Texts([KEY, VALUE])

  const STORAGE_TABLE := Class([NAME, ROWS], [TText, Each(STORAGE_ROW)])

  const IMPORTED_CONTRACT := Class(
    [NAME, ADDRESS, OWNER, SCRIPT, ABI, ROOT_VARIABLES, TABLES],
    [TText, TText, TText, TText, TText, Each(STORAGE_ROW), Each(STORAGE_TABLE)])

  const IMPORT_CONTRACTS := Class([CONTRACTS_COUNT, CONTRACTS], [TText, Each(IMPORTED_CONTRACT)])

  const SERIES_SUPPLEMENT := Texts(
    [TOKEN, TOKEN_ID, PHANTASMA_SERIES_ID, MAX_SUPPLY, MINT_COUNT, MODE, SCRIPT, ABI, ROM])

  const MINT_COUNT_REPAIR := Texts([TOKEN, TOKEN_ID, PHANTASMA_SERIES_ID, IMPORTED_LIVE_COUNT, SCRIPT, ABI])

  const REPAIR_SERIES := Class(
    [SUPPLEMENTS_COUNT, SUPPLEMENTS, REPAIRS_COUNT, REPAIRS],
    [TText, Each(SERIES_SUPPLEMENT), TText, Each(MINT_COUNT_REPAIR)])

  const TOKEN_REPAIR := Texts([TOKEN, TOKEN_ID, SYMBOL, SCRIPT, ABI, TOKEN_FLAGS, REPAIR_MASK])

  const REPAIR_TOKEN := Class([REPAIRS_COUNT, REPAIRS], [TText, Each(TOKEN_REPAIR)])

  // ----- token

  const TOKEN_REFERENCE := Texts([TOKEN, TOKEN_ID])

  const SERIES_REFERENCE := Texts([TOKEN, TOKEN_ID, SERIES_ID])

  const SYMBOL_ONLY := Texts([SYMBOL])

  const TRANSFER_FUNGIBLE := Texts([TOKEN, TOKEN_ID, FROM, TO, AMOUNT])

  const TRANSFER_NON_FUNGIBLE := Class(
    [TOKEN, TOKEN_ID, FROM, TO, INSTANCE_IDS], [TText, TText, TText, TText, TList(TText)])

  const MINT_FUNGIBLE := Texts([TOKEN, TOKEN_ID, TO, AMOUNT])

  const BURN_FUNGIBLE := Texts([TOKEN, TOKEN_ID, FROM, AMOUNT])

  const BALANCE := Texts([TOKEN, TOKEN_ID, ADDRESS])

  const CREATE_TOKEN := Class(
    [SYMBOL, OWNER, MAX_SUPPLY, DECIMALS, FLAGS, METADATA, TOKEN_SCHEMAS],
    [TText, TText, TText, TText, TText, TOptional(TDict(TVm)), TOptional(TText)])

  const TOKEN_SERIES := Class(
    [TOKEN, TOKEN_ID, OWNER, MAX_MINT, MAX_SUPPLY, METADATA, SERIES_ID, METADATA_RAW],
    [TText, TText, TText, TText, TText, TOptional(TDict(TVm)), TOptional(TText), TOptional(TText)])

  const MINTED_TAIL := Class([RECIPIENT, ROMS, RAMS], [TText, TList(TText), TList(TText)])

  const MINTED_TOKEN_SERIES := Extend(TOKEN_SERIES, MINTED_TAIL)

  const NFT_MINT := Texts([SERIES_ID, ROM, RAM])

  const PHANTASMA_NFT_MINT := Texts([PHANTASMA_SERIES_ID, ROM, RAM])

  const MINT_NON_FUNGIBLE := Class([TOKEN, TOKEN_ID, OWNER, TOKENS], [TText, TText, TText, Each(NFT_MINT)])

  const MINT_PHANTASMA_NON_FUNGIBLE := Class(
    [TOKEN, TOKEN_ID, OWNER, TOKENS], [TText, TText, TText, Each(PHANTASMA_NFT_MINT)])

  const BURN_NON_FUNGIBLE := Class([TOKEN, TOKEN_ID, ADDRESS, INSTANCE_IDS], [TText, TText, TText, TList(TText)])

  const NON_FUNGIBLE_INFO := Texts([TOKEN, TOKEN_ID, INSTANCE_ID, GET_SCHEMAS])

  const INFO_BY_ROM_ID := Texts([TOKEN, TOKEN_ID, ROM_ID, GET_SCHEMAS])

  const SERIES_INFO_BY_META_ID := Texts([TOKEN, TOKEN_ID, ROM_ID])

  const TOKENS_CONFIG := Class([FLAGS, FLAGS_NAMES], [TText, TList(TText)])

  const UPDATE_TOKEN_METADATA := Class([TOKEN, TOKEN_ID, METADATA], [TText, TText, TOptional(TDict(TVm))])

  const UPDATE_SERIES_METADATA := Texts([TOKEN, TOKEN_ID, SERIES_ID, METADATA])

  // ----- ARGUMENT_SHAPES

  function GovernanceShape(methodName: string): Option<Shape> {
    if methodName == "SetGasConfig" then Some(Dataclass(GAS_CONFIG))
    else if methodName == "SetChainConfig" then Some(Dataclass(CHAIN_CONFIG))
    else if methodName == "SpecialResolution" then Some(Dataclass(NESTED_RESOLUTION))
    else if methodName == "SetMetadata" then Some(Dataclass(METADATA_ONLY))
    else if methodName == "SetNodeConfig" then Some(Dataclass(NODE_CONFIG))
    else if methodName == "RegisterName" then Some(Dataclass(REGISTER_NAME))
    else if methodName == "LookupName" then Some(Dataclass(ADDRESS_ONLY))
    else if methodName == "LookupAddress" then Some(Dataclass(NAME_ONLY))
    else None
  }

  function VmShape(methodName: string): Option<Shape> {
    if methodName == "ExecuteScript" then Some(Dataclass(EXECUTE_SCRIPT))
    else if methodName == "RegisterTokenContract" then Some(Dataclass(REGISTER_TOKEN_CONTRACT))
    else if methodName == "DeployContract" then Some(Spelled(Dataclass(DEPLOY_CONTRACT), 0, "from_"))
    else if methodName == "IsContractDeployed" then Some(Dataclass(NAME_ONLY))
    else if methodName == "SetConfig" then Some(Dataclass(PHANTASMA_VM_CONFIG))
    else if methodName == "ImportContracts" then Some(Starting(Dataclass(IMPORT_CONTRACTS), 0, "0"))
    else if methodName == "RepairSeries" then
      Some(Starting(Starting(Dataclass(REPAIR_SERIES), 0, "0"), 2, "0"))
    else if methodName == "RepairToken" then Some(Starting(Dataclass(REPAIR_TOKEN), 0, "0"))
    else None
  }

  function TokenShape(methodName: string): Option<Shape> {
    if methodName == "TransferFungible" then Some(Spelled(Dataclass(TRANSFER_FUNGIBLE), 2, "from_"))
    else if methodName == "TransferNonFungible" then Some(Spelled(Dataclass(TRANSFER_NON_FUNGIBLE), 2, "from_"))
    else if methodName == "CreateToken" then Some(Dataclass(CREATE_TOKEN))
    else if methodName == "MintFungible" then Some(Dataclass(MINT_FUNGIBLE))
    else if methodName == "BurnFungible" then Some(Spelled(Dataclass(BURN_FUNGIBLE), 2, "from_"))
    else if methodName == "GetBalance" then Some(Dataclass(BALANCE))
    else if methodName == "CreateTokenSeries" then Some(Dataclass(TOKEN_SERIES))
    else if methodName == "MintNonFungible" then Some(Dataclass(MINT_NON_FUNGIBLE))
    else if methodName == "BurnNonFungible" then Some(Dataclass(BURN_NON_FUNGIBLE))
    else if methodName == "CreateMintedTokenSeries" then Some(Dataclass(MINTED_TOKEN_SERIES))
    else if methodName == "SetTokensConfig" then Some(Dataclass(TOKENS_CONFIG))
    else if methodName == "UpdateTokenMetadata" then Some(Dataclass(UPDATE_TOKEN_METADATA))
    else if methodName == "UpdateSeriesMetadata" then Some(Dataclass(UPDATE_SERIES_METADATA))
    else if methodName == "MintPhantasmaNonFungible" then Some(Dataclass(MINT_PHANTASMA_NON_FUNGIBLE))
    else TokenQueryShape(methodName)
  }

  function TokenQueryShape(methodName: string): Option<Shape> {
    if methodName in {"DeleteTokenSeries", "GetSeriesInfo", "GetSeriesSupply"} then Some(Dataclass(SERIES_REFERENCE))
    else if methodName in {"GetTokenInfo", "GetTokenSupply", "ApplyInflation", "GetNextTokenInflation"} then
      Some(Dataclass(TOKEN_REFERENCE))
    else if methodName in {"GetTokenInfoBySymbol", "GetTokenIdBySymbol"} then Some(Dataclass(SYMBOL_ONLY))
    else if methodName == "GetNonFungibleInfo" then Some(Dataclass(NON_FUNGIBLE_INFO))
    else if methodName == "GetNonFungibleInfoByRomId" then Some(Dataclass(INFO_BY_ROM_ID))
    else if methodName == "GetSeriesInfoByMetaId" then Some(Dataclass(SERIES_INFO_BY_META_ID))
    else if methodName == "GetBalances" then Some(Dataclass(ADDRESS_ONLY))
    else None
  }

  /** ARGUMENT_SHAPES.get(module, {}).get(method) */
  function ArgumentShape(moduleName: string, methodName: string): Option<Shape> {
    if moduleName == "governance" then GovernanceShape(methodName)
    else if moduleName == "phantasma_vm" then VmShape(methodName)
    else if moduleName == "token" then TokenShape(methodName)
    else None
  }

  // ----- every shape of the table decodes what it writes

  lemma TextsGood(show: int -> string, names: seq<FieldName>)
    requires AllDistinct(names) && NoneRaw(names)
    ensures Good(show, Dataclass(Texts(names)))
  {
    hide Good;
    TextsFit(show, names);
    DataclassGood(show, Texts(names));
  }

  lemma EachGood(show: int -> string, c: Class)
    requires Fit(show, c)
    ensures Defaulted(show, Each(c))
  {
    DataclassTable(show, c);
    TableIsGood(show, Dataclass(c));
    assert GoodTy(show, TShape(Dataclass(c)));
  }

  lemma GasConfigGood(show: int -> string)
    ensures Good(show, Dataclass(GAS_CONFIG))
  {
    hide Good, SnakeName;
    GasDistinct();
    GasDisjoint();
    TextsFit(show, GAS_LIMITS.names);
    TextsFit(show, GAS_FEES.names);
    OptionalsFit(show, GAS_TAIL.names);
    ExtendFits(show, GAS_FEES, GAS_TAIL);
    DisjointJoin(GAS_LIMITS.names, GAS_FEES.names, GAS_TAIL.names);
    ExtendFits(show, GAS_LIMITS, Extend(GAS_FEES, GAS_TAIL));
    DataclassGood(show, GAS_CONFIG);
  }

  lemma GasDistinct()
    ensures AllDistinct(GAS_LIMITS.names) && NoneRaw(GAS_LIMITS.names)
    ensures AllDistinct(GAS_FEES.names) && NoneRaw(GAS_FEES.names)
    ensures AllDistinct(GAS_TAIL.names) && NoneRaw(GAS_TAIL.names)
  {
    GasLimitsDistinct();
    GasFeesDistinct();
    GasTailDistinct();
  }

  lemma GasLimitsDistinct()
    ensures AllDistinct(GAS_LIMITS.names) && NoneRaw(GAS_LIMITS.names)
  {
  }

  lemma GasFeesDistinct()
    ensures AllDistinct(GAS_FEES.names) && NoneRaw(GAS_FEES.names)
  {
  }

  lemma GasTailDistinct()
    ensures AllDistinct(GAS_TAIL.names) && NoneRaw(GAS_TAIL.names)
  {
  }

  lemma GasDisjoint()
    ensures Disjoint(GAS_LIMITS.names, GAS_FEES.names) && Disjoint(GAS_LIMITS.names, GAS_TAIL.names)
    ensures Disjoint(GAS_FEES.names, GAS_TAIL.names)
  {
    LimitsFeesDisjoint();
    LimitsTailDisjoint();
    FeesTailDisjoint();
  }

  lemma LimitsFeesDisjoint()
    ensures Disjoint(GAS_LIMITS.names, GAS_FEES.names)
  {
  }

  lemma LimitsTailDisjoint()
    ensures Disjoint(GAS_LIMITS.names, GAS_TAIL.names)
  {
  }

  lemma FeesTailDisjoint()
    ensures Disjoint(GAS_FEES.names, GAS_TAIL.names)
  {
  }

  lemma GovernanceGood(show: int -> string, methodName: string)
    requires GovernanceShape(methodName).Some?
    ensures Good(show, GovernanceShape(methodName).value)
  {
    hide Good, SnakeName;
    GasConfigGood(show);
    TextsGood(show, CHAIN_CONFIG.names);
    TextsGood(show, NESTED_RESOLUTION.names);
    DataclassGood(show, METADATA_ONLY);
    NodeConfigGood(show);
    TextsGood(show, REGISTER_NAME.names);
    TextsGood(show, ADDRESS_ONLY.names);
    TextsGood(show, NAME_ONLY.names);
  }

  lemma NodeConfigGood(show: int -> string)
    ensures Good(show, Dataclass(NODE_CONFIG))
  {
    hide Good, SnakeName;
    TextsFit(show, CONSENSUS_NODE.names);
    EachGood(show, CONSENSUS_NODE);
    DataclassGood(show, NODE_CONFIG);
  }

  lemma VmGood(show: int -> string, methodName: string)
    requires VmShape(methodName).Some?
    ensures Good(show, VmShape(methodName).value)
  {
    hide Good, SnakeName;
    TextsGood(show, EXECUTE_SCRIPT.names);
    RegisterContractGood(show);
    DeployGood(show);
    TextsGood(show, NAME_ONLY.names);
    TextsGood(show, PHANTASMA_VM_CONFIG.names);
    ImportGood(show);
    RepairSeriesGood(show);
    RepairTokenGood(show);
  }

  lemma RegisterContractGood(show: int -> string)
    ensures Good(show, Dataclass(REGISTER_TOKEN_CONTRACT))
  {
    hide Good, SnakeName;
    TextsFit(show, [TOKEN_ID, SYMBOL, SCRIPT, ABI]);
    OptionalsFit(show, [TOKEN]);
    ExtendFits(show, Texts([TOKEN_ID, SYMBOL, SCRIPT, ABI]), Optionals([TOKEN]));
    DataclassGood(show, REGISTER_TOKEN_CONTRACT);
  }

  /** A shape whose i-th field travels as a keyword. */
  lemma SpelledGood(show: int -> string, c: Class, i: nat)
    requires Fit(show, c) && NoneRaw(c.names) && i < |c.names| && '_' !in c.names[i]
    ensures Good(show, Spelled(Dataclass(c), i, "from_"))
  {
    hide Good, SnakeName;
    DataclassTable(show, c);
    assert "from_"[4] == '_';
    SpelledTable(show, Dataclass(c), i, "from_");
    TableIsGood(show, Spelled(Dataclass(c), i, "from_"));
  }

  lemma StartingGood(show: int -> string, c: Class, i: nat, text: string)
    requires Fit(show, c) && NoneRaw(c.names) && i < |c.names| && c.tys[i] == TText
    ensures Good(show, Starting(Dataclass(c), i, text))
  {
    hide Good, SnakeName;
    DataclassTable(show, c);
    StartingTable(show, Dataclass(c), i, text);
    TableIsGood(show, Starting(Dataclass(c), i, text));
  }

  lemma DeployGood(show: int -> string)
    ensures Good(show, Spelled(Dataclass(DEPLOY_CONTRACT), 0, "from_"))
  {
    hide Good, SnakeName;
    TextsFit(show, DEPLOY_CONTRACT.names);
    SpelledGood(show, DEPLOY_CONTRACT, 0);
  }

  /** Shapes nest: contracts of tables of rows. */
  lemma ImportGood(show: int -> string)
    ensures Good(show, Starting(Dataclass(IMPORT_CONTRACTS), 0, "0"))
  {
    hide Good, SnakeName, GoodTy;
    TextsFit(show, STORAGE_ROW.names);
    EachGood(show, STORAGE_ROW);
    TextDefaulted(show);
    EachGood(show, STORAGE_TABLE);
    EachGood(show, IMPORTED_CONTRACT);
    StartingGood(show, IMPORT_CONTRACTS, 0, "0");
  }

  lemma TextDefaulted(show: int -> string)
    ensures Defaulted(show, TText) && Defaulted(show, TList(TText))
    ensures Defaulted(show, TOptional(TText)) && Defaulted(show, TOptional(TDict(TVm)))
  {
    assert GoodTy(show, TDict(TVm));
  }

  lemma RepairSeriesGood(show: int -> string)
    ensures Good(show, Starting(Starting(Dataclass(REPAIR_SERIES), 0, "0"), 2, "0"))
  {
    hide Good, SnakeName, GoodTy;
    RepairPartsGood(show);
    TextDefaulted(show);
    DataclassTable(show, REPAIR_SERIES);
    var once := Starting(Dataclass(REPAIR_SERIES), 0, "0");
    StartingTable(show, Dataclass(REPAIR_SERIES), 0, "0");
    StartingTable(show, once, 2, "0");
    TableIsGood(show, Starting(once, 2, "0"));
  }

  lemma RepairPartsGood(show: int -> string)
    ensures Defaulted(show, Each(SERIES_SUPPLEMENT)) && Defaulted(show, Each(MINT_COUNT_REPAIR))
  {
    hide Good, SnakeName, GoodTy;
    TextsFit(show, SERIES_SUPPLEMENT.names);
    EachGood(show, SERIES_SUPPLEMENT);
    TextsFit(show, MINT_COUNT_REPAIR.names);
    EachGood(show, MINT_COUNT_REPAIR);
  }

  lemma RepairTokenGood(show: int -> string)
    ensures Good(show, Starting(Dataclass(REPAIR_TOKEN), 0, "0"))
  {
    hide Good, SnakeName, GoodTy;
    TextsFit(show, TOKEN_REPAIR.names);
    EachGood(show, TOKEN_REPAIR);
    TextDefaulted(show);
    StartingGood(show, REPAIR_TOKEN, 0, "0");
  }

  lemma TokenGood(show: int -> string, methodName: string)
    requires TokenShape(methodName).Some?
    ensures Good(show, TokenShape(methodName).value)
  {
    hide Good, SnakeName, TokenQueryShape;
    TransfersGood(show);
    TokensGood(show);
    MintsGood(show);
    MintedSeriesGood(show);
    UpdatesGood(show);
    if TokenQueryShape(methodName).Some? { TokenQueryGood(show, methodName); }
  }

  lemma TransfersGood(show: int -> string)
    ensures Good(show, Spelled(Dataclass(TRANSFER_FUNGIBLE), 2, "from_"))
    ensures Good(show, Spelled(Dataclass(TRANSFER_NON_FUNGIBLE), 2, "from_"))
    ensures Good(show, Spelled(Dataclass(BURN_FUNGIBLE), 2, "from_"))
  {
    hide Good, SnakeName, GoodTy;
    TextDefaulted(show);
    TextsFit(show, TRANSFER_FUNGIBLE.names);
    SpelledGood(show, TRANSFER_FUNGIBLE, 2);
    SpelledGood(show, TRANSFER_NON_FUNGIBLE, 2);
    TextsFit(show, BURN_FUNGIBLE.names);
    SpelledGood(show, BURN_FUNGIBLE, 2);
  }

  lemma TokensGood(show: int -> string)
    ensures Good(show, Dataclass(CREATE_TOKEN)) && Good(show, Dataclass(TOKEN_SERIES))
    ensures Good(show, Dataclass(TOKENS_CONFIG)) && Good(show, Dataclass(BURN_NON_FUNGIBLE))
  {
    hide Good, SnakeName, GoodTy;
    TextDefaulted(show);
    DataclassGood(show, TOKENS_CONFIG);
    DataclassGood(show, BURN_NON_FUNGIBLE);
    CreateGood(show);
  }

  lemma CreateGood(show: int -> string)
    ensures Good(show, Dataclass(CREATE_TOKEN)) && Good(show, Dataclass(TOKEN_SERIES))
  {
    hide Good, SnakeName, GoodTy;
    TextDefaulted(show);
    DataclassGood(show, CREATE_TOKEN);
    MintedSeriesParts();
    DataclassGood(show, TOKEN_SERIES);
  }

  lemma MintsGood(show: int -> string)
    ensures Good(show, Dataclass(MINT_NON_FUNGIBLE)) && Good(show, Dataclass(MINT_PHANTASMA_NON_FUNGIBLE))
  {
    hide Good, SnakeName, GoodTy;
    TextDefaulted(show);
    TextsFit(show, NFT_MINT.names);
    EachGood(show, NFT_MINT);
    DataclassGood(show, MINT_NON_FUNGIBLE);
    TextsFit(show, PHANTASMA_NFT_MINT.names);
    EachGood(show, PHANTASMA_NFT_MINT);
    DataclassGood(show, MINT_PHANTASMA_NON_FUNGIBLE);
  }

  lemma MintedSeriesGood(show: int -> string)
    ensures Good(show, Dataclass(MINTED_TOKEN_SERIES))
  {
    hide Good, SnakeName, GoodTy;
    TextDefaulted(show);
    MintedSeriesParts();
    ExtendFits(show, TOKEN_SERIES, MINTED_TAIL);
    DataclassGood(show, MINTED_TOKEN_SERIES);
  }

  lemma MintedSeriesParts()
    ensures AllDistinct(TOKEN_SERIES.names) && NoneRaw(TOKEN_SERIES.names)
    ensures AllDistinct(MINTED_TAIL.names) && NoneRaw(MINTED_TAIL.names)
    ensures Disjoint(TOKEN_SERIES.names, MINTED_TAIL.names)
  {
  }

  lemma UpdatesGood(show: int -> string)
    ensures Good(show, Dataclass(MINT_FUNGIBLE)) && Good(show, Dataclass(BALANCE))
    ensures Good(show, Dataclass(UPDATE_TOKEN_METADATA)) && Good(show, Dataclass(UPDATE_SERIES_METADATA))
  {
    hide Good, SnakeName, GoodTy;
    TextDefaulted(show);
    TextsGood(show, MINT_FUNGIBLE.names);
    TextsGood(show, BALANCE.names);
    DataclassGood(show, UPDATE_TOKEN_METADATA);
    TextsGood(show, UPDATE_SERIES_METADATA.names);
  }

  lemma TokenQueryGood(show: int -> string, methodName: string)
    requires TokenQueryShape(methodName).Some?
    ensures Good(show, TokenQueryShape(methodName).value)
  {
    hide Good, SnakeName;
    TextsGood(show, SERIES_REFERENCE.names);
    TextsGood(show, TOKEN_REFERENCE.names);
    TextsGood(show, SYMBOL_ONLY.names);
    TextsGood(show, NON_FUNGIBLE_INFO.names);
    TextsGood(show, INFO_BY_ROM_ID.names);
    TextsGood(show, SERIES_INFO_BY_META_ID.names);
    TextsGood(show, ADDRESS_ONLY.names);
  }

  /** Every shape in the table decodes what it writes and never writes a field
      under the name that marks an undecoded buffer. */
  lemma ArgumentShapesGood(show: int -> string, moduleName: string, methodName: string)
    requires ArgumentShape(moduleName, methodName).Some?
    ensures Good(show, ArgumentShape(moduleName, methodName).value)
  {
    hide Good, GovernanceShape, VmShape, TokenShape;
    if moduleName == "governance" {
      GovernanceGood(show, methodName);
    } else if moduleName == "phantasma_vm" {
      VmGood(show, methodName);
    } else {
      TokenGood(show, methodName);
    }
  }
}
