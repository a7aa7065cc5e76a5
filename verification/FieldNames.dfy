/** The Python names of the fields in the event and argument dataclasses. */
module FieldNames {
  import opened WireShapes

  const ABI: FieldName := "abi"
  const ADDRESS: FieldName := "address"
  const ALLOWED_TX_TYPES: FieldName := "allowed_tx_types"
  const AMOUNT: FieldName := "amount"
  const BASE_SYMBOL: FieldName := "base_symbol"
  const BLOCK_RATE_TARGET: FieldName := "block_rate_target"
  const BUYER: FieldName := "buyer"
  const CARBON_BASE_TOKEN_ID: FieldName := "carbon_base_token_id"
  const CARBON_INSTANCE_ID: FieldName := "carbon_instance_id"
  const CARBON_QUOTE_TOKEN_ID: FieldName := "carbon_quote_token_id"
  const CARBON_SERIES_ID: FieldName := "carbon_series_id"
  const CARBON_TOKEN_ID: FieldName := "carbon_token_id"
  const CONTRACT_NAME: FieldName := "contract_name"
  const CONTRACTS: FieldName := "contracts"
  const CONTRACTS_COUNT: FieldName := "contracts_count"
  const DATA_ESCROW_PER_ROW: FieldName := "data_escrow_per_row"
  const DATA_TOKEN_ID: FieldName := "data_token_id"
  const DECIMALS: FieldName := "decimals"
  const END_DATE: FieldName := "end_date"
  const END_PRICE: FieldName := "end_price"
  const EXPIRY_WINDOW: FieldName := "expiry_window"
  const FEATURE_LEVEL: FieldName := "feature_level"
  const FEE_MULTIPLIER: FieldName := "fee_multiplier"
  const FEE_SHIFT: FieldName := "fee_shift"
  const FLAGS: FieldName := "flags"
  const FLAGS_NAMES: FieldName := "flags_names"
  const FROM: FieldName := "from"
  const FUEL_PER_CONTRACT_DEPLOY: FieldName := "fuel_per_contract_deploy"
  const GAS_ACCOUNT: FieldName := "gas_account"
  const GAS_BURN_RATIO_MUL: FieldName := "gas_burn_ratio_mul"
  const GAS_BURN_RATIO_SHIFT: FieldName := "gas_burn_ratio_shift"
  const GAS_CONSTRUCTOR: FieldName := "gas_constructor"
  const GAS_DAPP_RATIO_MUL: FieldName := "gas_dapp_ratio_mul"
  const GAS_DAPP_RATIO_SHIFT: FieldName := "gas_dapp_ratio_shift"
  const GAS_FEE_CREATE_TOKEN_BASE: FieldName := "gas_fee_create_token_base"
  const GAS_FEE_CREATE_TOKEN_SERIES: FieldName := "gas_fee_create_token_series"
  const GAS_FEE_CREATE_TOKEN_SYMBOL: FieldName := "gas_fee_create_token_symbol"
  const GAS_FEE_PER_BYTE: FieldName := "gas_fee_per_byte"
  const GAS_FEE_QUERY: FieldName := "gas_fee_query"
  const GAS_FEE_REGISTER_NAME: FieldName := "gas_fee_register_name"
  const GAS_FEE_TRANSFER: FieldName := "gas_fee_transfer"
  const GAS_FROM: FieldName := "gas_from"
  const GAS_LEADERBOARD: FieldName := "gas_leaderboard"
  const GAS_NEXUS: FieldName := "gas_nexus"
  const GAS_ORACLE: FieldName := "gas_oracle"
  const GAS_ORGANIZATION: FieldName := "gas_organization"
  const GAS_PRODUCER_RATIO_MUL: FieldName := "gas_producer_ratio_mul"
  const GAS_PRODUCER_RATIO_SHIFT: FieldName := "gas_producer_ratio_shift"
  const GAS_STANDARD: FieldName := "gas_standard"
  const GAS_TOKEN_ID: FieldName := "gas_token_id"
  const GET_SCHEMAS: FieldName := "get_schemas"
  const ID: FieldName := "id"
  const IMPORTED_LIVE_COUNT: FieldName := "imported_live_count"
  const INSTANCE_ID: FieldName := "instance_id"
  const INSTANCE_IDS: FieldName := "instance_ids"
  const IS_NON_FUNGIBLE: FieldName := "is_non_fungible"
  const KEY: FieldName := "key"
  const LEGACY_DATA_ESCROW_PER_ROW: FieldName := "legacy_data_escrow_per_row"
  const MAX_GAS: FieldName := "max_gas"
  const MAX_MINT: FieldName := "max_mint"
  const MAX_NAME_LENGTH: FieldName := "max_name_length"
  const MAX_STRUCTURE_SIZE: FieldName := "max_structure_size"
  const MAX_SUPPLY: FieldName := "max_supply"
  const MAX_TOKEN_SYMBOL_LENGTH: FieldName := "max_token_symbol_length"
  const METADATA: FieldName := "metadata"
  const METADATA_RAW: FieldName := "metadata_raw"
  const MINIMUM_GAS_BILL: FieldName := "minimum_gas_bill"
  const MINIMUM_GAS_OFFER: FieldName := "minimum_gas_offer"
  const MINT_COUNT: FieldName := "mint_count"
  const MODE: FieldName := "mode"
  const NAME: FieldName := "name"
  const NODES: FieldName := "nodes"
  const OWNER: FieldName := "owner"
  const PHANTASMA_SERIES_ID: FieldName := "phantasma_series_id"
  const POLICY_FEE_CREATE_TOKEN_BASE: FieldName := "policy_fee_create_token_base"
  const POLICY_FEE_CREATE_TOKEN_SERIES: FieldName := "policy_fee_create_token_series"
  const POLICY_FEE_CREATE_TOKEN_SYMBOL: FieldName := "policy_fee_create_token_symbol"
  const POLICY_FEE_REGISTER_NAME: FieldName := "policy_fee_register_name"
  const PRICE: FieldName := "price"
  const QUOTE_SYMBOL: FieldName := "quote_symbol"
  const RAM: FieldName := "ram"
  const RAMS: FieldName := "rams"
  const RAW_ARGS: FieldName := "raw_args"
  const RECIPIENT: FieldName := "recipient"
  const REPAIR_MASK: FieldName := "repair_mask"
  const REPAIRS: FieldName := "repairs"
  const REPAIRS_COUNT: FieldName := "repairs_count"
  const RESERVED1: FieldName := "reserved1"
  const RESERVED2: FieldName := "reserved2"
  const RESERVED3: FieldName := "reserved3"
  const RESOLUTION_ID: FieldName := "resolution_id"
  const ROM: FieldName := "rom"
  const ROM_ID: FieldName := "rom_id"
  const ROMS: FieldName := "roms"
  const ROOT_VARIABLES: FieldName := "root_variables"
  const ROWS: FieldName := "rows"
  const SCRIPT: FieldName := "script"
  const SELLER: FieldName := "seller"
  const SERIES_ID: FieldName := "series_id"
  const START_DATE: FieldName := "start_date"
  const SUPPLEMENTS: FieldName := "supplements"
  const SUPPLEMENTS_COUNT: FieldName := "supplements_count"
  const SYMBOL: FieldName := "symbol"
  const TABLES: FieldName := "tables"
  const TO: FieldName := "to"
  const TOKEN: FieldName := "token"
  const TOKEN_FLAGS: FieldName := "token_flags"
  const TOKEN_ID: FieldName := "token_id"
  const TOKEN_SCHEMAS: FieldName := "token_schemas"
  const TOKENS: FieldName := "tokens"
  const TYPE: FieldName := "type"
  const VALUE: FieldName := "value"
  const VERSION: FieldName := "version"
}
