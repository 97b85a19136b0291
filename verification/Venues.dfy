/** The venue registry: which programs a leg may call, and with which instructions. */
module Venues {
  import opened Common
  import opened Wire

  // 675kPX9MHTjS2zt1qfr1NYHuzeLXfQM9H24wFSUt1Mp8
  const RAYDIUM_AMM_V4: Pubkey := [
    75, 217, 73, 196, 54, 2, 195, 63, 32, 119, 144, 237, 22, 163, 82, 76,
    161, 185, 151, 92, 241, 33, 162, 169, 12, 255, 236, 125, 248, 182, 138, 205]
  // CAMMCzo5YL8w4VFF8KVHrK22GGUsp5VTaW7grrKgrWqK
  const RAYDIUM_CLMM: Pubkey := [
    165, 213, 202, 158, 4, 207, 93, 181, 144, 183, 20, 186, 47, 227, 44, 177,
    89, 19, 63, 193, 193, 146, 183, 34, 87, 253, 7, 211, 156, 176, 64, 30]
  // CPMMoo8L3F4NbTegBCKVNunggL7H1ZpdTHKxQB5qKP1C
  const RAYDIUM_CPMM: Pubkey := [
    169, 42, 90, 139, 79, 41, 89, 82, 132, 37, 80, 170, 147, 253, 91, 149,
    181, 172, 230, 168, 235, 146, 12, 147, 148, 46, 67, 105, 12, 32, 236, 115]
  // LBUZKhRxPF3XUpBCjp4YzTKgLccjZhTSDM9YuVaPwxo
  const METEORA_DLMM: Pubkey := [
    4, 233, 225, 47, 188, 132, 232, 38, 201, 50, 204, 233, 226, 100, 12, 206,
    21, 89, 12, 28, 98, 115, 176, 146, 87, 8, 186, 59, 133, 32, 176, 188]
  // Eo7WjKq67rjJQSZxS6z3YkapzY3eMj6Xy8X5EQVn5UaB
  const METEORA_DYNAMIC: Pubkey := [
    204, 248, 2, 212, 204, 204, 132, 215, 251, 33, 181, 247, 59, 73, 216, 26,
    22, 197, 180, 200, 142, 227, 35, 148, 225, 201, 29, 53, 136, 204, 64, 128]
  // 6EF8rrecthR5Dkzon8Nwu78hRvfCKubJ14M5uBEwF6P
  const PUMP_FUN: Pubkey := [
    1, 86, 224, 246, 147, 102, 90, 207, 68, 219, 21, 104, 191, 23, 91, 170,
    81, 137, 203, 151, 245, 210, 255, 59, 101, 93, 43, 182, 253, 109, 24, 176]
  // pAMMBay6oceH9fJKBRHGP5D4bD4sWpmSwMn52FMfXEA
  const PUMP_SWAP: Pubkey := [
    12, 20, 222, 252, 130, 94, 198, 118, 148, 37, 8, 24, 187, 101, 64, 101,
    244, 41, 141, 49, 86, 213, 113, 180, 212, 248, 9, 12, 24, 233, 168, 99]
  // TokenkegQfeZyiNwAJbNbGKPFXCWuBvf9Ss623VQ5DA
  const TOKEN_PROGRAM: Pubkey := [
    6, 221, 246, 225, 215, 101, 161, 147, 217, 203, 225, 70, 206, 235, 121, 172,
    28, 180, 133, 237, 95, 91, 55, 145, 58, 140, 245, 133, 126, 255, 0, 169]
  // TokenzQdBNbLqP5VEhdkAS6EPFLC1PHnBqCXEpPxuEb
  const TOKEN_2022_PROGRAM: Pubkey := [
    6, 221, 246, 225, 238, 117, 143, 222, 24, 66, 93, 188, 228, 108, 205, 218,
    182, 26, 252, 77, 131, 185, 13, 39, 254, 189, 249, 40, 216, 161, 139, 252]

  // Ec5kwqhc1ptv4r3EptfZypvB3dCtQwdLt6cC4EKrGBFd
  const PROTOCOL_FEE_RECIPIENT: Pubkey := [
    202, 36, 163, 76, 152, 197, 72, 164, 154, 66, 41, 24, 35, 9, 68, 243,
    228, 20, 106, 218, 13, 235, 65, 150, 91, 21, 180, 237, 174, 143, 122, 32]

  const MAX_INTEGRATOR_FEE_BPS: int := 255
  const PROTOCOL_FEE_BPS: int := 20
  const BPS_DENOMINATOR: int := 10_000

  const ANCHOR_SWAP: Bytes := [248, 198, 158, 145, 225, 117, 135, 200]
  const CLMM_SWAP_V2: Bytes := [114, 113, 45, 226, 179, 239, 106, 225]
  const CPMM_SWAP_BASE_IN: Bytes := [143, 190, 90, 218, 196, 30, 51, 222]
  const CPMM_SWAP_BASE_OUT: Bytes := [55, 217, 98, 86, 163, 74, 180, 173]
  const DLMM_SWAP2: Bytes := [65, 75, 63, 76, 235, 91, 91, 136]
  const PUMP_BUY: Bytes := [102, 6, 61, 18, 1, 218, 235, 234]
  const PUMP_SELL: Bytes := [51, 230, 133, 164, 1, 127, 131, 173]

  datatype Venue = RaydiumAmmV4 | RaydiumClmm | RaydiumCpmm | MeteoraDlmm | MeteoraDynamic | PumpFun | PumpSwap | Kamino

  function FromU8(v: u8): Option<Venue> {
    match v
    case 0 => Some(RaydiumAmmV4)
    case 1 => Some(RaydiumClmm)
    case 2 => Some(RaydiumCpmm)
    case 3 => Some(MeteoraDlmm)
    case 4 => Some(MeteoraDynamic)
    case 5 => Some(PumpFun)
    case 6 => Some(PumpSwap)
    case 7 => Some(Kamino)
    case _ => None
  }

  predicate StartsWith(data: Bytes, discriminators: set<Bytes>) {
    |data| >= 8 && data[..8] in discriminators
  }

  /** Only known swap instructions of the venue. */
  predicate IsAllowedSwapIx(venue: Venue, data: Bytes) {
    data != [] &&
    match venue
    case RaydiumAmmV4 => data[0] == 9 || data[0] == 11
    case RaydiumClmm => StartsWith(data, {ANCHOR_SWAP, CLMM_SWAP_V2})
    case RaydiumCpmm => StartsWith(data, {CPMM_SWAP_BASE_IN, CPMM_SWAP_BASE_OUT})
    case MeteoraDlmm => StartsWith(data, {ANCHOR_SWAP, DLMM_SWAP2})
    case MeteoraDynamic => StartsWith(data, {ANCHOR_SWAP})
    case PumpFun => StartsWith(data, {PUMP_BUY, PUMP_SELL})
    case PumpSwap => StartsWith(data, {PUMP_BUY, PUMP_SELL})
    case Kamino => false
  }

  function ProgramId(venue: Venue): Option<Pubkey> {
    match venue
    case RaydiumAmmV4 => Some(RAYDIUM_AMM_V4)
    case RaydiumClmm => Some(RAYDIUM_CLMM)
    case RaydiumCpmm => Some(RAYDIUM_CPMM)
    case MeteoraDlmm => Some(METEORA_DLMM)
    case MeteoraDynamic => Some(METEORA_DYNAMIC)
    case PumpFun => Some(PUMP_FUN)
    case PumpSwap => Some(PUMP_SWAP)
    case Kamino => None
  }
}
