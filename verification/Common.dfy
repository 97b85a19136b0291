/** Vocabulary shared by every component: optional values and the machine types of the two programs. */
module Common {

  datatype Option<+T> = None | Some(value: T)

  function GetOr<T>(o: Option<T>, default: T): T {
    match o
    case Some(v) => v
    case None => default
  }

  const TWO_64: int := 0x1_0000_0000_0000_0000
  const U64_MAX: int := 0xFFFF_FFFF_FFFF_FFFF

  type byte = x: int | 0 <= x < 0x100
  type u8 = byte
  type u16 = x: int | 0 <= x < 0x1_0000
  type u64 = x: int | 0 <= x < 0x1_0000_0000_0000_0000
  type i64 = x: int | -0x8000_0000_0000_0000 <= x < 0x8000_0000_0000_0000

  /** A Solana public key: 32 raw bytes. */
  type Pubkey = k: seq<byte> | |k| == 32 witness seq(32, _ => 0)

  const BPS: int := 10_000

  /** BigInt `/`: rounds toward zero, unlike Dafny's Euclidean division. */
  function JsDiv(x: int, d: int): int
    requires 0 < d
  {
    if x >= 0 then x / d else -((-x) / d)
  }

  /** The input left after a fee in basis points; both quoting models start from it. */
  function AfterFee(amountIn: int, feeBps: int): int {
    JsDiv(amountIn * (BPS - feeBps), BPS)
  }

  /** The least output the user accepts, as the planner computes it from a quote. */
  function MinAmountOut(amountOut: int, slippageBps: int): int {
    JsDiv(amountOut * (10_000 - slippageBps), 10_000)
  }

  /** The sum of a list of amounts. */
  function Sum(s: seq<int>): int {
    if s == [] then 0 else s[0] + Sum(s[1..])
  }

  /** Changing one entry changes the sum by the difference of that entry. */
  lemma {:induction false} SumUpdate(s: seq<int>, i: nat, v: int)
    requires i < |s|
    ensures Sum(s[i := v]) == Sum(s) - s[i] + v
  {
    if i == 0 {
    } else {
      SumUpdate(s[1..], i - 1, v);
    }
  }
}
