/** Machine words of the protocol and the wrapping operations the source applies to them. */
module Words {

  const TWO32: int := 0x1_0000_0000
  const TWO64: int := 0x1_0000_0000_0000_0000

  type u32 = x: int | 0 <= x < TWO32
  type u64 = x: int | 0 <= x < TWO64
  type byte = x: int | 0 <= x < 256

  datatype Option<+T> = None | Some(value: T)
  datatype Result<+T> = Ok(value: T) | Err

  /** `wrapping_add(1)` on u32. */
  function Succ32(x: u32): (r: u32)
  {
    if x == TWO32 - 1 then 0 else x + 1
  }

  /** `wrapping_sub` on u32. */
  function Sub32(a: u32, b: u32): (r: u32)
  {
    if a >= b then a - b else a - b + TWO32
  }

  /** `wrapping_add(1)` on u64. */
  function Succ64(x: u64): (r: u64)
  {
    if x == TWO64 - 1 then 0 else x + 1
  }

  lemma SliceOfRest<T>(s: seq<T>, n: nat, a: nat, b: nat)
    requires n <= |s| && a <= b <= |s| - n
    ensures s[n..][a..b] == s[n + a..n + b]
  {
  }
}
