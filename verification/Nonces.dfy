/**
 The number a wave's nonce is made from (citadel_crypt/src/scramble/crypt_splitter.rs,
 calculate_nonce_version): Szudzik's pairing of wave index and group identifier.
 */
module Nonces {
  import opened Words

  function Pair(a: nat, b: nat): nat
  {
    if a < b then a + b * b else a * a + a + b
  }

  /** The pair that comes after (a, b): along the shell max(a, b), then on to the next shell. */
  function NextPair(a: nat, b: nat): (nat, nat)
  {
    if a < b then (if a + 1 < b then (a + 1, b) else (b, 0))
    else if b < a then (a, b + 1) else (0, a + 1)
  }

  function Unpair(n: nat): (nat, nat)
  {
    if n == 0 then (0, 0) else var (a, b) := Unpair(n - 1); NextPair(a, b)
  }

  lemma NextPairIsSuccessor(a: nat, b: nat)
    ensures var (c, d) := NextPair(a, b); Pair(c, d) == Pair(a, b) + 1
  {
    if a == b {
      assert (a + 1) * (a + 1) == a * a + 2 * a + 1;
    }
  }

  lemma {:induction false} PairOfUnpair(n: nat)
    ensures var (a, b) := Unpair(n); Pair(a, b) == n
  {
    if n > 0 {
      PairOfUnpair(n - 1);
      var (a, b) := Unpair(n - 1);
      NextPairIsSuccessor(a, b);
    }
  }

  function Shell(a: nat, b: nat): nat
  {
    if a < b then b else a
  }

  lemma ShellBounds(a: nat, b: nat)
    ensures var m := Shell(a, b); m * m <= Pair(a, b) < (m + 1) * (m + 1)
  {
    var m := Shell(a, b);
    assert (m + 1) * (m + 1) == m * m + 2 * m + 1;
  }

  lemma SquaresGrow(m: nat, n: nat)
    requires m <= n
    ensures m * m <= n * n
  {
    assert n * n == m * m + (n - m) * (n + m);
  }

  lemma PairInjective(a: nat, b: nat, c: nat, d: nat)
    requires Pair(a, b) == Pair(c, d)
    ensures a == c && b == d
  {
    ShellBounds(a, b);
    ShellBounds(c, d);
    var m, n := Shell(a, b), Shell(c, d);
    if m < n { SquaresGrow(m + 1, n); }
    if n < m { SquaresGrow(n + 1, m); }
    assert m == n;
  }

  /** Wave and group determine the number and the number determines them. */
  lemma {:induction false} PairBijection(a: nat, b: nat, n: nat)
    ensures Pair(a, b) == n <==> (a, b) == Unpair(n)
  {
    PairOfUnpair(n);
    var (c, d) := Unpair(n);
    if Pair(a, b) == n { PairInjective(a, b, c, d); }
  }

  /** The source computes on 64-bit words. */
  function NonceVersion(wave: nat, group: nat): u64
  {
    Pair(wave, group) % TWO64
  }

  lemma NonceFits(wave: u64, group: u64)
    ensures Pair(wave, group) < TWO64 <==> wave < TWO32 && group < TWO32
  {
    ShellBounds(wave, group);
    var m := Shell(wave, group);
    if m < TWO32 { SquaresGrow(m + 1, TWO32); } else { SquaresGrow(TWO32, m); }
  }

  lemma NonceVersionsDistinct(wave: u64, group: u64, wave': u64, group': u64)
    requires wave < TWO32 && group < TWO32 && wave' < TWO32 && group' < TWO32
    requires (wave, group) != (wave', group')
    ensures NonceVersion(wave, group) != NonceVersion(wave', group')
    ensures NonceVersion(wave, group) == Pair(wave, group)
  {
    NonceFits(wave, group);
    NonceFits(wave', group');
    if Pair(wave, group) == Pair(wave', group') { PairInjective(wave, group, wave', group'); }
  }

  /** From group 2^32 on the square wraps, and the first such group repeats the very first number. */
  lemma NonceWraps()
    ensures NonceVersion(0, TWO32) == NonceVersion(0, 0)
  {
    assert TWO32 * TWO32 == TWO64;
  }
}
