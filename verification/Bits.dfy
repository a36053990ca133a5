/** Machine words as sequences of bits, lowest bit first, and the bit gathering
    helpers of the analysis library. */
module Bits {

  type Word = w: seq<bool> | |w| == 32 witness seq(32, _ => false)

  function Zeros(n: nat): (r: seq<bool>)
    ensures |r| == n
  {
    seq(n, _ => false)
  }

  const ZERO: Word := Zeros(32)

  function And(a: seq<bool>, b: seq<bool>): (r: seq<bool>)
    requires |a| == |b|
    ensures |r| == |a|
  {
    seq(|a|, i requires 0 <= i < |a| => a[i] && b[i])
  }

  function Or(a: seq<bool>, b: seq<bool>): (r: seq<bool>)
    requires |a| == |b|
    ensures |r| == |a|
  {
    seq(|a|, i requires 0 <= i < |a| => a[i] || b[i])
  }

  /** Logical shift towards the low bits. */
  function Shr(a: seq<bool>, n: nat): (r: seq<bool>)
    requires n <= |a|
    ensures |r| == |a|
  {
    a[n..] + Zeros(n)
  }

  /** Shift towards the high bits; bits leaving at the top are lost. */
  function Shl(a: seq<bool>, n: nat): (r: seq<bool>)
    requires n <= |a|
    ensures |r| == |a|
  {
    Zeros(n) + a[..|a| - n]
  }

  /** Zero extension to `n` bits. */
  function Pad(a: seq<bool>, n: nat): (r: seq<bool>)
    requires |a| <= n
    ensures |r| == n
  {
    a + Zeros(n - |a|)
  }

  /** As many bits as fit. */
  function Fit(a: seq<bool>, n: nat): (r: seq<bool>)
    ensures |r| == n
  {
    if |a| <= n then Pad(a, n) else a[..n]
  }

  function Pow2(n: nat): (r: nat)
    ensures r > 0
  {
    if n == 0 then 1 else 2 * Pow2(n - 1)
  }

  /** The unsigned number a bit sequence stands for. */
  function Value(a: seq<bool>): nat {
    if a == [] then 0 else (if a[0] then 1 else 0) + 2 * Value(a[1..])
  }

  /** Bitwise operations on the numbers themselves. */
  function BitAnd(x: nat, y: nat): nat {
    if x == 0 || y == 0 then 0 else (if x % 2 == 1 && y % 2 == 1 then 1 else 0) + 2 * BitAnd(x / 2, y / 2)
  }

  function BitOr(x: nat, y: nat): nat
    decreases x + y
  {
    if x == 0 then y else if y == 0 then x
    else (if x % 2 == 1 || y % 2 == 1 then 1 else 0) + 2 * BitOr(x / 2, y / 2)
  }

  lemma LowBit(a: seq<bool>)
    requires a != []
    ensures Value(a) % 2 == (if a[0] then 1 else 0) && Value(a) / 2 == Value(a[1..])
  {
  }

  /** They are the operations on the bits. */
  lemma {:induction false} AndValue(a: seq<bool>, b: seq<bool>)
    requires |a| == |b|
    ensures Value(And(a, b)) == BitAnd(Value(a), Value(b))
  {
    if a != [] {
      AndValue(a[1..], b[1..]);
      assert And(a, b)[1..] == And(a[1..], b[1..]);
      LowBit(a);
      LowBit(b);
      AndOfNothing(a[1..], b[1..]);
    }
  }

  lemma {:induction false} AndOfNothing(a: seq<bool>, b: seq<bool>)
    requires |a| == |b|
    ensures Value(a) == 0 || Value(b) == 0 ==> Value(And(a, b)) == 0
  {
    if a != [] {
      AndOfNothing(a[1..], b[1..]);
      assert And(a, b)[1..] == And(a[1..], b[1..]);
    }
  }

  lemma {:induction false} OrValue(a: seq<bool>, b: seq<bool>)
    requires |a| == |b|
    ensures Value(Or(a, b)) == BitOr(Value(a), Value(b))
  {
    if a != [] {
      OrValue(a[1..], b[1..]);
      assert Or(a, b)[1..] == Or(a[1..], b[1..]);
      LowBit(a);
      LowBit(b);
      OrWithNothing(a[1..], b[1..]);
    }
  }

  lemma {:induction false} OrWithNothing(a: seq<bool>, b: seq<bool>)
    requires |a| == |b|
    ensures Value(a) == 0 ==> Value(Or(a, b)) == Value(b)
    ensures Value(b) == 0 ==> Value(Or(a, b)) == Value(a)
  {
    if a != [] {
      OrWithNothing(a[1..], b[1..]);
      assert Or(a, b)[1..] == Or(a[1..], b[1..]);
    }
  }

  lemma {:induction false} ValueBound(a: seq<bool>)
    ensures Value(a) < Pow2(|a|)
  {
    if a != [] {
      ValueBound(a[1..]);
    }
  }

  lemma {:induction false} Pow2Add(m: nat, n: nat)
    ensures Pow2(m + n) == Pow2(m) * Pow2(n)
  {
    if m > 0 {
      Pow2Add(m - 1, n);
      Doubled(Pow2(m - 1), Pow2(n));
    }
  }

  lemma Doubled(x: nat, y: nat)
    ensures (2 * x) * y == 2 * (x * y)
  {
  }

  lemma {:induction false} ValueConcat(a: seq<bool>, b: seq<bool>)
    ensures Value(a + b) == Value(a) + Pow2(|a|) * Value(b)
  {
    if a == [] {
      assert a + b == b;
    } else {
      ValueConcat(a[1..], b);
      MulDouble(Pow2(|a| - 1), Value(b));
      assert (a + b)[1..] == a[1..] + b && (a + b)[0] == a[0];
    }
  }

  lemma MulDouble(x: nat, y: nat)
    ensures 2 * (x * y) == (2 * x) * y
  {
  }

  lemma {:induction false} ValueZeros(n: nat)
    ensures Value(Zeros(n)) == 0
  {
    if n > 0 {
      assert Zeros(n)[1..] == Zeros(n - 1);
      ValueZeros(n - 1);
    }
  }

  lemma PaddingKeepsValue(a: seq<bool>, n: nat)
    requires |a| <= n
    ensures Value(Pad(a, n)) == Value(a)
  {
    var z := Zeros(n - |a|);
    ValueConcat(a, z);
    ValueZeros(n - |a|);
    assert Pow2(|a|) * 0 == 0;
  }

  /** A value determines the bits it came from. */
  lemma {:induction false} ValueInjective(a: seq<bool>, b: seq<bool>)
    requires |a| == |b|
    ensures Value(a) == Value(b) <==> a == b
  {
    if a != [] {
      ValueInjective(a[1..], b[1..]);
      assert a == [a[0]] + a[1..] && b == [b[0]] + b[1..];
    }
  }

  // ---------------------------------------------------------------------
  // Gathering the bits under a mask

  /** The number of set bits of `m` below position `i`. */
  function Rank(m: seq<bool>, i: nat): (r: nat)
    requires i <= |m|
    ensures r <= i
  {
    if i == 0 then 0 else Rank(m, i - 1) + (if m[i - 1] then 1 else 0)
  }

  /** number_of_set_bits() */
  function PopCount(m: seq<bool>): (r: nat)
    ensures r <= |m|
  {
    Rank(m, |m|)
  }

  /** The lowest set position at or above `i`; |m| if there is none. */
  function LowestFrom(m: seq<bool>, i: nat): (r: nat)
    requires i <= |m|
    ensures i <= r <= |m|
    ensures r < |m| ==> m[r]
    ensures forall k :: i <= k < r ==> !m[k]
    decreases |m| - i
  {
    if i == |m| || m[i] then i else LowestFrom(m, i + 1)
  }

  /** trailing_zeroes(): its lookup table answers 0 for the word without any set bit. */
  function TrailingZeroes(m: seq<bool>): (r: nat)
    ensures r <= |m|
    ensures (exists i :: 0 <= i < |m| && m[i]) ==> r < |m| && m[r] && forall k :: 0 <= k < r ==> !m[k]
    ensures (forall i :: 0 <= i < |m| ==> !m[i]) ==> r == 0
  {
    var i := LowestFrom(m, 0);
    if i == |m| then 0 else i
  }

  /** The bits of `w` at the set positions of `m` from `i` upwards, packed. */
  function PickFrom(w: seq<bool>, m: seq<bool>, i: nat): (r: seq<bool>)
    requires |w| == |m| && i <= |m|
    ensures |r| <= |m| - i
    decreases |m| - i
  {
    if i == |m| then []
    else (if m[i] then [w[i]] else []) + PickFrom(w, m, i + 1)
  }

  /** Extraction of the bits of `w` under `m`: packed from the lowest position up, then zeros. */
  function Gathered(w: Word, m: Word): Word {
    Pad(PickFrom(w, m, 0), 32)
  }

  lemma {:induction false} PickLength(w: seq<bool>, m: seq<bool>, i: nat)
    requires |w| == |m| && i <= |m|
    ensures |PickFrom(w, m, i)| == PopCount(m) - Rank(m, i)
    decreases |m| - i
  {
    if i < |m| {
      PickLength(w, m, i + 1);
    }
  }

  lemma {:induction false} PickAtRank(w: seq<bool>, m: seq<bool>, lo: nat, i: nat)
    requires |w| == |m| && lo <= i < |m| && m[i]
    ensures var r := Rank(m, i) - Rank(m, lo);
            0 <= r < |PickFrom(w, m, lo)| && PickFrom(w, m, lo)[r] == w[i]
    decreases i - lo
  {
    if lo < i {
      PickAtRank(w, m, lo + 1, i);
    }
  }

  /** Some set position of `m` has exactly `k` set positions below it. */
  ghost predicate IsRank(m: seq<bool>, k: nat) {
    exists i: nat :: i < |m| && m[i] && Rank(m, i) == k
  }

  lemma {:induction false} RankOnto(m: seq<bool>, n: nat, k: nat)
    requires n <= |m| && k < Rank(m, n)
    ensures IsRank(m, k)
  {
    if Rank(m, n - 1) == k {
      assert m[n - 1];
    } else {
      RankOnto(m, n - 1, k);
    }
  }

  /** What gathering means bit by bit: the bit at a set position of the mask lands at the rank of
      that position, every result bit below the population count comes from such a position, and
      the bits above are zero. */
  lemma GatherMeaning(w: Word, m: Word)
    ensures forall i :: 0 <= i < 32 && m[i] ==>
              Rank(m, i) < PopCount(m) && Gathered(w, m)[Rank(m, i)] == w[i]
    ensures forall k: nat :: k < PopCount(m) ==> IsRank(m, k)
    ensures forall k :: PopCount(m) <= k < 32 ==> !Gathered(w, m)[k]
  {
    PickLength(w, m, 0);
    forall i | 0 <= i < 32 && m[i]
      ensures Rank(m, i) < PopCount(m) && Gathered(w, m)[Rank(m, i)] == w[i]
    {
      PickAtRank(w, m, 0, i);
    }
    forall k: nat | k < PopCount(m) ensures IsRank(m, k) {
      RankOnto(m, 32, k);
    }
  }

  /** The gathered word is determined by that meaning. */
  lemma GatherUnique(w: Word, m: Word, r: Word)
    requires forall i :: 0 <= i < 32 && m[i] ==> r[Rank(m, i)] == w[i]
    requires forall k :: PopCount(m) <= k < 32 ==> !r[k]
    ensures r == Gathered(w, m)
  {
    GatherMeaning(w, m);
    forall k | 0 <= k < 32 ensures r[k] == Gathered(w, m)[k] {
      if k < PopCount(m) {
        assert IsRank(m, k);
      }
    }
  }

  lemma {:induction false} PickSkip(w: seq<bool>, m: seq<bool>, i: nat, j: nat)
    requires |w| == |m| && i <= j <= |m|
    requires forall k :: i <= k < j ==> !m[k]
    ensures PickFrom(w, m, i) == PickFrom(w, m, j)
    decreases j - i
  {
    if i < j {
      PickSkip(w, m, i + 1, j);
    }
  }

  /** bit_gather(): repeatedly takes the lowest bit of the mask. */
  method BitGather(w: Word, mask: Word) returns (z: Word)
    ensures z == Gathered(w, mask)
  {
    var m := mask;
    z := ZERO;
    var b := 0;                        // the destination bit
    ghost var lo, done := 0, [];       // all mask bits below lo are handled
    while m != ZERO
      invariant |m| == 32 && |z| == 32
      invariant 0 <= lo <= 32
      invariant forall k :: 0 <= k < 32 ==> m[k] == (lo <= k && mask[k])
      invariant PickFrom(w, mask, 0) == done + PickFrom(w, mask, lo)
      invariant b == |done| <= 32 && z == Pad(done, 32)
      decreases 32 - lo
    {
      var i := LowestFrom(m, 0);
      assert i == 32 ==> m == ZERO;
      PickSkip(w, mask, lo, i);
      assert PickFrom(w, mask, i) == [w[i]] + PickFrom(w, mask, i + 1);
      m := m[i := false];
      z := z[b := w[i]];
      done := done + [w[i]];
      b := b + 1;
      lo := i + 1;
    }
    PickSkip(w, mask, lo, 32) by {
      forall k | lo <= k < 32 ensures !mask[k] { assert m[k] == ZERO[k]; }
    }
  }

  /** bit_scatter(): bit k of `v` goes to the k-th set position of `m`. */
  function Scattered(v: Word, m: Word): Word {
    seq(32, i requires 0 <= i < 32 => m[i] && v[Rank(m, i)])
  }

  /** Gathering undoes scattering: every value that fits the mask comes back. */
  lemma GatherScatter(v: Word, m: Word)
    requires forall k :: PopCount(m) <= k < 32 ==> !v[k]
    ensures Gathered(Scattered(v, m), m) == v
  {
    GatherMeaning(Scattered(v, m), m);
    GatherUnique(Scattered(v, m), m, v);
  }

  /** Scattering undoes gathering up to the bits outside the mask. */
  lemma ScatterGather(w: Word, m: Word)
    ensures Scattered(Gathered(w, m), m) == And(w, m)
  {
    GatherMeaning(w, m);
  }

  // ---------------------------------------------------------------------
  // The shift-only path and the shift before gathering

  /** Two set positions with a clear one in between. */
  ghost predicate HasGap(m: seq<bool>) {
    exists j, k, l :: 0 <= j < k < l < |m| && m[j] && !m[k] && m[l]
  }

  lemma {:induction false} RankShifted(m: Word, s: nat, i: nat)
    requires s <= i <= 32
    requires forall k :: 0 <= k < s ==> !m[k]
    ensures Rank(m, s) == 0
    ensures Rank(Shr(m, s), i - s) == Rank(m, i)
  {
    if i > s {
      RankShifted(m, s, i - 1);
      assert Shr(m, s)[i - 1 - s] == m[i - 1];
    } else if s > 0 {
      RankOfClear(m, s);
    }
  }

  lemma {:induction false} RankOfClear(m: seq<bool>, n: nat)
    requires n <= |m| && forall k :: 0 <= k < n ==> !m[k]
    ensures Rank(m, n) == 0
  {
    if n > 0 {
      RankOfClear(m, n - 1);
    }
  }

  lemma {:induction false} RankConstant(m: seq<bool>, i: nat, j: nat)
    requires i <= j <= |m|
    requires forall k :: i <= k < j ==> !m[k]
    ensures Rank(m, i) == Rank(m, j)
    decreases j
  {
    if i < j {
      RankConstant(m, i, j - 1);
    }
  }

  lemma {:induction false} RankOfRun(m: seq<bool>, s: nat, i: nat)
    requires s <= i <= |m|
    requires forall k :: 0 <= k < s ==> !m[k]
    requires forall k :: s <= k < i ==> m[k]
    ensures Rank(m, i) == i - s
  {
    if s == i {
      RankOfClear(m, s);
    } else {
      RankOfRun(m, s, i - 1);
    }
  }

  /** Masking and shifting alone extract a mask without gaps. */
  lemma ShiftExtracts(w: Word, m: Word)
    requires !HasGap(m)
    ensures Shr(And(w, m), TrailingZeroes(m)) == Gathered(w, m)
  {
    var s := LowestFrom(m, 0);
    var r := Shr(And(w, m), TrailingZeroes(m));
    if s == 32 {
      RankOfClear(m, 32);
    } else {
      forall i | 0 <= i < 32 && m[i] ensures Rank(m, i) == i - s {
        forall k | s <= k < i ensures m[k] {
          if !m[k] { assert HasGap(m); }
        }
        RankOfRun(m, s, i);
      }
      forall k | PopCount(m) <= k < 32 ensures !r[k] {
        if s + k < 32 && m[s + k] {
          assert Rank(m, s + k) == k;
          GatherMeaning(w, m);
          assert false;
        }
      }
    }
    GatherUnique(w, m, r);
  }

  /** Masking, shifting and gathering the shifted word under the shifted mask. */
  lemma ShiftThenGather(w: Word, m: Word)
    ensures Gathered(Shr(And(w, m), TrailingZeroes(m)), Shr(m, TrailingZeroes(m))) == Gathered(w, m)
  {
    var s := TrailingZeroes(m);
    var x, n := Shr(And(w, m), s), Shr(m, s);
    var g := Gathered(x, n);
    GatherMeaning(x, n);
    RankShifted(m, s, 32);
    RankConstant(n, 32 - s, 32);
    forall i | 0 <= i < 32 && m[i] ensures g[Rank(m, i)] == w[i] {
      RankShifted(m, s, i);
      assert n[i - s] && x[i - s] == w[i];
    }
    GatherUnique(w, m, g);
  }
}
