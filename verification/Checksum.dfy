/** The checksum of the Panel-Link and Status-Link tags against the Internet checksum of RFC 1071. */
module Checksum {
  type Byte = x: int | 0 <= x < 256

  // ---- The reference -------------------------------------------------------------------------------

  function Word(data: seq<Byte>, i: nat): nat
    requires 2 * i + 1 < |data|
  {
    data[2 * i] as int + 256 * data[2 * i + 1] as int
  }

  /** The sum of the first n words, not reduced. */
  function WordSum(data: seq<Byte>, n: nat): nat
    requires 2 * n <= |data|
  {
    if n == 0 then 0 else WordSum(data, n - 1) + Word(data, n - 1)
  }

  /** One's-complement addition of 16-bit words: a carry out of the top is added at the bottom. */
  function OnesAdd(a: nat, b: nat): nat {
    if a + b < 0x1_0000 then a + b else a + b - 0xffff
  }

  /** The one's-complement sum of section 1 of RFC 1071. */
  function OnesSum(data: seq<Byte>, n: nat): nat
    requires 2 * n <= |data|
  {
    if n == 0 then 0 else OnesAdd(OnesSum(data, n - 1), Word(data, n - 1))
  }

  /** The representative of x modulo 0xffff that one's-complement addition reaches: 0 only for 0. */
  function Canon(x: nat): nat { if x == 0 then 0 else (x - 1) % 0xffff + 1 }

  lemma CanonAdd(x: nat, w: nat)
    requires w < 0x1_0000
    ensures OnesAdd(Canon(x), w) == Canon(x + w)
  {
    if x > 0 {
      var c := (x - 1) % 0xffff;
      assert x - 1 == 0xffff * ((x - 1) / 0xffff) + c;
      if c + w >= 0xffff && c + w < 2 * 0xffff {
        assert (x + w - 1) % 0xffff == (c + w - 0xffff) % 0xffff;
      }
    }
  }

  /** Deferring the carries (section 2 of RFC 1071) is sound: the sum decides the one's-complement sum. */
  lemma {:induction false} OnesSumIsCanon(data: seq<Byte>, n: nat)
    requires 2 * n <= |data|
    ensures OnesSum(data, n) == Canon(WordSum(data, n)) <= 0xffff
  {
    if n > 0 {
      OnesSumIsCanon(data, n - 1);
      CanonAdd(WordSum(data, n - 1), Word(data, n - 1));
    }
  }

  /** In particular the two are congruent modulo 0xffff. */
  lemma SumCongruent(data: seq<Byte>, n: nat)
    requires 2 * n <= |data|
    ensures OnesSum(data, n) % 0xffff == WordSum(data, n) % 0xffff
  {
    OnesSumIsCanon(data, n);
    CanonCongruent(WordSum(data, n));
  }

  lemma CanonCongruent(x: nat)
    ensures Canon(x) % 0xffff == x % 0xffff
  {}

  lemma {:induction false} WordSumBound(data: seq<Byte>, n: nat)
    requires 2 * n <= |data|
    ensures WordSum(data, n) <= n * 0xffff
  {
    if n > 0 {
      WordSumBound(data, n - 1);
    }
  }

  // ---- The code ------------------------------------------------------------------------------------

  /** One fold: the high part of an unsigned long is added to its low 16 bits. */
  function Fold(x: nat): nat { x / 0x1_0000 + x % 0x1_0000 }

  /** What both folds and the truncation to 16 bits leave of a sum. */
  function TwiceFolded(sum: nat): nat {
    var once := Fold(sum);
    (once + once / 0x1_0000) % 0x1_0000
  }

  lemma AddModulo(a: nat, b: nat, m: nat)
    requires 0 < m
    ensures (a % m + b) % m == (a + b) % m
  {
    var q := a / m;
    assert a + b == m * q + (a % m + b);
    DropMultiple(m, q, a % m + b);
  }

  lemma DropMultiple(m: nat, q: nat, r: nat)
    requires 0 < m
    ensures (m * q + r) % m == r % m
  {
    assert m * q + r == m * (q + r / m) + r % m;
    DivModUnique(m, q + r / m, r % m);
  }

  lemma DivModUnique(m: nat, q: nat, r: nat)
    requires r < m
    ensures (m * q + r) % m == r
  {
    var x := m * q + r;
    var d: int := (x / m) as int - q as int;
    assert m * d == r as int - (x % m) as int;
    MulGrows(m, d);
  }

  lemma MulGrows(m: nat, d: int)
    ensures 1 <= d ==> m <= m * d
    ensures d <= -1 ==> m * d <= -(m as int)
  {
    if 1 <= d {
      assert 0 <= m * (d - 1);
    } else if d <= -1 {
      assert 0 <= m as int * (-1 - d);
    }
  }

  lemma SmallMod(x: nat, m: nat)
    requires x < m
    ensures x % m == x
  {}

  /** How many values an unsigned long has. */
  predicate UnsignedLong(modulus: nat) {
    modulus == 0x1_0000_0000 || modulus == 0x1_0000_0000_0000_0000
  }

  /** Checksum16 for an unsigned long of `modulus` values; an odd last byte is not read. */
  method Checksum16(data: seq<Byte>, modulus: nat) returns (sum16: nat)
    requires UnsignedLong(modulus)
    ensures sum16 == 0xffff - TwiceFolded(WordSum(data, |data| / 2) % modulus)
  {
    var sum := 0;
    var i := 0;
    while i < |data| / 2
      invariant 0 <= i <= |data| / 2
      invariant sum == WordSum(data, i) % modulus
    {
      var word: nat := data[2 * i] as int + 256 * data[2 * i + 1] as int;
      AddModulo(WordSum(data, i), word, modulus);
      sum := (sum + word) % modulus;
      i := i + 1;
    }
    sum := sum / 0x1_0000 + sum % 0x1_0000;
    sum := sum + sum / 0x1_0000;
    sum16 := 0xffff - sum % 0x1_0000;
  }

  /** A fold keeps the value modulo 0xffff, and does not turn a positive sum into zero. */
  lemma FoldKeepsCanon(x: nat)
    ensures Canon(Fold(x)) == Canon(x)
  {
    var hi := x / 0x1_0000;
    if hi > 0 {
      var c := (Fold(x) - 1) % 0xffff;
      assert Fold(x) - 1 == 0xffff * ((Fold(x) - 1) / 0xffff) + c;
      assert x - 1 == 0xffff * ((Fold(x) - 1) / 0xffff + hi) + c;
    }
  }

  /** Up to 2^48 two folds are enough exactly if nothing is left to carry after them. */
  lemma TwoFoldsExact(sum: nat)
    requires sum < 0x1_0000_0000_0000
    ensures TwiceFolded(sum) == Canon(sum) <==> Fold(Fold(sum)) <= 0xffff
  {
    FoldKeepsCanon(sum);
    FoldKeepsCanon(Fold(sum));
    SecondFoldExact(Fold(sum));
  }

  /** The second fold of the code drops what a third one would still have to add. */
  lemma SecondFoldExact(once: nat)
    requires once <= 0x1_0000_ffff
    ensures (once + once / 0x1_0000) % 0x1_0000 == Canon(Fold(once)) <==> Fold(once) <= 0xffff
  {
    var hi, lo := once / 0x1_0000, once % 0x1_0000;
    assert once + hi == 0x1_0000 * hi + (lo + hi);
    if lo + hi < 0x1_0000 {
      assert (once + hi) / 0x1_0000 == hi;
    } else {
      assert (once + hi) / 0x1_0000 == hi + 1;
    }
  }

  /** The first sum for which a third fold would be needed. */
  lemma TwoFoldsEnough(sum: nat)
    requires sum < 0x1_0000_ffff
    ensures TwiceFolded(sum) == Canon(sum)
  {
    TwoFoldsExact(sum);
  }

  lemma TwoFoldsNotEnough()
    ensures TwiceFolded(0x1_0000_ffff) == 0 && Canon(0x1_0000_ffff) == 1
  {}

  /** With a 64-bit unsigned long the code computes RFC 1071 for every buffer of up to 65,538 words. */
  lemma Correct64(data: seq<Byte>)
    requires |data| / 2 <= 65538
    ensures TwiceFolded(WordSum(data, |data| / 2) % 0x1_0000_0000_0000_0000) == OnesSum(data, |data| / 2)
  {
    var sum := WordSum(data, |data| / 2);
    WordSumBound(data, |data| / 2);
    OnesSumIsCanon(data, |data| / 2);
    assert sum <= 65538 * 0xffff;
    TwoFoldsEnough(sum);
    SmallMod(sum, 0x1_0000_0000_0000_0000);
  }

  /** With a 32-bit one it does so for a buffer of any length exactly if the sum has not lost a carry. */
  lemma Correct32(data: seq<Byte>)
    ensures var n := |data| / 2;
            var sum := WordSum(data, n);
            var low, lost := sum % 0x1_0000_0000, sum / 0x1_0000_0000;
            TwiceFolded(low) == OnesSum(data, n) <==> lost == 0 || (lost % 0xffff == 0 && low > 0)
  {
    var n := |data| / 2;
    var sum := WordSum(data, n);
    OnesSumIsCanon(data, n);
    TwoFoldsEnough(sum % 0x1_0000_0000);
    LostCarries(sum % 0x1_0000_0000, sum / 0x1_0000_0000);
  }

  /** 2^32 is 1 modulo 0xffff, so each lost carry of weight 2^32 shifts the result by one. */
  lemma LostCarries(low: nat, lost: nat)
    ensures Canon(low) == Canon(low + 0x1_0000_0000 * lost) <==> lost == 0 || (lost % 0xffff == 0 && low > 0)
  {
    if low == 0 {
    } else {
      var c := (low - 1) % 0xffff;
      var x := low - 1 + 0x1_0000_0000 * lost;
      assert 0x1_0000_0000 == 0xffff * 0x1_0001 + 1;
      assert x == 0xffff * ((low - 1) / 0xffff + 0x1_0001 * lost) + c + lost;
      SameRest((low - 1) / 0xffff + 0x1_0001 * lost, c + lost);
      RestMoves(c, lost);
    }
  }

  lemma SameRest(k: nat, r: nat)
    ensures (0xffff * k + r) % 0xffff == r % 0xffff
  {}

  lemma RestMoves(c: nat, lost: nat)
    requires c < 0xffff
    ensures (c + lost) % 0xffff == c <==> lost % 0xffff == 0
  {}

  /** In particular every buffer of up to 65,537 words is right on both. */
  lemma CorrectOnBoth(data: seq<Byte>, modulus: nat)
    requires |data| / 2 <= 65537 && UnsignedLong(modulus)
    ensures TwiceFolded(WordSum(data, |data| / 2) % modulus) == OnesSum(data, |data| / 2)
  {
    if modulus == 0x1_0000_0000 {
      WordSumBound(data, |data| / 2);
      Correct32(data);
    } else {
      Correct64(data);
    }
  }

  function Ones(n: nat): (data: seq<Byte>)
    ensures |data| == 2 * n
  {
    if n == 0 then [] else Ones(n - 1) + [255, 255]
  }

  lemma {:induction false} OnesWordSum(n: nat, tail: seq<Byte>, k: nat)
    requires k <= n
    ensures WordSum(Ones(n) + tail, k) == k * 0xffff
    decreases k
  {
    if k > 0 {
      OnesWordSum(n, tail, k - 1);
      OnesAt(n, 2 * k - 2);
      OnesAt(n, 2 * k - 1);
    }
  }

  lemma {:induction false} OnesAt(n: nat, i: nat)
    requires i < 2 * n
    ensures Ones(n)[i] == 255
  {
    if i < 2 * (n - 1) {
      OnesAt(n - 1, i);
    }
  }

  /** 65,538 words of 0xffff make the 32-bit sum wrap. */
  lemma LimitIsSharp32(n: nat)
    requires n == 65538
    ensures TwiceFolded(WordSum(Ones(n), |Ones(n)| / 2) % 0x1_0000_0000) != OnesSum(Ones(n), |Ones(n)| / 2)
  {
    var data := Ones(n);
    assert data + [] == data;
    OnesWordSum(n, [], n);
    Correct32(data);
  }

  /** One more word of 1 makes the 64-bit sum need a third fold. */
  lemma LimitIsSharp64(n: nat)
    requires n == 65538
    ensures var data := Ones(n) + [1, 0];
            TwiceFolded(WordSum(data, n + 1) % 0x1_0000_0000_0000_0000) != OnesSum(data, n + 1)
  {
    var data := Ones(n) + [1, 0];
    assert WordSum(data, n + 1) == 0x1_0000_ffff by {
      OnesWordSum(n, [1, 0], n);
      assert data[2 * n] == 1 && data[2 * n + 1] == 0;
      assert WordSum(data, n + 1) == WordSum(data, n) + Word(data, n);
    }
    OnesSumIsCanon(data, n + 1);
    ThirdFoldMissing(WordSum(data, n + 1));
  }

  lemma ThirdFoldMissing(sum: nat)
    requires sum == 0x1_0000_ffff
    ensures TwiceFolded(sum % 0x1_0000_0000_0000_0000) != Canon(sum)
  {
    SmallMod(sum, 0x1_0000_0000_0000_0000);
    TwoFoldsNotEnough();
  }

  // ---- Buffers that carry their own checksum ---------------------------------------------------------

  lemma {:induction false} WordSumPrefix(a: seq<Byte>, b: seq<Byte>, n: nat)
    requires 2 * n <= |a| && 2 * n <= |b| && forall i :: 0 <= i < 2 * n ==> a[i] == b[i]
    ensures WordSum(a, n) == WordSum(b, n) && OnesSum(a, n) == OnesSum(b, n)
  {
    if n > 0 {
      WordSumPrefix(a, b, n - 1);
    }
  }

  lemma {:induction false} WordSumChange(a: seq<Byte>, b: seq<Byte>, n: nat, k: nat)
    requires |a| == |b| && 2 * n <= |a| && k < n
    requires forall i :: 0 <= i < |a| && i / 2 != k ==> a[i] == b[i]
    ensures WordSum(a, n) + Word(b, k) == WordSum(b, n) + Word(a, k)
  {
    if k == n - 1 {
      WordSumPrefix(a, b, n - 1);
    } else {
      WordSumChange(a, b, n - 1, k);
    }
  }

  /** The receiver's test: the words, checksum included, add up to 0xffff. */
  predicate Checks(data: seq<Byte>) {
    |data| % 2 == 0 && OnesSum(data, |data| / 2) == 0xffff
  }

  /** Corrupting one word goes unnoticed exactly if it exchanges the two zeros of one's complement. */
  lemma SingleWordError(a: seq<Byte>, b: seq<Byte>, k: nat)
    requires Checks(a) && |a| == |b| && k < |a| / 2
    requires forall i :: 0 <= i < |a| && i / 2 != k ==> a[i] == b[i]
    requires Word(a, k) < WordSum(a, |a| / 2)
    ensures Checks(b) <==> Word(a, k) == Word(b, k) || {Word(a, k), Word(b, k)} == {0, 0xffff}
  {
    var n := |a| / 2;
    OnesSumIsCanon(a, n);
    OnesSumIsCanon(b, n);
    WordSumChange(a, b, n, k);
    CanonDiffers(WordSum(a, n) - Word(a, k), Word(a, k), Word(b, k));
  }

  lemma CanonDiffers(rest: nat, v: nat, w: nat)
    requires 0 < rest && v < 0x1_0000 && w < 0x1_0000
    ensures Canon(rest + v) == Canon(rest + w) <==> v == w || {v, w} == {0, 0xffff}
  {
    CanonAdd(rest, v);
    CanonAdd(rest, w);
    assert {v, w} == {0, 0xffff} <==> (v == 0 && w == 0xffff) || (v == 0xffff && w == 0) by {
      assert v in {v, w} && w in {v, w};
      assert 0 in {0, 0xffff} && 0xffff in {0, 0xffff};
    }
  }
}
