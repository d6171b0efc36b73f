/** The integer writers' arithmetic: sizes, fixed-width words and word-wise big
    integers (go-ethereum/rlp/encode.go:431-495, encbuffer.go:148-190). */
module Integers {
  import opened BigEndian
  import opened Rlp

  /** k big-endian digits of n, whatever n's size. */
  function Fixed(n: nat, k: nat): (s: seq<byte>)
    ensures |s| == k
  {
    if k == 0 then [] else Fixed(n / 256, k - 1) + [n % 256]
  }

  /** Number of bits of n, as big.Int.BitLen. */
  function BitLen(n: nat): (k: nat)
  {
    if n == 0 then 0 else 1 + BitLen(n / 2)
  }

  /** A big.Int's magnitude: 64-bit words, least significant first. */
  function WordsValue(words: seq<uint64>): (n: nat)
  {
    if words == [] then 0 else words[0] + TWO_64 * WordsValue(words[1..])
  }

  /** The words of a number are its digits in base 2^64. */
  lemma {:induction false} WordAt(words: seq<uint64>, i: nat)
    requires i < |words|
    ensures words[i] == WordsValue(words) / Pow256(8 * i) % TWO_64
    decreases i
  {
    var n, rest := WordsValue(words), WordsValue(words[1..]);
    DivUnique(n, TWO_64, rest, words[0]);
    if i > 0 {
      WordAt(words[1..], i - 1);
      DivDiv(n, TWO_64, Pow256(8 * (i - 1)));
      EightMore(8 * (i - 1));
    }
  }

  lemma EightMore(k: nat)
    ensures Pow256(k + 8) == TWO_64 * Pow256(k)
  {
    assert Pow256(k + 4) == 0x1_0000_0000 * Pow256(k) by {
      assert Pow256(k + 2) == 0x1_0000 * Pow256(k);
      assert Pow256(k + 4) == 0x1_0000 * Pow256(k + 2);
    }
    assert Pow256(k + 6) == 0x1_0000 * Pow256(k + 4);
    assert Pow256(k + 8) == 0x1_0000 * Pow256(k + 6);
  }

  lemma {:induction false} FixedIsToBytes(n: nat, k: nat)
    requires |ToBytes(n)| <= k
    ensures Fixed(n, k) == Zeros(k - |ToBytes(n)|) + ToBytes(n)
    decreases k
  {
    if k > 0 {
      if n == 0 {
        FixedIsToBytes(0, k - 1);
        ZerosSnoc(k - 1);
      } else {
        FixedIsToBytes(n / 256, k - 1);
      }
    }
  }

  lemma {:induction false} ZerosSnoc(k: nat)
    ensures Zeros(k) + [0] == Zeros(k + 1)
  {
  }

  lemma {:induction false} FixedZero(k: nat)
    ensures Fixed(0, k) == Zeros(k)
  {
    FixedIsToBytes(0, k);
  }

  /** Digits split at a digit boundary. */
  lemma {:induction false} FixedConcat(hi: nat, lo: nat, m: nat, k: nat)
    requires lo < Pow256(k)
    ensures Fixed(hi * Pow256(k) + lo, m + k) == Fixed(hi, m) + Fixed(lo, k)
    decreases k
  {
    if k > 0 {
      var s := hi * Pow256(k - 1);
      MulSwap(hi, Pow256(k - 1));
      DigitShift(s, lo);
      FixedConcat(hi, lo / 256, m, k - 1);
    }
  }

  lemma MulSwap(a: nat, b: nat)
    ensures a * (256 * b) == 256 * (a * b)
  {
  }

  lemma DigitShift(s: nat, lo: nat)
    ensures (256 * s + lo) / 256 == s + lo / 256
    ensures (256 * s + lo) % 256 == lo % 256
  {
  }

  /** Rounding the bit length up to whole bytes gives the shortest byte length. */
  lemma {:induction false} ByteLength(n: nat)
    ensures (BitLen(n) + 7) / 8 == |ToBytes(n)|
  {
    if n >= 256 {
      ByteLength(n / 256);
      BitLenOctet(n);
    } else if n > 0 {
      BitLenSmall(n);
      assert ToBytes(n) == ToBytes(0) + [n];
    }
  }

  lemma BitLenOctet(n: nat)
    requires n >= 256
    ensures BitLen(n) == 8 + BitLen(n / 256)
  {
    var a := n / 2; var b := a / 2; var c := b / 2; var d := c / 2;
    var e := d / 2; var f := e / 2; var g := f / 2;
    assert BitLen(n) == 1 + BitLen(a);
    assert BitLen(a) == 1 + BitLen(b);
    assert BitLen(b) == 1 + BitLen(c);
    assert BitLen(c) == 1 + BitLen(d);
    assert BitLen(d) == 1 + BitLen(e);
    assert BitLen(e) == 1 + BitLen(f);
    assert BitLen(f) == 1 + BitLen(g);
    assert g / 2 == n / 256;
  }

  lemma {:induction false} BitLenBound(n: nat, k: nat, p: nat)
    requires n < p && p == Pow2(k)
    ensures BitLen(n) <= k
    decreases k
  {
    if n > 0 {
      BitLenBound(n / 2, k - 1, Pow2(k - 1));
    }
  }

  lemma BitLenSmall(n: nat)
    requires 0 < n < 256
    ensures 1 <= BitLen(n) <= 8
  {
    assert Pow2(8) == 256 by { assert Pow2(4) == 16; }
    BitLenBound(n, 8, 256);
  }

  /** The one-byte test and the 64-bit test of the writers, on the value. */
  lemma BitLen64(n: nat)
    ensures BitLen(n) <= 64 <==> n < TWO_64
  {
    ByteLength(n);
    EightBytes(n);
  }

  /** What putint stores: shortest big-endian digits, and one zero byte for zero. */
  function IntBytes(i: uint64): (s: seq<byte>)
  {
    if i == 0 then [0] else ToBytes(i)
  }

  lemma Snoc(n: nat)
    requires n > 0
    ensures ToBytes(n) == ToBytes(n / 256) + [n % 256]
  {
  }

  lemma Digits1(i: nat)
    requires 0 < i < 0x100
    ensures ToBytes(i) == [Truncate(i)]
  {
    Snoc(i);
  }

  lemma Digits2(i: nat)
    requires 0x100 <= i < 0x1_0000
    ensures ToBytes(i) == [Truncate(i / 0x100), Truncate(i)]
  {
    Snoc(i); Digits1(i / 256);
  }

  lemma Digits3(i: nat)
    requires 0x1_0000 <= i < 0x100_0000
    ensures ToBytes(i) == [Truncate(i / 0x1_0000), Truncate(i / 0x100), Truncate(i)]
  {
    Snoc(i); Digits2(i / 256);
    assert i / 256 / 0x100 == i / 0x1_0000;
  }

  lemma Digits4(i: nat)
    requires 0x100_0000 <= i < 0x1_0000_0000
    ensures ToBytes(i) == [Truncate(i / 0x100_0000), Truncate(i / 0x1_0000), Truncate(i / 0x100), Truncate(i)]
  {
    Snoc(i); Digits3(i / 256);
    assert i / 256 / 0x100 == i / 0x1_0000 && i / 256 / 0x1_0000 == i / 0x100_0000;
  }

  lemma Digits5(i: nat)
    requires 0x1_0000_0000 <= i < 0x100_0000_0000
    ensures ToBytes(i) == [Truncate(i / 0x1_0000_0000), Truncate(i / 0x100_0000), Truncate(i / 0x1_0000),
                           Truncate(i / 0x100), Truncate(i)]
  {
    Snoc(i); Digits4(i / 256);
    assert i / 256 / 0x100 == i / 0x1_0000 && i / 256 / 0x1_0000 == i / 0x100_0000;
    assert i / 256 / 0x100_0000 == i / 0x1_0000_0000;
  }

  lemma Digits6(i: nat)
    requires 0x100_0000_0000 <= i < 0x1_0000_0000_0000
    ensures ToBytes(i) == [Truncate(i / 0x100_0000_0000), Truncate(i / 0x1_0000_0000), Truncate(i / 0x100_0000),
                           Truncate(i / 0x1_0000), Truncate(i / 0x100), Truncate(i)]
  {
    Snoc(i); Digits5(i / 256);
    assert i / 256 / 0x100 == i / 0x1_0000 && i / 256 / 0x1_0000 == i / 0x100_0000;
    assert i / 256 / 0x100_0000 == i / 0x1_0000_0000 && i / 256 / 0x1_0000_0000 == i / 0x100_0000_0000;
  }

  lemma Digits7(i: nat)
    requires 0x1_0000_0000_0000 <= i < 0x100_0000_0000_0000
    ensures ToBytes(i) == [Truncate(i / 0x1_0000_0000_0000), Truncate(i / 0x100_0000_0000), Truncate(i / 0x1_0000_0000),
                           Truncate(i / 0x100_0000), Truncate(i / 0x1_0000), Truncate(i / 0x100), Truncate(i)]
  {
    Snoc(i); Digits6(i / 256);
    assert i / 256 / 0x100 == i / 0x1_0000 && i / 256 / 0x1_0000 == i / 0x100_0000;
    assert i / 256 / 0x100_0000 == i / 0x1_0000_0000 && i / 256 / 0x1_0000_0000 == i / 0x100_0000_0000;
    assert i / 256 / 0x100_0000_0000 == i / 0x1_0000_0000_0000;
  }

  lemma Digits8(i: nat)
    requires 0x100_0000_0000_0000 <= i < TWO_64
    ensures ToBytes(i) == [Truncate(i / 0x100_0000_0000_0000), Truncate(i / 0x1_0000_0000_0000),
                           Truncate(i / 0x100_0000_0000), Truncate(i / 0x1_0000_0000), Truncate(i / 0x100_0000),
                           Truncate(i / 0x1_0000), Truncate(i / 0x100), Truncate(i)]
  {
    Snoc(i); Digits7(i / 256);
    assert i / 256 / 0x100 == i / 0x1_0000 && i / 256 / 0x1_0000 == i / 0x100_0000;
    assert i / 256 / 0x100_0000 == i / 0x1_0000_0000 && i / 256 / 0x1_0000_0000 == i / 0x100_0000_0000;
    assert i / 256 / 0x100_0000_0000 == i / 0x1_0000_0000_0000;
    assert i / 256 / 0x1_0000_0000_0000 == i / 0x100_0000_0000_0000;
  }

  /** The shift-and-store switch shared by putint and AppendUint64. */
  function Switched(i: uint64): (s: seq<byte>)
    ensures |s| <= 8
  {
    if i < 0x100 then [Truncate(i)]
    else if i < 0x1_0000 then [Truncate(i / 0x100), Truncate(i)]
    else if i < 0x100_0000 then [Truncate(i / 0x1_0000), Truncate(i / 0x100), Truncate(i)]
    else if i < 0x1_0000_0000 then
      [Truncate(i / 0x100_0000), Truncate(i / 0x1_0000), Truncate(i / 0x100), Truncate(i)]
    else if i < 0x100_0000_0000 then
      [Truncate(i / 0x1_0000_0000), Truncate(i / 0x100_0000), Truncate(i / 0x1_0000), Truncate(i / 0x100), Truncate(i)]
    else if i < 0x1_0000_0000_0000 then
      [Truncate(i / 0x100_0000_0000), Truncate(i / 0x1_0000_0000), Truncate(i / 0x100_0000),
       Truncate(i / 0x1_0000), Truncate(i / 0x100), Truncate(i)]
    else if i < 0x100_0000_0000_0000 then
      [Truncate(i / 0x1_0000_0000_0000), Truncate(i / 0x100_0000_0000), Truncate(i / 0x1_0000_0000),
       Truncate(i / 0x100_0000), Truncate(i / 0x1_0000), Truncate(i / 0x100), Truncate(i)]
    else
      [Truncate(i / 0x100_0000_0000_0000), Truncate(i / 0x1_0000_0000_0000),
       Truncate(i / 0x100_0000_0000), Truncate(i / 0x1_0000_0000), Truncate(i / 0x100_0000),
       Truncate(i / 0x1_0000), Truncate(i / 0x100), Truncate(i)]
  }

  /** The switch stores the shortest big-endian digits. */
  lemma SwitchedIsMinimal(i: uint64)
    ensures Switched(i) == IntBytes(i)
  {
    if i == 0 {
    } else if i < 0x100 { Digits1(i);
    } else if i < 0x1_0000 { Digits2(i);
    } else if i < 0x100_0000 { Digits3(i);
    } else if i < 0x1_0000_0000 { Digits4(i);
    } else if i < 0x100_0000_0000 { Digits5(i);
    } else if i < 0x1_0000_0000_0000 { Digits6(i);
    } else if i < 0x100_0000_0000_0000 { Digits7(i);
    } else { Digits8(i); }
  }

  /** The number of bytes needed to store i, at least one. */
  method IntSize(i: uint64) returns (size: nat)
    ensures size == |IntBytes(i)|
  {
    size := 1;
    var rest: nat := i / 256;
    while rest != 0
      invariant rest > 0 ==> i > 0
      invariant size + |ToBytes(rest)| == |IntBytes(i)|
    {
      rest := rest / 256;
      size := size + 1;
    }
  }

  /** The size of a list or string header for a payload of the given size. */
  method HeadSize(size: uint64) returns (n: nat)
    ensures n == |StrHead(size)| && n == |ListHead(size)|
  {
    if size < 56 {
      return 1;
    }
    n := IntSize(size);
    n := 1 + n;
  }
}
