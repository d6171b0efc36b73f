/** Bytes, machine words and big-endian integers: the arithmetic that the RLP
    package leans on everywhere (go-ethereum/rlp/encode.go, raw.go, decode.go). */
module BigEndian {

  type byte = x: int | 0 <= x < 256
  type uint64 = x: int | 0 <= x < TWO_64

  const TWO_64: int := 0x1_0000_0000_0000_0000

  /** Go slices are indexed by a signed 64-bit int, so no slice is longer than this. */
  const MAX_LEN: int := 0x8000_0000_0000_0000

  /** Go's truncating conversion byte(n). */
  function Truncate(n: int): (b: byte) { n % 256 }

  /** The shortest big-endian string denoting n; zero is the empty string. */
  function ToBytes(n: nat): (s: seq<byte>)
  {
    if n == 0 then [] else ToBytes(n / 256) + [n % 256]
  }

  /** The integer a big-endian string denotes, leading zeros allowed. */
  function FromBytes(s: seq<byte>): (n: nat)
  {
    if s == [] then 0 else FromBytes(s[..|s| - 1]) * 256 + s[|s| - 1]
  }

  function Pow2(k: nat): (p: nat)
    ensures p > 0
  {
    if k == 0 then 1 else 2 * Pow2(k - 1)
  }

  function Pow256(k: nat): (p: nat)
    ensures p > 0
  {
    if k == 0 then 1 else 256 * Pow256(k - 1)
  }

  /** n zero bytes. */
  function Zeros(n: nat): (s: seq<byte>)
    ensures |s| == n && forall i :: 0 <= i < n ==> s[i] == 0
  {
    if n == 0 then [] else [0] + Zeros(n - 1)
  }

  lemma {:induction false} FromBytesOfToBytes(n: nat)
    ensures FromBytes(ToBytes(n)) == n
    ensures n > 0 ==> ToBytes(n) != [] && ToBytes(n)[0] != 0
  {
    if n > 0 {
      FromBytesOfToBytes(n / 256);
      assert ToBytes(n)[..|ToBytes(n)| - 1] == ToBytes(n / 256);
    }
  }

  /** A string without a leading zero is the shortest one for its value. */
  lemma {:induction false} ToBytesOfFromBytes(s: seq<byte>)
    requires s != [] ==> s[0] != 0
    ensures ToBytes(FromBytes(s)) == s
    ensures s != [] ==> FromBytes(s) > 0
  {
    if s != [] {
      var front := s[..|s| - 1];
      ToBytesOfFromBytes(front);
      assert FromBytes(s) / 256 == FromBytes(front) && FromBytes(s) % 256 == s[|s| - 1];
      assert s == front + [s[|s| - 1]];
    }
  }

  lemma {:induction false} FromBytesBound(s: seq<byte>)
    ensures FromBytes(s) < Pow256(|s|)
    ensures s != [] && s[0] != 0 ==> Pow256(|s| - 1) <= FromBytes(s)
  {
    if s != [] {
      FromBytesBound(s[..|s| - 1]);
    }
  }

  /** The length of the shortest string is decided by the size of the number. */
  lemma {:induction false} ToBytesLength(n: nat, k: nat)
    ensures |ToBytes(n)| <= k <==> n < Pow256(k)
    decreases k
  {
    if n > 0 && k > 0 {
      ToBytesLength(n / 256, k - 1);
    }
  }

  /** The digits of the shortest string are the base-256 digits of the number, most significant first. */
  lemma {:induction false} DigitAt(n: nat, i: nat)
    requires i < |ToBytes(n)|
    ensures ToBytes(n)[i] == n / Pow256(|ToBytes(n)| - 1 - i) % 256
    decreases n
  {
    var k := |ToBytes(n)| - 1 - i;
    if k > 0 {
      DigitAt(n / 256, i);
      DivDiv(n, 256, Pow256(k - 1));
    }
  }

  lemma DivDiv(n: nat, a: nat, b: nat)
    requires a > 0 && b > 0
    ensures n / a / b == n / (a * b)
  {
    var q := n / a;
    var x, y, r := q / b, q % b, n % a;
    TwoDigits(n, a, b, x, y, r);
    DivUnique(n, a * b, x, y * a + r);
  }

  lemma TwoDigits(n: nat, a: nat, b: nat, x: nat, y: nat, r: nat)
    requires n == (x * b + y) * a + r && y < b && r < a
    ensures n == x * (a * b) + (y * a + r) && 0 <= y * a + r < a * b
  {
    assert (y + 1) * a <= b * a;
  }

  lemma DivUnique(n: nat, d: nat, x: nat, r: nat)
    requires d > 0 && n == x * d + r && r < d
    ensures n / d == x && n % d == r
  {
    SameQuotient(d, x, r, n / d, n % d);
  }

  lemma SameQuotient(d: nat, x: nat, r: nat, y: nat, s: nat)
    requires x * d + r == y * d + s && r < d && s < d
    ensures x == y
  {
    NextMultiple(x, y, d);
    NextMultiple(y, x, d);
  }

  lemma {:induction false} NextMultiple(x: nat, y: nat, d: nat)
    ensures x < y ==> x * d + d <= y * d
    decreases y
  {
    if x < y {
      assert y * d == (y - 1) * d + d;
      NextMultiple(x, y - 1, d);
    }
  }

  lemma {:induction false} Pow256Monotone(i: nat, j: nat)
    requires i <= j
    ensures Pow256(i) <= Pow256(j)
    decreases j
  {
    if i < j {
      Pow256Monotone(i, j - 1);
    }
  }

  lemma Pow256Values()
    ensures Pow256(0) == 1 && Pow256(1) == 0x100 && Pow256(2) == 0x1_0000 && Pow256(3) == 0x100_0000
    ensures Pow256(4) == 0x1_0000_0000 && Pow256(5) == 0x100_0000_0000
    ensures Pow256(6) == 0x1_0000_0000_0000 && Pow256(7) == 0x100_0000_0000_0000
    ensures Pow256(8) == TWO_64
  {
    assert Pow256(4) == 256 * Pow256(3);
    assert Pow256(6) == 256 * Pow256(5);
  }

  /** Only 64-bit numbers fit in eight bytes. */
  lemma EightBytes(n: nat)
    ensures |ToBytes(n)| <= 8 <==> n < TWO_64
  {
    ToBytesLength(n, 8);
    Pow256Values();
  }

  /** A size of 56 or more needs between one and eight length bytes. */
  lemma LengthOfLength(n: nat)
    requires 0 < n < TWO_64
    ensures 1 <= |ToBytes(n)| <= 8
  {
    EightBytes(n);
  }

  lemma {:induction false} FromBytesConcat(a: seq<byte>, b: seq<byte>)
    ensures FromBytes(a + b) == FromBytes(a) * Pow256(|b|) + FromBytes(b)
  {
    if b == [] {
      assert a + b == a;
    } else {
      var front := b[..|b| - 1];
      FromBytesConcat(a, front);
      assert (a + b)[..|a + b| - 1] == a + front;
      calc {
        FromBytes(a + b);
        (FromBytes(a) * Pow256(|front|) + FromBytes(front)) * 256 + b[|b| - 1];
        FromBytes(a) * Pow256(|front|) * 256 + FromBytes(b);
        FromBytes(a) * (256 * Pow256(|front|)) + FromBytes(b);
      }
    }
  }

  lemma {:induction false} FromBytesZeros(k: nat)
    ensures FromBytes(Zeros(k)) == 0
  {
    if k > 0 {
      FromBytesZeros(k - 1);
      FromBytesConcat([0], Zeros(k - 1));
      assert FromBytes([0]) == FromBytes([]) * 256 + 0;
    }
  }

  /** Leading zeros do not change the value (the zero-padded buffer of Stream.readUint). */
  lemma FromBytesPadded(k: nat, s: seq<byte>)
    ensures FromBytes(Zeros(k) + s) == FromBytes(s)
  {
    FromBytesConcat(Zeros(k), s);
    FromBytesZeros(k);
  }
}
