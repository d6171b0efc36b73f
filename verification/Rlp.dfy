/** The encoding itself, as Appendix B of the Ethereum Yellow Paper defines it: a
    recursive function on trees of byte strings. Every encoder and decoder of the
    package is measured against this function. */
module Rlp {
  import opened BigEndian

  /** What an empty interface decodes to: a byte string or a list of such values. */
  datatype Tree = Str(bytes: seq<byte>) | List(items: seq<Tree>)

  /** A list or string header for a payload of the given size. */
  function Head(small: byte, large: byte, size: nat): (h: seq<byte>)
    ensures |h| >= 1
  {
    if size < 56 then [Truncate(small + size)]
    else [Truncate(large + |ToBytes(size)|)] + ToBytes(size)
  }

  function StrHead(size: nat): (h: seq<byte>) { Head(0x80, 0xB7, size) }
  function ListHead(size: nat): (h: seq<byte>) { Head(0xC0, 0xF7, size) }

  function EncStr(b: seq<byte>): (e: seq<byte>)
  {
    if |b| == 1 && b[0] < 0x80 then b else StrHead(|b|) + b
  }

  function Enc(t: Tree): (e: seq<byte>)
    ensures |e| >= 1
  {
    match t
    case Str(b) => EncStr(b)
    case List(ts) => ListHead(|EncAll(ts)|) + EncAll(ts)
  }

  function EncAll(ts: seq<Tree>): (e: seq<byte>)
  {
    if ts == [] then [] else Enc(ts[0]) + EncAll(ts[1..])
  }

  /** The encoding of an integer: its shortest big-endian string. */
  function EncInt(n: nat): (e: seq<byte>) { EncStr(ToBytes(n)) }

  // ---- headers are readable back -------------------------------------------------

  lemma TruncateSmall(n: int)
    requires 0 <= n < 256
    ensures Truncate(n) == n
  {
  }

  /** The first byte of a header tells strings from lists and short from long. */
  lemma HeadFirst(size: nat)
    requires size < TWO_64
    ensures size < 56 ==> StrHead(size) == [0x80 + size] && ListHead(size) == [0xC0 + size]
    ensures size >= 56 ==>
              && 1 <= |ToBytes(size)| <= 8
              && StrHead(size) == [0xB7 + |ToBytes(size)|] + ToBytes(size)
              && ListHead(size) == [0xF7 + |ToBytes(size)|] + ToBytes(size)
              && ToBytes(size)[0] != 0 && FromBytes(ToBytes(size)) == size
  {
    if size >= 56 {
      LengthOfLength(size);
      FromBytesOfToBytes(size);
      TruncateSmall(0xB7 + |ToBytes(size)|);
      TruncateSmall(0xF7 + |ToBytes(size)|);
    }
  }

  /** One header in front of anything determines the size and what follows. */
  lemma HeadUnique(small: byte, large: byte, n: nat, m: nat, x: seq<byte>, y: seq<byte>)
    requires (small, large) == (0x80, 0xB7) || (small, large) == (0xC0, 0xF7)
    requires n < TWO_64 && m < TWO_64
    requires Head(small, large, n) + x == Head(small, large, m) + y
    ensures n == m && x == y
  {
    HeadFirst(n);
    HeadFirst(m);
    var h, g := Head(small, large, n), Head(small, large, m);
    assert (h + x)[0] == h[0] && (g + y)[0] == g[0];
    assert |h| == |g|;
    assert h == (h + x)[..|h|] && g == (g + y)[..|g|];
    assert x == (h + x)[|h|..] && y == (g + y)[|g|..];
    if n >= 56 {
      assert h[1..] == ToBytes(n) && g[1..] == ToBytes(m);
    }
  }

  /** The first byte of a value: below 0x80 a byte, below 0xC0 a string, otherwise a list. */
  lemma EncFirst(t: Tree)
    requires |Enc(t)| < TWO_64
    ensures t.List? <==> Enc(t)[0] >= 0xC0
    ensures Enc(t)[0] < 0x80 <==> t.Str? && |t.bytes| == 1 && t.bytes[0] < 0x80
  {
    match t
    case Str(b) => HeadFirst(|b|);
    case List(ts) => HeadFirst(|EncAll(ts)|);
  }

  // ---- the code is prefix free -----------------------------------------------------

  /** No encoding is a proper prefix of another: a value read off the front of some
      input is the only value that can be read there, and its end is determined. */
  lemma {:induction false} EncPrefixFree(t: Tree, u: Tree, x: seq<byte>, y: seq<byte>)
    requires Enc(t) + x == Enc(u) + y
    requires |Enc(t) + x| < TWO_64
    ensures t == u && x == y
    decreases t
  {
    EncFirst(t);
    EncFirst(u);
    assert (Enc(t) + x)[0] == Enc(t)[0] && (Enc(u) + y)[0] == Enc(u)[0];
    match t
    case Str(b) =>
      StrPrefixFree(b, u.bytes, x, y);
    case List(ts) =>
      var p, q := EncAll(ts), EncAll(u.items);
      assert Enc(t) + x == ListHead(|p|) + (p + x);
      assert Enc(u) + y == ListHead(|q|) + (q + y);
      HeadUnique(0xC0, 0xF7, |p|, |q|, p + x, q + y);
      assert p == (p + x)[..|p|] && q == (q + y)[..|q|];
      assert x == (p + x)[|p|..] && y == (q + y)[|q|..];
      EncAllInjective(ts, u.items);
  }

  lemma StrPrefixFree(b: seq<byte>, c: seq<byte>, x: seq<byte>, y: seq<byte>)
    requires EncStr(b) + x == EncStr(c) + y
    requires |EncStr(b) + x| < TWO_64
    ensures b == c && x == y
  {
    HeadFirst(|b|);
    HeadFirst(|c|);
    assert (EncStr(b) + x)[0] == EncStr(b)[0] && (EncStr(c) + y)[0] == EncStr(c)[0];
    if |b| == 1 && b[0] < 0x80 {
      assert b == (b + x)[..1] && c == (c + y)[..1];
      assert x == (b + x)[1..] && y == (c + y)[1..];
    } else {
      LongPrefixFree(b, c, x, y);
    }
  }

  lemma LongPrefixFree(b: seq<byte>, c: seq<byte>, x: seq<byte>, y: seq<byte>)
    requires StrHead(|b|) + b + x == StrHead(|c|) + c + y
    requires |b| < TWO_64 && |c| < TWO_64
    ensures b == c && x == y
  {
    assert StrHead(|b|) + b + x == StrHead(|b|) + (b + x);
    assert StrHead(|c|) + c + y == StrHead(|c|) + (c + y);
    HeadUnique(0x80, 0xB7, |b|, |c|, b + x, c + y);
    assert b == (b + x)[..|b|] && c == (c + y)[..|c|];
    assert x == (b + x)[|b|..] && y == (c + y)[|c|..];
  }

  lemma {:induction false} EncAllInjective(ts: seq<Tree>, us: seq<Tree>)
    requires EncAll(ts) == EncAll(us)
    requires |EncAll(ts)| < TWO_64
    ensures ts == us
    decreases ts
  {
    if ts != [] && us != [] {
      EncPrefixFree(ts[0], us[0], EncAll(ts[1..]), EncAll(us[1..]));
      EncAllInjective(ts[1..], us[1..]);
      assert ts == [ts[0]] + ts[1..] && us == [us[0]] + us[1..];
    }
  }

  /** Every value has exactly one encoding, and every byte string encodes at most one. */
  lemma EncInjective(t: Tree, u: Tree)
    requires |Enc(t)| < TWO_64
    ensures Enc(t) == Enc(u) <==> t == u
  {
    if Enc(t) == Enc(u) {
      assert Enc(t) + [] == Enc(u) + [];
      EncPrefixFree(t, u, [], []);
    }
  }

  lemma {:induction false} EncAllConcat(ts: seq<Tree>, us: seq<Tree>)
    ensures EncAll(ts + us) == EncAll(ts) + EncAll(us)
    decreases |ts|
  {
    if ts == [] {
      assert ts + us == us;
    } else {
      assert (ts + us)[1..] == ts[1..] + us;
      EncAllConcat(ts[1..], us);
    }
  }

  lemma EncAllSingle(t: Tree)
    ensures EncAll([t]) == Enc(t)
  {
    assert EncAll([t]) == Enc(t) + EncAll([t][1..]);
  }

  /** Reading one list element at a time: the payload up to item i, then item i. */
  lemma EncAllStep(ts: seq<Tree>, i: nat)
    requires i < |ts|
    ensures EncAll(ts[..i + 1]) == EncAll(ts[..i]) + Enc(ts[i])
    ensures EncAll(ts) == EncAll(ts[..i]) + Enc(ts[i]) + EncAll(ts[i + 1..])
  {
    assert ts[..i + 1] == ts[..i] + [ts[i]];
    EncAllConcat(ts[..i], [ts[i]]);
    EncAllSingle(ts[i]);
    assert ts == ts[..i + 1] + ts[i + 1..];
    EncAllConcat(ts[..i + 1], ts[i + 1..]);
  }

  /** e is what s has between the cuts i and i + 1. */
  ghost predicate Between(s: seq<byte>, at: seq<nat>, i: nat, e: seq<byte>)
  {
    i + 1 < |at| && at[i] <= at[i + 1] <= |s| && s[at[i]..at[i + 1]] == e
  }

  /** The payload of a list holds the encodings of its items, one after another. */
  lemma EncAllCuts(ts: seq<Tree>) returns (at: seq<nat>)
    ensures |at| == |ts| + 1 && at[0] == 0 && at[|ts|] == |EncAll(ts)|
    ensures forall i :: 0 <= i < |ts| ==> Between(EncAll(ts), at, i, Enc(ts[i]))
  {
    at := seq(|ts| + 1, i requires 0 <= i <= |ts| => |EncAll(ts[..i])|);
    assert ts[..0] == [] && ts[..|ts|] == ts;
    forall i | 0 <= i < |ts| ensures Between(EncAll(ts), at, i, Enc(ts[i])) {
      EncAllStep(ts, i);
      var a, b := EncAll(ts[..i]), EncAll(ts[i + 1..]);
      assert (a + Enc(ts[i]) + b)[|a|..|a| + |Enc(ts[i])|] == Enc(ts[i]);
    }
  }
}
