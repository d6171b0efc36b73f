/** The encoder (go-ethereum/rlp/encbuffer.go, encode.go): string data goes to one flat
    buffer, list headers to a side list whose sizes are patched when a list ends, and
    the two are merged only when the output is produced. */
module Encoder {
  import opened BigEndian
  import opened Rlp
  import opened Integers

  /** A deferred list header: where it goes in the string data and its payload size. */
  datatype Header = Header(offset: nat, size: nat)

  /** Four words, least significant first. */
  type Words4 = z: seq<uint64> | |z| == 4 witness [0, 0, 0, 0]

  /** The values the writers accept. Slices and structs both become lists. A raw value is bytes that
      are the encoding of a tree already. A nil pointer is an empty string or an empty list. */
  datatype Value =
    | Bytes(b: seq<byte>)
    | Bool(v: bool)
    | Uint(n: uint64)
    | Big(words: seq<uint64>)
    | Uint256(z: Words4)
    | RawValue(t: Tree)
    | Nil(list: bool)
    | Slice(elems: seq<Value>)
    | Struct(fields: seq<Value>)

  /** The tree a value stands for. */
  function Meaning(v: Value): (t: Tree)
  {
    match v
    case Bytes(b) => Str(b)
    case Bool(v) => Str(ToBytes(if v then 1 else 0))
    case Uint(n) => Str(ToBytes(n))
    case Big(ws) => Str(ToBytes(WordsValue(ws)))
    case Uint256(z) => Str(ToBytes(WordsValue(z)))
    case RawValue(t) => t
    case Nil(list) => if list then List([]) else Str([])
    case Slice(es) => List(Meanings(es))
    case Struct(fs) => List(Meanings(fs))
  }

  function Meanings(vs: seq<Value>): (ts: seq<Tree>)
    ensures |ts| == |vs| && forall i :: 0 <= i < |vs| ==> ts[i] == Meaning(vs[i])
  {
    if vs == [] then [] else [Meaning(vs[0])] + Meanings(vs[1..])
  }

  /** What is written for a value that is no list. */
  lemma WrittenByKind(v: Value, out: seq<byte>)
    requires out == Enc(Meaning(v))
    ensures v.Bytes? ==> out == if |v.b| == 1 && v.b[0] < 0x80 then v.b else StrHead(|v.b|) + v.b
    ensures v.Bool? ==> out == [if v.v then 0x01 else 0x80]
    ensures v.Uint? ==> out == EncStr(ToBytes(v.n))
    ensures v.Big? ==> out == EncStr(ToBytes(WordsValue(v.words)))
    ensures v.Uint256? ==> out == EncStr(ToBytes(v.z[0] + TWO_64 * (v.z[1] + TWO_64 * (v.z[2] + TWO_64 * v.z[3]))))
    ensures v.RawValue? ==> out == Enc(v.t)
    ensures v.Nil? ==> out == [if v.list then 0xC0 else 0x80]
  {
    match v
    case Bool(b) => BoolDigits(b);
    case Uint256(z) => WordsFour(z);
    case _ =>
  }

  lemma BoolDigits(b: bool)
    ensures EncStr(ToBytes(if b then 1 else 0)) == [if b then 0x01 else 0x80]
  {
    assert ToBytes(1) == ToBytes(0) + [1] == [1];
  }

  lemma WordsFour(z: Words4)
    ensures WordsValue(z) == z[0] + TWO_64 * (z[1] + TWO_64 * (z[2] + TWO_64 * z[3]))
  {
    var a, b, c := z[1..], z[2..], z[3..];
    assert a[1..] == b && b[1..] == c && c[1..] == [];
    assert WordsValue(c) == z[3] && WordsValue(b) == z[2] + TWO_64 * WordsValue(c);
    assert WordsValue(a) == z[1] + TWO_64 * WordsValue(b);
  }

  /** What is written for a list, whether slice or struct: a header, and then what is written for its
      elements, in order. */
  lemma ListWritten(v: Value, vs: seq<Value>, out: seq<byte>) returns (at: seq<nat>)
    requires out == Enc(Meaning(v)) && (v == Slice(vs) || v == Struct(vs))
    ensures |at| == |vs| + 1 && at[0] <= at[|vs|] == |out| && out[..at[0]] == ListHead(|out| - at[0])
    ensures forall i :: 0 <= i < |vs| ==> Between(out, at, i, Enc(Meaning(vs[i])))
  {
    var ts := Meanings(vs);
    var cuts := EncAllCuts(ts);
    at := Behind(ListHead(|EncAll(ts)|), EncAll(ts), cuts, out);
    forall i | 0 <= i < |vs| ensures Between(out, at, i, Enc(Meaning(vs[i]))) {
      PieceBehind(ListHead(|EncAll(ts)|), EncAll(ts), cuts, at, i, Enc(ts[i]));
    }
  }

  /** The cuts of a list, and nothing for other values. */
  lemma CutsOf(v: Value, out: seq<byte>) returns (at: seq<nat>)
    requires out == Enc(Meaning(v))
    ensures v.Slice? || v.Struct? ==>
              var vs := if v.Slice? then v.elems else v.fields;
              && |at| == |vs| + 1 && at[0] <= at[|vs|] == |out| && out[..at[0]] == ListHead(|out| - at[0])
              && forall i :: 0 <= i < |vs| ==> Between(out, at, i, Enc(Meaning(vs[i])))
  {
    at := [];
    if v.Slice? {
      at := ListWritten(v, v.elems, out);
    } else if v.Struct? {
      at := ListWritten(v, v.fields, out);
    }
  }

  /** The same cuts with something in front. */
  lemma Behind(h: seq<byte>, p: seq<byte>, cuts: seq<nat>, out: seq<byte>) returns (at: seq<nat>)
    requires out == h + p && cuts != [] && cuts[0] == 0 && cuts[|cuts| - 1] == |p|
    ensures |at| == |cuts| && at[0] == |h| && at[|at| - 1] == |out| && out[..|h|] == h
    ensures forall i :: 0 <= i < |cuts| ==> at[i] == |h| + cuts[i]
  {
    at := seq(|cuts|, i requires 0 <= i < |cuts| => |h| + cuts[i]);
  }

  lemma PieceBehind(h: seq<byte>, p: seq<byte>, cuts: seq<nat>, at: seq<nat>, i: nat, e: seq<byte>)
    requires Between(p, cuts, i, e) && |at| == |cuts| && at[i] == |h| + cuts[i] && at[i + 1] == |h| + cuts[i + 1]
    ensures Between(h + p, at, i, e)
  {
    assert (h + p)[|h| + cuts[i]..|h| + cuts[i + 1]] == p[cuts[i]..cuts[i + 1]];
  }

  // ---- the merged output -----------------------------------------------------------

  /** Headers sit inside the string data, in order. */
  ghost predicate Ordered(heads: seq<Header>, lo: nat, hi: nat)
  {
    if heads == [] then lo <= hi
    else lo <= heads[0].offset && Ordered(heads[1..], heads[0].offset, hi)
  }

  /** String data from strpos on, with every remaining header put where it belongs. */
  ghost function Merge(str: seq<byte>, heads: seq<Header>, strpos: nat): (out: seq<byte>)
    requires Ordered(heads, strpos, |str|)
    decreases |heads|
  {
    OrderedBounds(heads, strpos, |str|);
    if heads == [] then str[strpos..]
    else str[strpos..heads[0].offset] + ListHead(heads[0].size) + Merge(str, heads[1..], heads[0].offset)
  }

  lemma {:induction false} OrderedBounds(heads: seq<Header>, lo: nat, hi: nat)
    requires Ordered(heads, lo, hi)
    ensures lo <= hi
    ensures heads != [] ==> lo <= heads[0].offset <= hi
    decreases |heads|
  {
    if heads != [] {
      OrderedBounds(heads[1..], heads[0].offset, hi);
    }
  }

  lemma {:induction false} OrderedConcat(a: seq<Header>, b: seq<Header>, lo: nat, mid: nat, hi: nat)
    requires Ordered(a, lo, mid) && Ordered(b, mid, hi)
    ensures Ordered(a + b, lo, hi)
    decreases |a|
  {
    if a == [] {
      assert a + b == b;
      OrderedBounds(b, mid, hi);
    } else {
      assert (a + b)[1..] == a[1..] + b;
      OrderedConcat(a[1..], b, a[0].offset, mid, hi);
    }
  }

  lemma MergeFrom(s: seq<byte>, b: seq<Header>, lo: nat, mid: nat)
    requires lo <= mid <= |s| && Ordered(b, mid, |s|)
    ensures Ordered(b, lo, |s|)
    ensures Merge(s, b, lo) == s[lo..mid] + Merge(s, b, mid)
  {
    OrderedBounds(b, mid, |s|);
    if b == [] {
      assert s[lo..] == s[lo..mid] + s[mid..];
    } else {
      var o := b[0].offset;
      assert s[lo..o] == s[lo..mid] + s[mid..o];
      MergeAssoc(s[lo..mid], s[mid..o], ListHead(b[0].size), Merge(s, b[1..], o));
    }
  }

  /** Writing more extends the output at its end and nowhere else. */
  lemma {:induction false} MergeConcat(s: seq<byte>, t: seq<byte>, a: seq<Header>, b: seq<Header>, lo: nat)
    requires s <= t
    requires Ordered(a, lo, |s|) && Ordered(b, |s|, |t|)
    ensures Ordered(a + b, lo, |t|)
    ensures Merge(t, a + b, lo) == Merge(s, a, lo) + Merge(t, b, |s|)
    decreases |a|
  {
    OrderedConcat(a, b, lo, |s|, |t|);
    OrderedBounds(a, lo, |s|);
    if a == [] {
      assert a + b == b;
      MergeFrom(t, b, lo, |s|);
      assert t[lo..|s|] == s[lo..];
    } else {
      var o, rest := a[0].offset, a[1..];
      assert (a + b)[1..] == rest + b;
      MergeConcat(s, t, rest, b, o);
      assert t[lo..o] == s[lo..o];
      MergeAssoc(s[lo..o], ListHead(a[0].size), Merge(s, rest, o), Merge(t, b, |s|));
    }
  }

  lemma MergeAssoc(a: seq<byte>, b: seq<byte>, c: seq<byte>, d: seq<byte>)
    ensures a + b + (c + d) == (a + b + c) + d
    ensures (a + b) + c + d == a + (b + c + d)
  {
  }

  /** From one buffer state to another, exactly the bytes e were added to the output. */
  ghost predicate Extends(s0: seq<byte>, h0: seq<Header>, z0: nat, s: seq<byte>, h: seq<Header>, z: nat, e: seq<byte>)
  {
    && s0 <= s
    && h0 <= h
    && Ordered(h[|h0|..], |s0|, |s|)
    && Merge(s, h[|h0|..], |s0|) == e
    && |s| + z == |s0| + z0 + |e|
    && Sized(h[|h0|..])
  }

  /** A header's size is a 64-bit number when it is written out. */
  ghost predicate Sized(heads: seq<Header>)
  {
    forall i :: 0 <= i < |heads| ==> heads[i].size < TWO_64
  }

  lemma ExtendsPlain(s0: seq<byte>, h0: seq<Header>, z0: nat, e: seq<byte>)
    ensures Extends(s0, h0, z0, s0 + e, h0, z0, e)
  {
    assert h0[|h0|..] == [];
    assert (s0 + e)[|s0|..] == e;
  }

  lemma ExtendsTrans(s0: seq<byte>, h0: seq<Header>, z0: nat, s1: seq<byte>, h1: seq<Header>, z1: nat, d: seq<byte>,
                     s2: seq<byte>, h2: seq<Header>, z2: nat, e: seq<byte>)
    requires Extends(s0, h0, z0, s1, h1, z1, d) && Extends(s1, h1, z1, s2, h2, z2, e)
    ensures Extends(s0, h0, z0, s2, h2, z2, d + e)
  {
    MergeConcat(s1, s2, h1[|h0|..], h2[|h1|..], |s0|);
    assert h2[|h0|..] == h1[|h0|..] + h2[|h1|..];
  }

  /** Closing a list turns its payload into a complete value, header first. */
  lemma ExtendsList(s0: seq<byte>, h0: seq<Header>, z0: nat, open: Header, s: seq<byte>, h: seq<Header>, z: nat, p: seq<byte>)
    requires Extends(s0, h0 + [open], z0, s, h, z, p) && |p| < TWO_64
    ensures Extends(s0, h0, z0, s, h[|h0| := Header(|s0|, |p|)], z + |ListHead(|p|)|, ListHead(|p|) + p)
  {
    var patched := h[|h0| := Header(|s0|, |p|)];
    var inner := h[|h0| + 1..];
    assert patched[|h0|..] == [Header(|s0|, |p|)] + inner;
    assert patched[|h0|..][1..] == inner;
    OrderedBounds(inner, |s0|, |s|);
    assert Merge(s, patched[|h0|..], |s0|) == s[|s0|..|s0|] + ListHead(|p|) + p;
  }

  // ---- storing into a byte array -----------------------------------------------------

  /** s with x written over it from pos on. */
  ghost function Splice(s: seq<byte>, pos: nat, x: seq<byte>): (r: seq<byte>)
    requires pos + |x| <= |s|
    ensures |r| == |s|
  {
    s[..pos] + x + s[pos + |x|..]
  }

  /** Go's copy(b[pos:], s) when s fits. */
  method Store(b: array<byte>, pos: nat, s: seq<byte>)
    requires pos + |s| <= b.Length
    modifies b
    ensures b[..] == Splice(old(b[..]), pos, s)
  {
    var k := 0;
    while k < |s|
      invariant 0 <= k <= |s|
      invariant b[..pos] == old(b[..pos]) && b[pos..pos + k] == s[..k] && b[pos + k..] == old(b[pos + k..])
    {
      b[pos + k] := s[k];
      k := k + 1;
    }
    assert b[..] == b[..pos] + b[pos..pos + |s|] + b[pos + |s|..];
  }

  /** Stores i big-endian at b[pos..], with the fewest bytes that represent it. */
  method PutInt(b: array<byte>, pos: nat, i: uint64) returns (size: nat)
    requires pos + |IntBytes(i)| <= b.Length
    modifies b
    ensures size == |IntBytes(i)|
    ensures b[..] == Splice(old(b[..]), pos, IntBytes(i))
  {
    SwitchedIsMinimal(i);
    Store(b, pos, Switched(i));
    size := |Switched(i)|;
  }

  /** Stores a list or string header at b[pos..]. */
  method PutHead(b: array<byte>, pos: nat, small: byte, large: byte, size: uint64) returns (n: nat)
    requires pos + |Head(small, large, size)| <= b.Length
    modifies b
    ensures n == |Head(small, large, size)|
    ensures b[..] == Splice(old(b[..]), pos, Head(small, large, size))
  {
    if size < 56 {
      n := 1;
      PutShortHead(b, pos, Truncate(small + size), Head(small, large, size));
    } else {
      HeadLong(small, large, size, IntBytes(size));
      n := PutLongHead(b, pos, large, size, Head(small, large, size));
    }
  }

  method PutShortHead(b: array<byte>, pos: nat, tag: byte, ghost head: seq<byte>)
    requires head == [tag] && pos + 1 <= b.Length
    modifies b
    ensures b[..] == Splice(old(b[..]), pos, head)
  {
    Store(b, pos, [tag]);
  }

  /** The digits of the size and, in front of them, how many they are. */
  method PutLongHead(b: array<byte>, pos: nat, large: byte, size: uint64, ghost head: seq<byte>) returns (n: nat)
    requires head == [Truncate(large + |IntBytes(size)|)] + IntBytes(size) && pos + |head| <= b.Length
    modifies b
    ensures n == |head| && b[..] == Splice(old(b[..]), pos, head)
  {
    ghost var before, d := b[..], IntBytes(size);
    var sizesize := PutInt(b, pos + 1, size);
    n := sizesize + 1;
    PutTag(b, pos, Truncate(large + sizesize), before, d);
  }

  lemma HeadLong(small: byte, large: byte, size: nat, d: seq<byte>)
    requires size >= 56 && d == ToBytes(size)
    ensures Head(small, large, size) == [Truncate(large + |d|)] + d
  {
  }

  /** Stores the tag byte in front of digits that are already there. */
  method PutTag(b: array<byte>, pos: nat, tag: byte, ghost before: seq<byte>, ghost d: seq<byte>)
    requires pos + 1 + |d| <= b.Length == |before|
    requires b[..] == Splice(before, pos + 1, d)
    modifies b
    ensures b[..] == Splice(before, pos, [tag] + d)
  {
    TagInFront(before, pos, tag, d);
    ghost var untagged := b[..];
    b[pos] := tag;
    assert b[..] == untagged[pos := tag];
  }

  lemma TagInFront(s: seq<byte>, pos: nat, tag: byte, d: seq<byte>)
    requires pos + 1 + |d| <= |s|
    ensures Splice(s, pos + 1, d)[pos := tag] == Splice(s, pos, [tag] + d)
  {
  }

  // ---- the buffer ------------------------------------------------------------------------

  /** str holds everything except list headers; lheads the headers; lhsize the encoded
      size of all finished headers; sizebuf is scratch space for headers and integers. */
  class EncBuffer {
    var str: seq<byte>
    var lheads: seq<Header>
    var lhsize: nat
    const sizebuf: array<byte>

    ghost predicate Valid()
    {
      sizebuf.Length == 9
    }

    /** Every list that was started has ended: offsets are in order and size() is exact. */
    ghost predicate Complete()
      reads this
    {
      && Ordered(lheads, 0, |str|)
      && |Merge(str, lheads, 0)| == |str| + lhsize
      && Sized(lheads)
    }

    /** The encoded bytes. */
    ghost function Output(): (out: seq<byte>)
      reads this
      requires Complete()
    {
      Merge(str, lheads, 0)
    }

    constructor ()
      ensures Valid() && fresh(sizebuf)
      ensures Complete() && Output() == []
    {
      str, lheads, lhsize := [], [], 0;
      sizebuf := new byte[9];
    }

    /** The length of the encoded data. */
    method Size() returns (n: nat)
      ensures n == |str| + lhsize
      ensures Complete() ==> n == |Output()|
    {
      n := |str| + lhsize;
    }

    method EncodeStringHeader(size: uint64)
      requires Valid()
      modifies this, sizebuf
      ensures str == old(str) + StrHead(size) && lheads == old(lheads) && lhsize == old(lhsize)
    {
      if size < 56 {
        str := str + [Truncate(0x80 + size)];
      } else {
        LengthOfLength(size);
        var sizesize := PutInt(sizebuf, 1, size);
        sizebuf[0] := Truncate(0xB7 + sizesize);
        assert sizebuf[1..sizesize + 1] == ToBytes(size);
        assert sizebuf[..sizesize + 1] == StrHead(size);
        str := str + sizebuf[..sizesize + 1];
      }
    }

    method WriteBytes(b: seq<byte>)
      requires Valid() && |b| < MAX_LEN
      modifies this, sizebuf
      ensures str == old(str) + EncStr(b) && lheads == old(lheads) && lhsize == old(lhsize)
    {
      if |b| == 1 && b[0] <= 0x7F {
        str := str + [b[0]];
        assert b == [b[0]];
      } else {
        EncodeStringHeader(|b|);
        str := str + b;
        assert str == old(str) + (StrHead(|b|) + b);
      }
    }

    method WriteBool(b: bool)
      modifies this
      ensures str == old(str) + EncInt(if b then 1 else 0) && lheads == old(lheads) && lhsize == old(lhsize)
    {
      Digits1(1);
      if b {
        str := str + [0x01];
      } else {
        str := str + [0x80];
      }
    }

    method WriteUint64(i: uint64)
      requires Valid()
      modifies this, sizebuf
      ensures str == old(str) + EncInt(i) && lheads == old(lheads) && lhsize == old(lhsize)
    {
      EncIntShort(i);
      if i == 0 {
        str := str + [0x80];
      } else if i < 128 {
        str := str + [i];
      } else {
        LengthOfLength(i);
        var s := PutInt(sizebuf, 1, i);
        sizebuf[0] := Truncate(0x80 + s);
        assert sizebuf[1..s + 1] == ToBytes(i);
        assert sizebuf[..s + 1] == [0x80 + s] + ToBytes(i);
        str := str + sizebuf[..s + 1];
      }
    }

    /** Writes the magnitude given by 64-bit words, least significant first. */
    method WriteBigInt(words: seq<uint64>)
      requires Valid() && |ToBytes(WordsValue(words))| < MAX_LEN
      modifies this, sizebuf
      ensures str == old(str) + EncInt(WordsValue(words)) && lheads == old(lheads) && lhsize == old(lhsize)
    {
      ghost var n := WordsValue(words);
      var bitlen := BitLen(WordsValue(words));
      ByteLength(n);
      BitLen64(n);
      if bitlen <= 64 {
        WriteUint64(WordsValue(words));
        return;
      }
      WriteLongInt(words, (bitlen + 7) / 8);
      EncIntHead(n);
    }

    /** An integer of more than 64 bits: a string header, then the words' bytes. */
    method WriteLongInt(words: seq<uint64>, length: uint64)
      requires Valid() && length == |ToBytes(WordsValue(words))|
      modifies this, sizebuf
      ensures str == old(str) + (StrHead(length) + ToBytes(WordsValue(words)))
      ensures lheads == old(lheads) && lhsize == old(lhsize)
    {
      EncodeStringHeader(length);
      var bytesBuf := WordBytes(words, length);
      str := str + bytesBuf;
    }

    /** Writes a 256-bit integer given by four words, z[0] least significant. */
    method WriteUint256(z: seq<uint64>)
      requires Valid() && |z| == 4
      modifies this, sizebuf
      ensures str == old(str) + EncInt(WordsValue(z)) && lheads == old(lheads) && lhsize == old(lhsize)
    {
      ghost var n := WordsValue(z);
      var bitlen := BitLen(WordsValue(z));
      ByteLength(n);
      BitLen64(n);
      if bitlen <= 64 {
        WriteUint64(WordsValue(z));
        return;
      }
      var nBytes := (bitlen + 7) / 8;
      var b := TaggedWords(z, nBytes);
      EncIntLong(n) by { WordsTail(z); }
      str := str + b;
    }

    /** Opens a list: remembers where its header goes and the header bytes so far. */
    method ListStart() returns (index: nat)
      modifies this
      ensures str == old(str) && lhsize == old(lhsize) && index == |old(lheads)|
      ensures lheads == old(lheads) + [Header(|str|, lhsize)]
    {
      lheads := lheads + [Header(|str|, lhsize)];
      index := |lheads| - 1;
    }

    /** Closes a list: its payload is what was written since, nested headers included. */
    method ListEnd(index: nat)
      requires index < |lheads|
      requires lheads[index].offset + lheads[index].size <= |str| + lhsize < MAX_LEN
      modifies this
      ensures str == old(str)
      ensures var size := |str| + old(lhsize) - old(lheads[index]).offset - old(lheads[index]).size;
              && lheads == old(lheads)[index := Header(old(lheads[index]).offset, size)]
              && lhsize == old(lhsize) + |ListHead(size)|
    {
      var lh := lheads[index];
      var size := |str| + lhsize - lh.offset - lh.size;
      lheads := lheads[index := lh.(size := size)];
      if size < 56 {
        lhsize := lhsize + 1;
      } else {
        var n := IntSize(size);
        lhsize := lhsize + 1 + n;
      }
    }

    /** Writes one value of any type, as the generated writers do. */
    method WriteValue(v: Value)
      requires Valid() && |str| + lhsize + |Enc(Meaning(v))| < MAX_LEN
      modifies this, sizebuf
      ensures Extends(old(str), old(lheads), old(lhsize), str, lheads, lhsize, Enc(Meaning(v)))
      decreases v
    {
      if !v.Slice? && !v.Struct? {
        ExtendsPlain(str, lheads, lhsize, Enc(Meaning(v)));
      }
      match v
      case Bytes(b) => WriteBytes(b);
      case Bool(b) => WriteBool(b);
      case Uint(n) => WriteUint64(n);
      case Big(words) => WriteBigInt(words);
      case Uint256(z) => WriteUint256(z);
      case RawValue(t) => str := str + Enc(t);
      case Nil(list) => str := str + [if list then 0xC0 else 0x80];
      case Slice(es) =>
        if |es| == 0 {
          ExtendsPlain(str, lheads, lhsize, [0xC0]);
          str := str + [0xC0];
        } else {
          WriteItems(es);
        }
      case Struct(fs) => WriteItems(fs);
    }

    /** A list header, the items, and the header's size filled in at the end. */
    method WriteItems(vs: seq<Value>)
      requires Valid() && |str| + lhsize + |Enc(List(Meanings(vs)))| < MAX_LEN
      modifies this, sizebuf
      ensures Extends(old(str), old(lheads), old(lhsize), str, lheads, lhsize, Enc(List(Meanings(vs))))
      decreases vs
    {
      ghost var ts := Meanings(vs);
      var index := ListStart();
      ghost var s0, h0, z0 := str, lheads, lhsize;
      ExtendsPlain(s0, h0, z0, []);
      assert s0 + [] == s0 && EncAll(ts[..0]) == [];
      for i := 0 to |vs|
        invariant Extends(s0, h0, z0, str, lheads, lhsize, EncAll(ts[..i]))
      {
        EncAllStep(ts, i);
        ghost var s1, h1, z1 := str, lheads, lhsize;
        WriteValue(vs[i]);
        ExtendsTrans(s0, h0, z0, s1, h1, z1, EncAll(ts[..i]), str, lheads, lhsize, Enc(ts[i]));
      }
      assert ts[..|vs|] == ts;
      ExtendsList(s0, old(lheads), z0, h0[index], str, lheads, lhsize, EncAll(ts));
      assert lheads[index] == h0[index];
      ListEnd(index);
    }

    /** Copies the merged output into dst, starting at dst[at]. */
    method CopyTo(dst: array<byte>, at: nat)
      requires Complete() && at + |str| + lhsize <= dst.Length
      modifies dst
      ensures dst[..] == Splice(old(dst[..]), at, Output())
    {
      var strpos, pos := 0, at;
      ghost var before, done := dst[..], [];
      assert lheads[0..] == lheads;
      for i := 0 to |lheads|
        invariant 0 <= strpos <= |str| && pos == at + |done|
        invariant Ordered(lheads[i..], strpos, |str|)
        invariant done + Merge(str, lheads[i..], strpos) == Output()
        invariant dst[..] == Splice(before, at, done)
      {
        var head := lheads[i];
        MergeStep(str, lheads, i, strpos, done);
        StorePiece(dst, pos, str[strpos..head.offset], at, before, done);
        done := done + str[strpos..head.offset];
        pos := pos + (head.offset - strpos);
        strpos := head.offset;
        var n := StoreHead(dst, pos, head.size, at, before, done);
        pos := pos + n;
        done := done + ListHead(head.size);
      }
      assert lheads[|lheads|..] == [];
      StorePiece(dst, pos, str[strpos..], at, before, done);
    }

    /** The encoder output as a new byte slice. */
    method MakeBytes() returns (out: seq<byte>)
      requires Complete()
      ensures out == Output()
    {
      var n := Size();
      var dst := new byte[n];
      CopyTo(dst, 0);
      out := dst[..];
    }

    /** The encoder output appended to given bytes. */
    method AppendToBytes(prefix: seq<byte>) returns (out: seq<byte>)
      requires Complete()
      ensures out == prefix + Output()
    {
      var n := Size();
      var dst := new byte[|prefix| + n];
      Store(dst, 0, prefix);
      CopyTo(dst, |prefix|);
      out := dst[..];
    }

    /** Writes the merged output piece by piece; a failing writer has a prefix of it. */
    method WriteTo(w: Sink) returns (err: bool)
      requires Valid() && Complete()
      modifies w, sizebuf
      ensures old(w.out) <= w.out <= old(w.out) + Output()
      ensures !err ==> w.out == old(w.out) + Output()
      ensures w.errors == old(w.errors) + if err then 1 else 0
    {
      var strpos := 0;
      ghost var base, done := w.out, [];
      assert lheads[0..] == lheads;
      for i := 0 to |lheads|
        invariant 0 <= strpos <= |str|
        invariant Ordered(lheads[i..], strpos, |str|)
        invariant done + Merge(str, lheads[i..], strpos) == Output()
        invariant w.out == base + done && w.errors == old(w.errors)
      {
        var head := lheads[i];
        MergeStep(str, lheads, i, strpos, done);
        if head.offset - strpos > 0 {
          err := w.WritePiece(str[strpos..head.offset], base, done, Output());
          if err {
            return;
          }
        }
        done := done + str[strpos..head.offset];
        strpos := head.offset;
        var k := PutListHead(sizebuf, head.size);
        err := w.WritePiece(sizebuf[..k], base, done, Output());
        if err {
          return;
        }
        done := done + ListHead(head.size);
      }
      assert lheads[|lheads|..] == [];
      err := false;
      if strpos < |str| {
        err := w.WritePiece(str[strpos..], base, done, Output());
      }
    }
  }

  /** listhead.encode into the scratch buffer. */
  method PutListHead(buf: array<byte>, size: uint64) returns (k: nat)
    requires buf.Length == 9
    modifies buf
    ensures 1 <= k <= 9 && buf[..k] == ListHead(size)
  {
    HeadFirst(size);
    k := PutHead(buf, 0, 0xC0, 0xF7, size);
    assert buf[..k] == ListHead(size);
  }

  /** The next header and the string data before it come out of the merge first. */
  lemma MergeStep(str: seq<byte>, heads: seq<Header>, i: nat, strpos: nat, done: seq<byte>)
    requires i < |heads| && Ordered(heads[i..], strpos, |str|)
    ensures strpos <= heads[i].offset <= |str| && Ordered(heads[i + 1..], heads[i].offset, |str|)
    ensures done + Merge(str, heads[i..], strpos)
         == (done + str[strpos..heads[i].offset] + ListHead(heads[i].size)) + Merge(str, heads[i + 1..], heads[i].offset)
  {
    OrderedBounds(heads[i..], strpos, |str|);
    assert heads[i..][1..] == heads[i + 1..];
    MergeAssoc(done, str[strpos..heads[i].offset], ListHead(heads[i].size), Merge(str, heads[i + 1..], heads[i].offset));
  }

  /** Store, seen as one more piece of an output that starts at dst[at]. */
  method StorePiece(dst: array<byte>, pos: nat, x: seq<byte>, ghost at: nat, ghost before: seq<byte>, ghost done: seq<byte>)
    requires pos == at + |done| && pos + |x| <= dst.Length == |before|
    requires dst[..] == Splice(before, at, done)
    modifies dst
    ensures dst[..] == Splice(before, at, done + x)
  {
    StoreAfter(before, at, done, x);
    Store(dst, pos, x);
  }

  method StoreHead(dst: array<byte>, pos: nat, size: uint64, ghost at: nat, ghost before: seq<byte>, ghost done: seq<byte>)
    returns (n: nat)
    requires pos == at + |done| && pos + |ListHead(size)| <= dst.Length == |before|
    requires dst[..] == Splice(before, at, done)
    modifies dst
    ensures n == |ListHead(size)|
    ensures dst[..] == Splice(before, at, done + ListHead(size))
  {
    StoreAfter(before, at, done, ListHead(size));
    n := PutHead(dst, pos, 0xC0, 0xF7, size);
  }

  lemma StoreAfter(before: seq<byte>, at: nat, done: seq<byte>, x: seq<byte>)
    requires at + |done| + |x| <= |before|
    ensures Splice(Splice(before, at, done), at + |done|, x) == Splice(before, at, done + x)
  {
  }

  /** An io.Writer that may stop accepting bytes at any point. */
  class Sink {
    var out: seq<byte>
    var errors: nat  // the errors it has reported

    method Write(p: seq<byte>) returns (n: nat, err: bool)
      modifies this
      ensures n <= |p| && out == old(out) + p[..n]
      ensures n < |p| ==> err
      ensures errors == old(errors) + if err then 1 else 0
    {
      var room: nat, broken: bool := *, *;
      n := if room < |p| then room else |p|;
      err := broken || n < |p|;
      out, errors := out + p[..n], if err then errors + 1 else errors;
    }

    /** Write, seen as the next piece of some total output. */
    method WritePiece(p: seq<byte>, ghost base: seq<byte>, ghost done: seq<byte>, ghost total: seq<byte>) returns (err: bool)
      requires out == base + done && done + p <= total
      modifies this
      ensures base <= out <= base + total
      ensures !err ==> out == base + (done + p)
      ensures errors == old(errors) + if err then 1 else 0
    {
      var n;
      n, err := Write(p);
      assert out == base + (done + p[..n]);
      assert done + p[..n] <= total;
    }
  }

  /** A value one word longer is one digit group longer. */
  lemma SplitDigit(q: nat, d: nat, p: nat, v: nat)
    requires q == d + 256 * p * v && d < 256 * p
    ensures q % 256 == d % 256 && q / 256 == d / 256 + p * v && d / 256 < p
  {
    var m := p * v;
    assert 256 * p * v == 256 * m;
    assert q == d + 256 * m;
  }

  /** Fills a zeroed buffer from its end, one byte of one word at a time. */
  method WordBytes(words: seq<uint64>, length: nat) returns (bytesBuf: seq<byte>)
    requires length == |ToBytes(WordsValue(words))|
    ensures bytesBuf == ToBytes(WordsValue(words))
  {
    ghost var n := WordsValue(words);
    bytesBuf := Zeros(length);
    var index := length;
    ghost var q := n;
    FixedIsToBytes(n, length);
    assert bytesBuf[index..] == [] && words[0..] == words;
    for w := 0 to |words|
      invariant 0 <= index <= length == |bytesBuf|
      invariant bytesBuf[..index] == Zeros(index)
      invariant Fixed(q, index) + bytesBuf[index..] == ToBytes(n)
      invariant index > 0 ==> q == WordsValue(words[w..])
    {
      index, bytesBuf, q := WordDigits(words[w], WordsValue(words[w + 1..]), index, bytesBuf, q, n) by {
        assert words[w..][1..] == words[w + 1..];
        Pow256Values();
      }
    }
    assert bytesBuf == Zeros(index) + bytesBuf[index..];
    if index > 0 {
      assert words[|words|..] == [];
      FixedZero(index);
    }
  }

  /** The eight bytes of one word, or as many as still have room. */
  method WordDigits(word: uint64, ghost higher: nat, start: nat, buf: seq<byte>, ghost value: nat, ghost n: nat)
    returns (index: nat, bytesBuf: seq<byte>, ghost q: nat)
    requires start <= |buf| && buf[..start] == Zeros(start)
    requires Fixed(value, start) + buf[start..] == ToBytes(n)
    requires start > 0 ==> value == word + Pow256(8) * higher
    ensures index <= |bytesBuf| == |buf| && bytesBuf[..index] == Zeros(index)
    ensures Fixed(q, index) + bytesBuf[index..] == ToBytes(n)
    ensures index > 0 ==> q == higher
  {
    var d: nat := word;
    index, bytesBuf, q := start, buf, value;
    Pow256Values();
    for j := 0 to 8
      invariant 0 <= index <= |bytesBuf| == |buf|
      invariant bytesBuf[..index] == Zeros(index)
      invariant Fixed(q, index) + bytesBuf[index..] == ToBytes(n)
      invariant index > 0 ==> q == d + Pow256(8 - j) * higher && d < Pow256(8 - j)
    {
      if index > 0 {
        SplitDigit(q, d, Pow256(7 - j), higher);
        StoreDigit(bytesBuf, index, Truncate(d), q);
        index := index - 1;
        bytesBuf := bytesBuf[index := Truncate(d)];
        q := q / 256;
        d := d / 256;
      }
    }
  }

  lemma StoreDigit(s: seq<byte>, index: nat, d: byte, q: nat)
    requires 0 < index <= |s| && s[..index] == Zeros(index) && q % 256 == d
    ensures s[index - 1 := d][..index - 1] == Zeros(index - 1)
    ensures Fixed(q / 256, index - 1) + s[index - 1 := d][index - 1..] == Fixed(q, index) + s[index..]
  {
    var k := index - 1;
    ZerosSnoc(k);
    assert s[k := d][..k] == s[..index][..k] == Zeros(k);
    assert s[k := d][k..] == [d] + s[index..];
  }

  /** The four big-endian words of a 256-bit integer, after one spare byte. */
  method PutWords(b: array<byte>, z: seq<uint64>)
    requires b.Length == 33 && |z| == 4
    modifies b
    ensures b[1..] == WordDigitsOf(z)
  {
    ghost var w3, w2, w1, w0 := Fixed(z[3], 8), Fixed(z[2], 8), Fixed(z[1], 8), Fixed(z[0], 8);
    Store(b, 1, Fixed(z[3], 8));
    assert b[1..9] == w3;
    Store(b, 9, Fixed(z[2], 8));
    assert b[1..17] == w3 + w2;
    Store(b, 17, Fixed(z[1], 8));
    assert b[1..25] == w3 + w2 + w1;
    Store(b, 25, Fixed(z[0], 8));
    assert b[1..] == w3 + w2 + w1 + w0;
    FourWords(z);
  }

  lemma WordsTail(z: seq<uint64>)
    ensures var k := |ToBytes(WordsValue(z))|;
            k <= 8 * |z| == |WordDigitsOf(z)| && WordDigitsOf(z)[8 * |z| - k..] == ToBytes(WordsValue(z))
  {
    WordsFixed(z);
    ToBytesLength(WordsValue(z), 8 * |z|);
    FixedIsToBytes(WordsValue(z), 8 * |z|);
  }

  /** The shortest digits of a 256-bit integer, tagged in the byte just before them. */
  method TaggedWords(z: seq<uint64>, nBytes: nat) returns (s: seq<byte>)
    requires |z| == 4 && nBytes == |ToBytes(WordsValue(z))|
    ensures s == [Truncate(0x80 + nBytes)] + ToBytes(WordsValue(z))
  {
    WordsTail(z);
    var b := new byte[33];
    PutWords(b, z);
    ghost var digits := b[1..];
    b[32 - nBytes] := Truncate(0x80 + nBytes);
    s := b[32 - nBytes..];
    assert s[1..] == digits[32 - nBytes..];
    assert s == [s[0]] + s[1..];
  }

  lemma EncIntHead(n: nat)
    requires n >= 256
    ensures EncInt(n) == StrHead(|ToBytes(n)|) + ToBytes(n)
  {
    ToBytesLength(n, 1);
    Pow256Values();
  }

  /** Eight digits per word, most significant word first. */
  ghost function WordDigitsOf(words: seq<uint64>): (s: seq<byte>)
  {
    if words == [] then [] else WordDigitsOf(words[1..]) + Fixed(words[0], 8)
  }

  lemma {:induction false} WordsFixed(words: seq<uint64>)
    ensures WordsValue(words) < Pow256(8 * |words|)
    ensures Fixed(WordsValue(words), 8 * |words|) == WordDigitsOf(words)
  {
    if words != [] {
      WordsFixed(words[1..]);
      var v, k := WordsValue(words[1..]), 8 * |words[1..]|;
      Pow256Sum(k, 8);
      Pow256Values();
      assert v * TWO_64 + words[0] < (v + 1) * TWO_64 <= Pow256(k) * TWO_64;
      FixedConcat(v, words[0], k, 8);
    }
  }

  lemma FourWords(z: seq<uint64>)
    requires |z| == 4
    ensures WordDigitsOf(z) == Fixed(z[3], 8) + Fixed(z[2], 8) + Fixed(z[1], 8) + Fixed(z[0], 8)
  {
    assert z[1..][1..] == z[2..] && z[2..][1..] == z[3..] && z[3..][1..] == [];
    assert WordDigitsOf(z[3..]) == WordDigitsOf([]) + Fixed(z[3], 8);
    assert WordDigitsOf(z[2..]) == WordDigitsOf(z[3..]) + Fixed(z[2], 8);
    assert WordDigitsOf(z[1..]) == WordDigitsOf(z[2..]) + Fixed(z[1], 8);
  }

  lemma {:induction false} Pow256Sum(i: nat, j: nat)
    ensures Pow256(i + j) == Pow256(i) * Pow256(j)
    decreases j
  {
    if j > 0 {
      Pow256Sum(i, j - 1);
      calc {
        Pow256(i + j);
        256 * (Pow256(i) * Pow256(j - 1));
        Pow256(i) * (256 * Pow256(j - 1));
      }
    }
  }

  /** The three shapes of an encoded 64-bit integer. */
  lemma EncIntShort(i: uint64)
    ensures i == 0 ==> EncInt(i) == [0x80]
    ensures 0 < i < 128 ==> EncInt(i) == [i]
    ensures i >= 128 ==> EncInt(i) == [0x80 + |ToBytes(i)|] + ToBytes(i) && 1 <= |ToBytes(i)| <= 8
  {
    if 0 < i < 256 {
      Digits1(i);
    } else if i >= 256 {
      LengthOfLength(i);
      EncIntLong(i);
    }
  }

  lemma EncIntLong(n: nat)
    requires n >= 256 && |ToBytes(n)| < 56
    ensures EncInt(n) == [0x80 + |ToBytes(n)|] + ToBytes(n)
  {
    ToBytesLength(n, 1);
    Pow256Values();
    HeadFirst(|ToBytes(n)|);
  }
}
