/** The stream decoder (go-ethereum/rlp/decode.go): a cursor over the input, a cache of
    the header just read, and a stack of list limits kept in wrapping 64-bit arithmetic. */
module Decoder {
  import opened Wrappers
  import opened Sequences
  import opened BigEndian
  import opened Rlp
  import Integers
  import Encoder

  datatype Kind = ByteKind | StringKind | ListKind

  datatype Error =
    | EOL | EOF | UnexpectedEOF | ElemTooLarge | ValueTooLarge | CanonSize | CanonInt
    | ExpectedString | ExpectedList | NotInList | NotAtEOL | UintOverflow | MoreThanOneValue

  // ---- headers as bytes ------------------------------------------------------------

  /** The header bytes of a value: its kind and size, or the byte itself. */
  ghost function HeaderBytes(k: Kind, size: nat, byteval: byte): (h: seq<byte>)
    ensures |h| >= 1
  {
    match k
    case ByteKind => [byteval]
    case StringKind => StrHead(size)
    case ListKind => ListHead(size)
  }

  /** s begins with the one well-formed header for this kind and size. */
  ghost predicate Starts(s: seq<byte>, k: Kind, size: nat, byteval: byte)
  {
    && size < TWO_64
    && (k == ByteKind ==> byteval < 0x80 && size == 0)
    && (k != ByteKind ==> byteval == 0)
    && HeaderBytes(k, size, byteval) <= s
  }

  /** At most one header is at the front of any input. */
  lemma StartsUnique(s: seq<byte>, k: Kind, n: nat, b: byte, k': Kind, n': nat, b': byte)
    requires Starts(s, k, n, b) && Starts(s, k', n', b')
    ensures k == k' && n == n' && b == b'
  {
    HeadFirst(n);
    HeadFirst(n');
    var h, h' := HeaderBytes(k, n, b), HeaderBytes(k', n', b');
    assert h[0] == s[0] == h'[0];
    if k != ByteKind {
      FrontAndRest(s, h);
      FrontAndRest(s, h');
      if k == StringKind {
        HeadUnique(0x80, 0xB7, n, n', s[|h|..], s[|h'|..]);
      } else {
        HeadUnique(0xC0, 0xF7, n, n', s[|h|..], s[|h'|..]);
      }
    }
  }

  lemma FrontAndRest(s: seq<byte>, h: seq<byte>)
    requires h <= s
    ensures s == h + s[|h|..]
  {
  }

  /** A string at the front shows as a byte or a string header. */
  lemma StrStarts(s: seq<byte>, v: seq<byte>)
    requires EncStr(v) <= s && |s| < TWO_64
    ensures |v| == 1 && v[0] < 0x80 ==> Starts(s, ByteKind, 0, v[0])
    ensures !(|v| == 1 && v[0] < 0x80) ==> Starts(s, StringKind, |v|, 0) && s[|StrHead(|v|)|..][..|v|] == v
  {
    if |v| == 1 && v[0] < 0x80 {
      assert v == [v[0]];
    } else {
      assert EncStr(v) == StrHead(|v|) + v;
      assert s[|StrHead(|v|)|..][..|v|] == EncStr(v)[|StrHead(|v|)|..];
    }
  }

  // ---- limits ------------------------------------------------------------------------

  /** Takes n from the innermost limit, wrapping as uint64 subtraction does. */
  ghost function Deduct(levels: seq<int>, n: nat): (r: seq<int>)
    ensures |r| == |levels|
  {
    if levels == [] then [] else levels[|levels| - 1 := (levels[|levels| - 1] - n) % TWO_64]
  }

  /** n bytes fit the innermost limit. */
  ghost predicate Room(levels: seq<int>, n: nat)
  {
    levels == [] || n <= levels[|levels| - 1]
  }

  lemma DeductTwice(levels: seq<int>, m: nat, n: nat)
    ensures Deduct(Deduct(levels, m), n) == Deduct(levels, m + n)
  {
    if levels != [] {
      WrapTwice(levels[|levels| - 1], m, n);
    }
  }

  lemma WrapTwice(a: int, m: int, n: int)
    ensures ((a - m) % TWO_64 - n) % TWO_64 == (a - m - n) % TWO_64
  {
  }

  /** Without a wrap, what fits afterwards is what fitted in all before. */
  lemma RoomAfter(levels: seq<uint64>, m: nat, n: nat)
    requires Room(levels, m)
    ensures Room(Deduct(levels, m), n) <==> Room(levels, m + n)
    ensures levels != [] ==> Deduct(levels, m)[|levels| - 1] == levels[|levels| - 1] - m
  {
  }

  /** Taking n from the innermost limit goes below zero and wraps. */
  ghost predicate Wraps(levels: seq<int>, n: nat)
  {
    levels != [] && Deduct(levels, n)[|levels| - 1] != levels[|levels| - 1] - n
  }

  /** That happens exactly if n bytes do not fit. */
  lemma WrapsExactly(levels: seq<int>, n: nat)
    requires levels != [] ==> 0 <= levels[|levels| - 1] < TWO_64
    ensures Wraps(levels, n) <==> !Room(levels, n)
  {
  }

  /** Putting a header's bytes back undoes taking them. */
  lemma Restored(levels: seq<int>, h: nat)
    requires Room(levels, h) && (levels != [] ==> levels[|levels| - 1] < TWO_64)
    ensures levels != [] ==> 0 <= Deduct(levels, h)[|levels| - 1] <= levels[|levels| - 1]
                             && Deduct(levels, h)[|levels| - 1 := Deduct(levels, h)[|levels| - 1] + h] == levels
  {
  }

  /** The ways a read can fail. */
  predicate ReadError(e: Error) { e == ElemTooLarge || e == ValueTooLarge || e == UnexpectedEOF }

  /** s begins with the digits of a long size: no leading zero and at least 56. */
  ghost predicate GoodSize(s: seq<byte>, width: nat)
  {
    1 <= width <= |s| && s[0] != 0 && FromBytes(s[..width]) >= 56
  }

  lemma SingleDigit(d: seq<byte>)
    requires |d| == 1
    ensures FromBytes(d) == d[0]
  {
    assert d[..0] == [] && FromBytes(d) == FromBytes(d[..0]) * 256 + d[0];
  }

  lemma GoodSizeDigits(s: seq<byte>, width: nat)
    requires GoodSize(s, width)
    ensures ToBytes(FromBytes(s[..width])) == s[..width]
  {
    ToBytesOfFromBytes(s[..width]);
  }

  lemma GoodSizeOf(s: seq<byte>, v: nat)
    requires v >= 56 && ToBytes(v) <= s
    ensures GoodSize(s, |ToBytes(v)|) && FromBytes(s[..|ToBytes(v)|]) == v
  {
    FromBytesOfToBytes(v);
    assert s[..|ToBytes(v)|] == ToBytes(v);
  }

  /** How many size bytes follow a first byte. */
  function Width(b: byte): (w: nat)
    ensures w <= 8
  {
    if 0xB8 <= b < 0xC0 then b - 0xB7 else if b >= 0xF8 then b - 0xF7 else 0
  }

  /** A complete, minimal header is at the front of s. */
  ghost predicate GoodHead(s: seq<byte>)
  {
    s != [] && (Width(s[0]) > 0 ==> GoodSize(s[1..], Width(s[0])))
  }

  ghost function KindAt(s: seq<byte>): (k: Kind)
    requires s != []
  {
    if s[0] < 0x80 then ByteKind else if s[0] < 0xC0 then StringKind else ListKind
  }

  ghost function SizeAt(s: seq<byte>): (n: nat)
    requires GoodHead(s)
  {
    if Width(s[0]) > 0 then FromBytes(s[1..][..Width(s[0])])
    else if s[0] < 0x80 then 0
    else if s[0] < 0xC0 then s[0] - 0x80 else s[0] - 0xC0
  }

  ghost function ByteAt(s: seq<byte>): (b: byte)
    requires s != []
  {
    if s[0] < 0x80 then s[0] else 0
  }

  /** h is one whole header and this is what it says. */
  ghost predicate Cached(h: seq<byte>, k: Kind, size: nat, byteval: byte)
  {
    GoodHead(h) && |h| == 1 + Width(h[0]) && k == KindAt(h) && size == SizeAt(h) && byteval == ByteAt(h)
  }

  /** A header reads the same whatever follows it. */
  lemma HeadLocal(h: seq<byte>, x: seq<byte>)
    requires h != [] && |h| == 1 + Width(h[0])
    ensures GoodHead(h) <==> GoodHead(h + x)
    ensures GoodHead(h) ==> KindAt(h) == KindAt(h + x) && SizeAt(h) == SizeAt(h + x) && ByteAt(h) == ByteAt(h + x)
  {
    var w := Width(h[0]);
    assert (h + x)[1..][..w] == h[1..][..w];
  }

  /** The cached header is what the pending input begins with. */
  lemma CachedFront(h: seq<byte>, x: seq<byte>)
    requires GoodHead(h) && |h| == 1 + Width(h[0])
    ensures |h| == 1 + Width((h + x)[0]) && (h + x)[..|h|] == h && (h + x)[|h|..] == x
  {
  }

  lemma HeadSplit(s: seq<byte>)
    requires GoodHead(s)
    ensures var h := s[..1 + Width(s[0])];
            s == h + s[1 + Width(s[0])..] && Cached(h, KindAt(s), SizeAt(s), ByteAt(s))
  {
    var h := s[..1 + Width(s[0])];
    HeadLocal(h, s[1 + Width(s[0])..]);
    assert s == h + s[1 + Width(s[0])..];
  }

  /** A string in front of the input is announced and fits. */
  lemma StrWelcome(levels: seq<int>, s: seq<byte>, v: seq<byte>)
    requires EncStr(v) <= s && Room(levels, |EncStr(v)|) && |s| < TWO_64
    ensures Welcome(levels, s) && EncStr(v) != []
    ensures |v| == 1 && v[0] < 0x80 ==> KindAt(s) == ByteKind && ByteAt(s) == v[0]
    ensures !(|v| == 1 && v[0] < 0x80) ==>
              && KindAt(s) == StringKind && SizeAt(s) == |v|
              && |EncStr(v)| == 1 + Width(s[0]) + |v| && s[1 + Width(s[0])..][..|v|] == v
  {
    StrStarts(s, v);
    if |v| == 1 && v[0] < 0x80 {
      StartsGoodHead(s, ByteKind, 0, v[0]);
    } else {
      StartsGoodHead(s, StringKind, |v|, 0);
    }
  }

  /** Where the next value ends, by its header. */
  ghost function StringEnd(p: seq<byte>): (n: nat)
    requires GoodHead(p)
  {
    1 + Width(p[0]) + SizeAt(p)
  }

  /** A whole string that had to be written this way is ahead and fits. */
  ghost predicate StringAhead(levels: seq<int>, p: seq<byte>)
  {
    && GoodHead(p) && KindAt(p) != ListKind
    && Room(levels, StringEnd(p)) && StringEnd(p) <= |p|
    && (KindAt(p) == StringKind && SizeAt(p) == 1 ==> p[1 + Width(p[0])] >= 0x80)
  }

  ghost function StringAt(p: seq<byte>): (v: seq<byte>)
    requires GoodHead(p) && StringEnd(p) <= |p|
  {
    if KindAt(p) == ByteKind then [p[0]] else p[1 + Width(p[0])..][..SizeAt(p)]
  }

  lemma StringAheadSound(p: seq<byte>)
    requires StringAhead([], p)
    ensures EncStr(StringAt(p)) == p[..StringEnd(p)]
  {
    GoodHeadStarts(p);
    var w := 1 + Width(p[0]);
    if KindAt(p) == StringKind {
      assert p[..StringEnd(p)] == p[..w] + p[w..][..SizeAt(p)];
    }
  }

  /** A list with a payload of n bytes is ahead and fits. */
  ghost predicate ListAhead(levels: seq<int>, s: seq<byte>, n: nat)
  {
    ListHead(n) <= s && Room(levels, |ListHead(n)| + n) && |ListHead(n)| + n <= |s|
  }

  /** So is a list. */
  lemma ListWelcome(levels: seq<int>, s: seq<byte>, n: nat)
    requires n < TWO_64 && ListAhead(levels, s, n)
    ensures Welcome(levels, s) && KindAt(s) == ListKind && SizeAt(s) == n && |ListHead(n)| == 1 + Width(s[0])
  {
    assert Starts(s, ListKind, n, 0);
    StartsGoodHead(s, ListKind, n, 0);
  }

  /** A cached header is the encoding's own header. */
  lemma CachedBytes(h: seq<byte>, k: Kind, size: nat, b: byte)
    requires Cached(h, k, size, b)
    ensures h == HeaderBytes(k, size, b) && size < TWO_64
    ensures k == ByteKind ==> b < 0x80
  {
    GoodHeadStarts(h);
    assert h[..|h|] == h;
  }

  /** The list element to expect after n of them. */
  ghost function NextWanted(want: Option<seq<Tree>>, n: nat): (w: Option<Tree>)
  {
    if want.Some? && n < |want.value| then Some(want.value[n]) else None
  }

  lemma StillWanted(ts: seq<Tree>, n: nat, p: seq<byte>, rest: seq<byte>)
    requires n <= |ts| && EncAll(ts) <= p && p == EncAll(ts[..n]) + rest
    ensures n < |ts| ==> Enc(ts[n]) <= rest && |EncAll(ts[..n])| + |Enc(ts[n])| <= |EncAll(ts)|
    ensures n == |ts| ==> EncAll(ts[..n]) == EncAll(ts)
  {
    if n < |ts| {
      EncAllStep(ts, n);
      var a, b, c := EncAll(ts[..n]), Enc(ts[n]), EncAll(ts[n + 1..]);
      assert rest == p[|a|..];
      assert b == EncAll(ts)[|a|..|a| + |b|];
    } else {
      assert ts[..n] == ts;
    }
  }

  lemma EncAllSnoc(ts: seq<Tree>, t: Tree)
    ensures EncAll(ts + [t]) == EncAll(ts) + Enc(t)
  {
    EncAllConcat(ts, [t]);
    EncAllSingle(t);
  }

  /** The next value's header and payload fit the innermost list and the input. */
  ghost predicate Welcome(levels: seq<int>, s: seq<byte>)
  {
    && GoodHead(s)
    && Room(levels, 1 + Width(s[0])) && Room(levels, SizeAt(s))
    && 1 + Width(s[0]) + SizeAt(s) <= |s|
  }

  /** Reading a header byte by byte finds exactly the headers the encoding writes. */
  lemma GoodHeadStarts(s: seq<byte>)
    requires GoodHead(s)
    ensures Starts(s, KindAt(s), SizeAt(s), ByteAt(s))
    ensures HeaderBytes(KindAt(s), SizeAt(s), ByteAt(s)) == s[..1 + Width(s[0])]
  {
    if Width(s[0]) > 0 {
      LongHeadStarts(s);
    } else {
      HeadFirst(SizeAt(s));
      assert s[..1] == [s[0]];
    }
  }

  lemma LongHeadStarts(s: seq<byte>)
    requires GoodHead(s) && Width(s[0]) > 0
    ensures Starts(s, KindAt(s), SizeAt(s), ByteAt(s))
    ensures HeaderBytes(KindAt(s), SizeAt(s), ByteAt(s)) == s[..1 + Width(s[0])]
  {
    var w := Width(s[0]);
    var d := s[1..][..w];
    GoodSizeDigits(s[1..], w);
    SizeBound(d);
    HeadFirst(FromBytes(d));
    assert s[..1 + w] == [s[0]] + d;
  }

  lemma SizeBound(d: seq<byte>)
    requires |d| <= 8
    ensures FromBytes(d) < TWO_64
  {
    FromBytesBound(d);
    Pow256Monotone(|d|, 8);
    Pow256Values();
  }

  lemma StartsGoodHead(s: seq<byte>, k: Kind, n: nat, b: byte)
    requires Starts(s, k, n, b)
    ensures GoodHead(s) && k == KindAt(s) && n == SizeAt(s) && b == ByteAt(s)
    ensures |HeaderBytes(k, n, b)| == 1 + Width(s[0])
  {
    HeadFirst(n);
    var h := HeaderBytes(k, n, b);
    assert s[0] == h[0];
    if n >= 56 {
      assert h[1..] == ToBytes(n) <= s[1..];
      GoodSizeOf(s[1..], n);
    }
  }

  class Stream {
    var input: seq<byte>
    var remaining: uint64
    var limited: bool
    var stack: seq<uint64>
    var kind: Option<Kind>
    var size: uint64
    var kinderr: Option<Error>
    var byteval: byte
    ghost var ahead: seq<byte>  // the header bytes behind a cached kind

    /** The state between two operations that went well. */
    ghost predicate Valid()
      reads this
    {
      && |ahead| + |input| < MAX_LEN
      && (limited ==> remaining == |input|)
      && (stack != [] ==> stack[|stack| - 1] + |ahead| < TWO_64)
      && (kind == None ==> ahead == [])
      && (kind != None ==> kinderr == None && Cached(ahead, kind.value, size, byteval))
    }

    /** The input from the start of the next value on, its cached header included. */
    ghost function Pending(): (s: seq<byte>)
      reads this
    {
      if ahead == [] then input else ahead + input
    }

    /** The list limits as they were before the cached header was read. */
    ghost function Levels(): (st: seq<int>)
      reads this
    {
      var st: seq<int> := stack;
      if st == [] || ahead == [] then st else st[|st| - 1 := st[|st| - 1] + |ahead|]
    }

    /** Everything in the innermost list has been read. */
    ghost predicate AtEnd()
      reads this
    {
      kind == None && stack != [] && stack[|stack| - 1] == 0
    }

    /** Reset on a slice reader; a zero limit means no limit at all. */
    constructor (b: seq<byte>, inputLimit: uint64)
      requires |b| < MAX_LEN && (inputLimit > 0 ==> inputLimit == |b|)
      ensures Valid() && Pending() == b && stack == [] && kind == None && limited == (inputLimit > 0)
    {
      input := b;
      remaining := inputLimit;
      limited := inputLimit > 0;
      stack, kind, size, kinderr, byteval, ahead := [], None, 0, None, 0, [];
    }

    /** Checks n against the limits before a read, and takes it from them. */
    method WillRead(n: uint64) returns (err: Option<Error>)
      modifies this
      ensures input == old(input) && limited == old(limited) && ahead == old(ahead) && |stack| == |old(stack)|
      ensures kind == None && size == old(size) && kinderr == old(kinderr) && byteval == old(byteval)
      ensures err == None <==> Room(old(stack), n) && (limited ==> n <= old(remaining))
      ensures err == None ==> stack == Deduct(old(stack), n) && (limited ==> remaining == old(remaining) - n)
      ensures err == None || err == Some(if Room(old(stack), n) then ValueTooLarge else ElemTooLarge)
    {
      kind := None;
      if stack != [] {
        var limit := stack[|stack| - 1];
        if n > limit {
          return Some(ElemTooLarge);
        }
        stack := stack[|stack| - 1 := limit - n];
      }
      if limited {
        if n > remaining {
          return Some(ValueTooLarge);
        }
        remaining := remaining - n;
      }
      return None;
    }

    /** Reads exactly n bytes, or fails. */
    method ReadFull(n: uint64) returns (r: Result<seq<byte>, Error>)
      requires limited ==> remaining == |input|
      modifies this
      ensures limited == old(limited) && ahead == old(ahead)
      ensures kind == None && size == old(size) && kinderr == old(kinderr) && byteval == old(byteval)
      ensures r.Ok? <==> Room(old(stack), n) && n <= |old(input)|
      ensures r.Ok? ==>
                && r.value == old(input)[..n] && input == old(input)[n..]
                && stack == Deduct(old(stack), n) && (limited ==> remaining == |input|)
      ensures r.Err? ==> ReadError(r.error)
    {
      var err := WillRead(n);
      if err != None {
        return Err(err.value);
      }
      var buf, eof := [], false;
      while |buf| < n && !eof
        invariant old(input) == buf + input && |buf| <= n
        invariant eof ==> |buf| < n && input == []
        invariant limited == old(limited) && ahead == old(ahead) && stack == Deduct(old(stack), n)
        invariant kind == None && size == old(size) && kinderr == old(kinderr) && byteval == old(byteval)
        invariant limited ==> remaining == |old(input)| - n
        decreases |input|, !eof
      {
        if |input| == 0 {
          eof := true;
        } else {
          var k := if n - |buf| < |input| then n - |buf| else |input|;
          buf, input := buf + input[..k], input[k..];
        }
      }
      if eof {
        return Err(UnexpectedEOF);
      }
      return Ok(buf);
    }

    method ReadByte() returns (r: Result<byte, Error>)
      requires limited ==> remaining == |input|
      modifies this
      ensures limited == old(limited) && ahead == old(ahead) && |stack| == |old(stack)|
      ensures kind == None && size == old(size) && kinderr == old(kinderr) && byteval == old(byteval)
      ensures r.Ok? <==> Room(old(stack), 1) && 1 <= |old(input)|
      ensures r.Ok? ==>
                && r.value == old(input)[0] && input == old(input)[1..]
                && stack == Deduct(old(stack), 1) && (limited ==> remaining == |input|)
      ensures r.Err? ==> ReadError(r.error)
      ensures old(input) == [] && old(stack) == [] ==> r == Err(if limited then ValueTooLarge else UnexpectedEOF)
    {
      var err := WillRead(1);
      if err != None {
        return Err(err.value);
      }
      if |input| == 0 {
        return Err(UnexpectedEOF);
      }
      r := Ok(input[0]);
      input := input[1..];
    }

    /** Reads a big-endian number of the given width; wider than one byte, it must not
        start with a zero. */
    method ReadUint(width: nat) returns (r: Result<uint64, Error>)
      requires width <= 8
      requires limited ==> remaining == |input|
      modifies this
      ensures limited == old(limited) && ahead == old(ahead)
      ensures kind == None && size == old(size) && kinderr == old(kinderr) && byteval == old(byteval)
      ensures r.Ok? <==> Room(old(stack), width) && width <= |old(input)| && (width >= 2 ==> old(input)[0] != 0)
      ensures r.Ok? ==>
                && r.value == FromBytes(old(input)[..width]) && input == old(input)[width..]
                && stack == Deduct(old(stack), width) && (limited ==> remaining == |input|)
      ensures r.Err? ==> ReadError(r.error) || r.error == CanonSize
      ensures r == Err(CanonSize) ==> width >= 2 && width <= |old(input)| && old(input)[0] == 0
    {
      if width == 0 {
        kind := None;
        return Ok(0);
      }
      if width == 1 {
        var b := ReadByte();
        if b.Err? {
          return Err(b.error);
        }
        assert old(input)[..1][..0] == [];
        return Ok(b.value);
      }
      var b := ReadFull(width);
      if b.Err? {
        return Err(b.error);
      }
      if b.value[0] == 0 {
        return Err(CanonSize);
      }
      var buffer := Zeros(8 - width) + b.value;
      FromBytesBound(buffer);
      FromBytesPadded(8 - width, b.value);
      Pow256Values();
      return Ok(FromBytes(buffer));
    }

    /** The size field of a long header: at least 56, no leading zero. */
    method ReadSize(width: nat) returns (r: Result<uint64, Error>)
      requires 1 <= width <= 8
      requires limited ==> remaining == |input|
      modifies this
      ensures limited == old(limited) && ahead == old(ahead)
      ensures kind == None && size == old(size) && kinderr == old(kinderr) && byteval == old(byteval)
      ensures r.Ok? <==> GoodSize(old(input), width) && Room(old(stack), width)
      ensures r.Ok? ==>
                && r.value == FromBytes(old(input)[..width]) && input == old(input)[width..]
                && stack == Deduct(old(stack), width) && (limited ==> remaining == |input|)
      ensures r.Err? ==> ReadError(r.error) || r.error == CanonSize
    {
      r := ReadUint(width);
      if width == 1 && |old(input)| >= 1 {
        SingleDigit(old(input)[..1]);
      }
      if r.Ok? && r.value < 56 {
        r := Err(CanonSize);
      }
    }

    /** Reads the header of the next value. */
    method ReadKind() returns (k: Kind, sz: uint64, err: Option<Error>)
      requires kind == None && (limited ==> remaining == |input|)
      modifies this
      ensures limited == old(limited) && ahead == old(ahead) && kind == None
      ensures err == None <==> GoodHead(old(input)) && Room(old(stack), 1 + Width(old(input)[0]))
      ensures err == None ==>
                && k == KindAt(old(input)) && sz == SizeAt(old(input)) && byteval == ByteAt(old(input))
                && input == old(input)[1 + Width(old(input)[0])..]
                && stack == Deduct(old(stack), 1 + Width(old(input)[0]))
                && (limited ==> remaining == |input|)
      ensures err != Some(EOL)
      ensures old(input) == [] && old(stack) == [] ==> err == Some(EOF)
    {
      k, sz := ByteKind, 0;
      var b := ReadByte();
      if b.Err? {
        err := Some(if stack == [] && (b.error == UnexpectedEOF || b.error == ValueTooLarge) then EOF else b.error);
        return;
      }
      byteval, err := 0, None;
      if b.value < 0x80 {
        byteval := b.value;
      } else if b.value < 0xB8 {
        k, sz := StringKind, b.value - 0x80;
      } else if b.value < 0xC0 {
        k := StringKind;
        sz, err := ReadLong(b.value - 0xB7, old(stack));
      } else if b.value < 0xF8 {
        k, sz := ListKind, b.value - 0xC0;
      } else {
        k := ListKind;
        sz, err := ReadLong(b.value - 0xF7, old(stack));
      }
    }

    /** The size bytes of a long header whose first byte has been read. */
    method ReadLong(width: nat, ghost before: seq<uint64>) returns (sz: uint64, err: Option<Error>)
      requires 1 <= width <= 8 && (limited ==> remaining == |input|)
      requires stack == Deduct(before, 1) && Room(before, 1)
      modifies this
      ensures limited == old(limited) && ahead == old(ahead) && byteval == old(byteval) && kind == None
      ensures err == None <==> GoodSize(old(input), width) && Room(before, 1 + width)
      ensures err == None ==>
                && sz == FromBytes(old(input)[..width]) && input == old(input)[width..]
                && stack == Deduct(before, 1 + width) && (limited ==> remaining == |input|)
      ensures err != Some(EOL)
    {
      RoomAfter(before, 1, width);
      DeductTwice(before, 1, width);
      var r := ReadSize(width);
      if r.Ok? {
        sz, err := r.value, None;
      } else {
        sz, err := 0, Some(r.error);
      }
    }

    /** The kind and size of the next value; reads its header the first time only. */
    method NextKind() returns (k: Kind, sz: uint64, err: Option<Error>)
      requires Valid()
      modifies this
      ensures limited == old(limited)
      ensures err == None ==> Valid() && kind == Some(k) && size == sz && Pending() == old(Pending()) && Levels() == old(Levels())
      ensures err == None ==> GoodHead(Pending()) && k == KindAt(Pending()) && sz == SizeAt(Pending())
      ensures Welcome(old(Levels()), old(Pending())) && !old(AtEnd()) ==> err == None
      ensures err == Some(EOL) <==> old(AtEnd())
      ensures err == Some(EOL) ==> Valid() && kind == None && Pending() == old(Pending()) && stack == old(stack)
      ensures old(Pending()) == [] && old(stack) == [] ==> err == Some(EOF)
    {
      if kind != None {
        HeadLocal(ahead, input);
        return kind.value, size, kinderr;
      }
      if stack != [] && stack[|stack| - 1] == 0 {
        return ByteKind, 0, Some(EOL);
      }
      assert Pending() == input && Levels() == stack;
      k, sz, err := FreshKind();
      if err == None {
        HeadSplit(old(input));
        Restored(old(stack), |ahead|);
      }
    }

    /** Reads a header and checks the size it announces: against the list limit as it was
        before the header was read, and against the input. */
    method FreshKind() returns (k: Kind, sz: uint64, err: Option<Error>)
      requires Valid() && kind == None && !AtEnd()
      modifies this
      ensures limited == old(limited) && err != Some(EOL)
      ensures err == None <==>
                && GoodHead(old(input)) && Room(old(stack), 1 + Width(old(input)[0]))
                && Room(old(stack), SizeAt(old(input)))
                && (limited ==> 1 + Width(old(input)[0]) + SizeAt(old(input)) <= |old(input)|)
      ensures err == None ==>
                && kind == Some(k) && k == KindAt(old(input)) && size == sz == SizeAt(old(input))
                && byteval == ByteAt(old(input)) && kinderr == None
                && ahead == old(input)[..1 + Width(old(input)[0])] && input == old(input)[1 + Width(old(input)[0])..]
                && stack == Deduct(old(stack), |ahead|) && Room(old(stack), |ahead|)
                && (limited ==> remaining == |input|)
      ensures old(input) == [] && old(stack) == [] ==> err == Some(EOF)
    {
      var inList := stack != [];
      var listLimit := if inList then stack[|stack| - 1] else 0;
      k, sz, err := ReadKind();
      if err == None {
        ahead := old(input)[..1 + Width(old(input)[0])];
        if inList && sz > listLimit {
          err := Some(ElemTooLarge);
        } else if limited && sz > remaining {
          err := Some(ValueTooLarge);
        }
      }
      kind, size, kinderr := Some(k), sz, err;
    }

    /** Reads a string value: the one string whose encoding is ahead and fits, if there is one. */
    method Bytes() returns (r: Result<seq<byte>, Error>)
      requires Valid()
      modifies this
      ensures limited == old(limited)
      ensures r.Ok? ==> Consumed(old(Pending()), old(Levels()), EncStr(r.value))
      ensures forall v :: EncStr(v) <= old(Pending()) && Room(old(Levels()), |EncStr(v)|) ==> r == Ok(v)
      ensures r == Err(EOL) <==> old(AtEnd())
    {
      ghost var p, levels := Pending(), Levels();
      r := ReadString();
      if r.Ok? {
        StringAheadSound(p);
      }
      forall v | EncStr(v) <= p && Room(levels, |EncStr(v)|)
        ensures r == Ok(v)
      {
        StrWelcome(levels, p, v);
        assert |v| == 1 ==> v == [v[0]];
      }
    }

    /** Reads a string value, in terms of what its header says. */
    method ReadString() returns (r: Result<seq<byte>, Error>)
      requires Valid()
      modifies this
      ensures limited == old(limited)
      ensures !old(AtEnd()) && StringAhead(old(Levels()), old(Pending())) ==> r.Ok?
      ensures r.Ok? ==> StringAhead([], old(Pending()))
      ensures r.Ok? ==> r.value == StringAt(old(Pending()))
      ensures r.Ok? ==> Consumed(old(Pending()), old(Levels()), old(Pending())[..StringEnd(old(Pending()))])
      ensures r == Err(EOL) <==> old(AtEnd())
    {
      var k, sz, err := NextKind();
      if err != None {
        r := Err(err.value);
      } else if k == ListKind {
        r := Err(ExpectedString);
      } else {
        r := ByteOrString(k);
      }
    }

    /** The string whose header, or whose one byte, is cached. */
    method ByteOrString(k: Kind) returns (r: Result<seq<byte>, Error>)
      requires Valid() && kind == Some(k) && k != ListKind
      modifies this
      ensures limited == old(limited)
      ensures var p := old(Pending());
              && (StringAhead(old(Levels()), p) ==> r.Ok?)
              && (r.Ok? ==> StringAhead([], p) && r.value == StringAt(p) && Consumed(p, old(Levels()), p[..StringEnd(p)]))
      ensures r != Err(EOL)
    {
      if k == ByteKind {
        HeadLocal(ahead, input);
        TakeByte();
        r := Ok([byteval]);
      } else {
        r := StringContent();
      }
    }

    /** The content of a string whose header is cached, unless one byte would have done. */
    method StringContent() returns (r: Result<seq<byte>, Error>)
      requires Valid() && kind == Some(StringKind)
      modifies this
      ensures limited == old(limited)
      ensures var p := old(Pending());
              && GoodHead(p) && KindAt(p) == StringKind
              && (StringAhead(old(Levels()), p) ==> r.Ok?)
              && (r.Ok? ==> StringAhead([], p) && r.value == StringAt(p) && Consumed(p, old(Levels()), p[..StringEnd(p)]))
      ensures r != Err(EOL)
    {
      CachedFront(ahead, input);
      HeadLocal(ahead, input);
      var sz := size;
      r := Content();
      if r.Ok? && sz == 1 && r.value[0] < 128 {
        r := Err(CanonSize);
      }
    }

    /** Consumes a value that is a single byte (rearms Kind). */
    method TakeByte()
      requires Valid() && kind == Some(ByteKind)
      modifies this`kind, this`ahead
      ensures byteval < 0x80 && byteval == ByteAt(old(Pending())) && KindAt(old(Pending())) == ByteKind
      ensures Consumed(old(Pending()), old(Levels()), [byteval])
    {
      HeadLocal(ahead, input);
      CachedBytes(ahead, ByteKind, size, byteval);
      LevelsTaken();
      kind, ahead := None, [];
    }

    /** Reads the payload behind a cached header, whatever is in it. */
    method Content() returns (r: Result<seq<byte>, Error>)
      requires Valid() && kind != None && kind != Some(ByteKind)
      modifies this
      ensures limited == old(limited)
      ensures var p, levels, h := old(Pending()), old(Levels()), old(ahead);
              && p == h + old(input)
              && (Room(levels, |h| + old(size)) && |h| + old(size) <= |p| ==> r.Ok?)
              && (r.Ok? ==> |h| + old(size) <= |p| && r.value == p[|h|..][..old(size)] && Consumed(p, levels, p[..|h| + old(size)]))
      ensures r.Err? ==> ReadError(r.error)
    {
      ghost var p, levels, h, rest := Pending(), Levels(), ahead, input;
      LevelsTaken();
      assert p[|h|..] == rest;
      r := ReadFull(size);
      if r.Ok? {
        ahead := [];
        CutFront(p, h, rest, size);
        DeductTwice(levels, |h|, size);
        ghost var e := p[..|h| + size];
        assert stack == Deduct(levels, |e|);
      }
    }

    /** Exactly e was taken off the front of the input and off the innermost limit. */
    ghost predicate Consumed(before: seq<byte>, levels: seq<int>, e: seq<byte>)
      reads this
    {
      Valid() && kind == None && before == e + Pending() && stack == Deduct(levels, |e|)
    }

    /** The cached header has been taken from the limits. */
    lemma LevelsTaken()
      requires Valid()
      ensures stack == Deduct(Levels(), |ahead|)
    {
    }

    /** Reads an unsigned integer of at most the given number of bits: exactly the shortest
        big-endian encodings within that width are accepted. */
    method Uint(maxbits: nat) returns (r: Result<uint64, Error>)
      requires Valid() && (maxbits == 8 || maxbits == 16 || maxbits == 32 || maxbits == 64)
      modifies this
      ensures limited == old(limited)
      ensures r.Ok? ==> r.value < Pow256(maxbits / 8) && Consumed(old(Pending()), old(Levels()), EncInt(r.value))
      ensures forall v: nat :: v < Pow256(maxbits / 8) && EncInt(v) <= old(Pending()) && Room(old(Levels()), |EncInt(v)|) ==> r == Ok(v)
      ensures r == Err(EOL) <==> old(AtEnd())
    {
      ghost var p, levels := Pending(), Levels();
      r := ReadInt(maxbits / 8);
      if r.Ok? {
        IntAheadSound(p);
        ToBytesLength(r.value, maxbits / 8);
      }
      forall v: nat | v < Pow256(maxbits / 8) && EncInt(v) <= p && Room(levels, |EncInt(v)|)
        ensures r == Ok(v)
      {
        IntAheadComplete(levels, p, v);
        ToBytesLength(v, maxbits / 8);
      }
    }

    method ReadInt(maxBytes: nat) returns (r: Result<uint64, Error>)
      requires Valid() && 1 <= maxBytes <= 8
      modifies this
      ensures limited == old(limited)
      ensures !old(AtEnd()) && IntAhead(old(Levels()), old(Pending())) && |StringAt(old(Pending()))| <= maxBytes ==> r.Ok?
      ensures r.Ok? ==> IntRead(old(Pending()), old(Levels()), r.value) && |StringAt(old(Pending()))| <= maxBytes
      ensures r == Err(EOL) <==> old(AtEnd())
    {
      var k, sz, err := NextKind();
      if err != None {
        r := Err(err.value);
      } else if k == ListKind {
        r := Err(ExpectedString);
      } else {
        r := ByteOrInt(k, sz, maxBytes);
      }
    }

    /** The integer whose header, or whose one byte, is cached. */
    method ByteOrInt(k: Kind, sz: uint64, maxBytes: nat) returns (r: Result<uint64, Error>)
      requires Valid() && kind == Some(k) && k != ListKind && size == sz && 1 <= maxBytes <= 8
      requires GoodHead(Pending()) && k == KindAt(Pending()) && sz == SizeAt(Pending())
      modifies this
      ensures limited == old(limited)
      ensures IntAhead(old(Levels()), old(Pending())) && |StringAt(old(Pending()))| <= maxBytes ==> r.Ok?
      ensures r.Ok? ==> IntRead(old(Pending()), old(Levels()), r.value) && |StringAt(old(Pending()))| <= maxBytes
      ensures r != Err(EOL)
    {
      if k == ByteKind {
        r := IntByte();
      } else if sz > maxBytes {
        r := Err(UintOverflow);
      } else {
        r := IntContent();
      }
    }

    /** An integer that is a single byte. */
    method IntByte() returns (r: Result<uint64, Error>)
      requires Valid() && kind == Some(ByteKind)
      modifies this`kind, this`ahead
      ensures var p := old(Pending());
              && GoodHead(p) && KindAt(p) == ByteKind
              && (IntAhead(old(Levels()), p) ==> r.Ok?)
              && (r.Ok? ==> IntRead(p, old(Levels()), r.value))
      ensures r != Err(EOL)
    {
      HeadLocal(ahead, input);
      SingleDigit([byteval]);
      if byteval == 0 {
        r := Err(CanonInt);
      } else {
        TakeByte();
        r := Ok(byteval);
      }
    }

    /** The integer behind a cached string header. */
    method IntContent() returns (r: Result<uint64, Error>)
      requires Valid() && kind == Some(StringKind) && size <= 8
      modifies this
      ensures limited == old(limited)
      ensures IntAhead(old(Levels()), old(Pending())) ==> r.Ok?
      ensures r.Ok? ==> IntRead(old(Pending()), old(Levels()), r.value)
      ensures r != Err(EOL)
    {
      ghost var p, levels, h, rest := Pending(), Levels(), ahead, input;
      LevelsTaken();
      DeductRoom(levels, |h|, size);
      var sz := size;
      var v := ReadUint(sz);
      r := Judged(v, sz);
      JudgedRight(levels, h, rest, sz, v);
      if v.Ok? {
        ahead := [];
        CutFront(p, h, rest, sz);
        DeductTwice(levels, |h|, sz);
        assert stack == Deduct(levels, |h| + sz);
        ghost var e := p[..|h| + sz];
        assert |e| == |h| + sz;
      }
    }

    /** A string without a leading zero was consumed, and v is its value. */
    ghost predicate IntRead(before: seq<byte>, levels: seq<int>, v: nat)
      reads this
    {
      IntAhead([], before) && v == FromBytes(StringAt(before)) && Consumed(before, levels, before[..StringEnd(before)])
    }

    /** Reads an integer of any size. */
    method BigInt() returns (r: Result<nat, Error>)
      requires Valid()
      modifies this
      ensures limited == old(limited)
      ensures r.Ok? ==> Consumed(old(Pending()), old(Levels()), EncInt(r.value))
      ensures forall v: nat :: EncInt(v) <= old(Pending()) && Room(old(Levels()), |EncInt(v)|) ==> r == Ok(v)
      ensures r == Err(EOL) <==> old(AtEnd())
    {
      ghost var p, levels := Pending(), Levels();
      var buffer := ReadBigBytes();
      if buffer.Err? {
        r := Err(buffer.error);
      } else if |buffer.value| > 0 && buffer.value[0] == 0 {
        r := Err(CanonInt);
      } else {
        r := Ok(FromBytes(buffer.value));
        IntAheadSound(p);
      }
      forall v: nat | EncInt(v) <= p && Room(levels, |EncInt(v)|)
        ensures r == Ok(v)
      {
        IntAheadComplete(levels, p, v);
      }
    }

    /** The bytes of a big integer, leading zeros not yet checked. */
    method ReadBigBytes() returns (r: Result<seq<byte>, Error>)
      requires Valid()
      modifies this
      ensures limited == old(limited)
      ensures !old(AtEnd()) && StringAhead(old(Levels()), old(Pending())) ==> r.Ok?
      ensures r.Ok? ==> StringAhead([], old(Pending())) && r.value == StringAt(old(Pending()))
      ensures r.Ok? ==> Consumed(old(Pending()), old(Levels()), old(Pending())[..StringEnd(old(Pending()))])
      ensures r == Err(EOL) <==> old(AtEnd())
    {
      var k, sz, err := NextKind();
      if err != None {
        r := Err(err.value);
      } else if k == ListKind {
        r := Err(ExpectedString);
      } else {
        r := ByteOrString(k);
      }
    }

    /** Reads a whole encoded value, header included. The header was consumed with Kind, so it
        is written again; only minimal headers pass, so it comes out as it was. */
    method Raw() returns (r: Result<seq<byte>, Error>)
      requires Valid()
      modifies this
      ensures limited == old(limited)
      ensures r.Ok? ==> GoodHead(old(Pending())) && |r.value| == StringEnd(old(Pending()))
                        && Consumed(old(Pending()), old(Levels()), r.value)
      ensures forall t :: Enc(t) <= old(Pending()) && Room(old(Levels()), |Enc(t)|) ==> r == Ok(Enc(t))
      ensures r == Err(EOL) <==> old(AtEnd())
    {
      ghost var p, levels := Pending(), Levels();
      var k, sz, err := NextKind();
      if err != None {
        r := Err(err.value);
      } else if k == ByteKind {
        TakeByte();
        r := Ok([byteval]);
      } else {
        r := RawContent();
      }
      forall t | Enc(t) <= p && Room(levels, |Enc(t)|)
        ensures r == Ok(Enc(t))
      {
        RawComplete(levels, p, t);
      }
    }

    /** A payload with its cached header written in front again. */
    method RawContent() returns (r: Result<seq<byte>, Error>)
      requires Valid() && kind != None && kind != Some(ByteKind)
      modifies this
      ensures limited == old(limited)
      ensures var p := old(Pending());
              && GoodHead(p) && SizeAt(p) == old(size)
              && (Room(old(Levels()), StringEnd(p)) && StringEnd(p) <= |p| ==> r.Ok?)
              && (r.Ok? ==> StringEnd(p) <= |p| && r.value == p[..StringEnd(p)] && Consumed(p, old(Levels()), r.value))
      ensures r != Err(EOL)
    {
      ghost var p, h := Pending(), ahead;
      CachedFront(h, input);
      HeadLocal(h, input);
      CachedBytes(h, kind.value, size, byteval);
      var k, sz := kind.value, size;
      r := Content();
      if r.Ok? {
        var raw := PutBack(k, sz, r.value);
        CutFront(p, h, p[|h|..], sz);
        r := Ok(raw);
      }
    }

    /** Enters a list. The outer limit loses the inner list's size at once, and wraps exactly if the
        header and the inner list together do not fit what was left before the header. */
    method ListStart() returns (r: Result<uint64, Error>)
      requires Valid()
      modifies this
      ensures limited == old(limited)
      ensures r.Ok? ==>
                && Valid() && kind == None && old(Pending()) == ListHead(r.value) + Pending()
                && stack == Deduct(old(Levels()), |ListHead(r.value)| + r.value) + [r.value]
      ensures r.Ok? ==>
                (Wraps(old(Levels()), |ListHead(r.value)| + r.value) <==> !Room(old(Levels()), |ListHead(r.value)| + r.value))
      ensures forall n: uint64 :: ListAhead(old(Levels()), old(Pending()), n) ==> r == Ok(n)
      ensures r == Err(EOL) <==> old(AtEnd())
    {
      ghost var p, levels := Pending(), Levels();
      r := ReadListHead();
      if r.Ok? {
        GoodHeadStarts(p);
        assert p == p[..1 + Width(p[0])] + Pending();
        WrapsExactly(levels, |ListHead(r.value)| + r.value);
      }
      forall n: uint64 | ListAhead(levels, p, n)
        ensures r == Ok(n)
      {
        ListWelcome(levels, p, n);
      }
    }

    /** Enters a list, in terms of what its header says. */
    method ReadListHead() returns (r: Result<uint64, Error>)
      requires Valid()
      modifies this
      ensures limited == old(limited)
      ensures var p := old(Pending());
              r.Ok? ==>
                && Valid() && kind == None && ahead == [] && GoodHead(p) && KindAt(p) == ListKind && r.value == SizeAt(p)
                && input == p[1 + Width(p[0])..]
                && stack == Deduct(old(Levels()), 1 + Width(p[0]) + r.value) + [r.value]
      ensures Welcome(old(Levels()), old(Pending())) && KindAt(old(Pending())) == ListKind && !old(AtEnd()) ==> r.Ok?
      ensures r == Err(EOL) <==> old(AtEnd())
    {
      ghost var p, levels := Pending(), Levels();
      var k, sz, err := NextKind();
      if err != None {
        r := Err(err.value);
      } else if k != ListKind {
        r := Err(ExpectedList);
      } else {
        ghost var h := ahead;
        CachedFront(ahead, input);
        PushList();
        r := Ok(sz);
        assert Deduct(levels, |h| + sz) == Deduct(levels, 1 + Width(p[0]) + sz);
      }
    }

    /** The stack update of ListStart. */
    method PushList()
      requires Valid() && kind == Some(ListKind)
      modifies this`stack, this`kind, this`size, this`ahead
      ensures Valid() && kind == None && ahead == [] && old(Pending()) == old(ahead) + input && input == old(input)
      ensures stack == Deduct(old(Levels()), |old(ahead)| + old(size)) + [old(size)]
    {
      var sz := size;
      LevelsTaken();
      DeductTwice(Levels(), |ahead|, sz);
      ghost var taken := Deduct(stack, sz);
      if stack != [] {
        var limit := stack[|stack| - 1];
        stack := stack[|stack| - 1 := (limit - sz) % TWO_64];
      }
      assert stack == taken;
      stack := stack + [sz];
      kind, size, ahead := None, 0, [];
    }

    /** Leaves a list whose content has all been read. */
    method ListEnd() returns (err: Option<Error>)
      requires Valid() && kind == None
      modifies this
      ensures limited == old(limited)
      ensures err == None <==> old(AtEnd())
      ensures err == None ==> Valid() && kind == None && Pending() == old(Pending()) && stack == old(stack)[..|old(stack)| - 1]
      ensures err != Some(EOL)
    {
      if stack == [] {
        return Some(NotInList);
      } else if stack[|stack| - 1] > 0 {
        return Some(NotAtEOL);
      }
      stack := stack[..|stack| - 1];
      kind, size := None, 0;
      return None;
    }

    // ---- decoding into an empty interface ------------------------------------------------

    /** Decodes the next value, string or list. The ghost argument names a value known to be
        at the front of the input and to fit the innermost list; decoding then finds it. */
    method DecodeInterface(ghost want: Option<Tree>) returns (r: Result<Tree, Error>)
      requires Valid() && Wanted(want)
      modifies this
      ensures limited == old(limited)
      ensures r.Ok? ==> Consumed(old(Pending()), old(Levels()), Enc(r.value))
      ensures want.Some? ==> r == Ok(want.value)
      ensures r == Err(EOL) <==> old(AtEnd())
      ensures r == Err(EOL) ==> Valid() && kind == None && Pending() == old(Pending()) && stack == old(stack)
      ensures old(Pending()) == [] && old(stack) == [] ==> r == Err(EOF)
      decreases |Pending()|, 1
    {
      ghost var p, levels := Pending(), Levels();
      if want.Some? {
        WantedWelcome(want.value);
      }
      var k, sz, err := NextKind();
      if err != None {
        return Err(err.value);
      }
      if k == ListKind {
        var items := DecodeListSlice(if want.Some? then Some(want.value.items) else None);
        if items.Err? {
          return Err(items.error);
        }
        return Ok(List(items.value));
      }
      var b := Bytes();
      if b.Err? {
        return Err(b.error);
      }
      return Ok(Str(b.value));
    }

    /** The wanted value is ahead and fits. */
    ghost predicate Wanted(want: Option<Tree>)
      reads this
    {
      want.Some? ==> Enc(want.value) <= Pending() && Room(Levels(), |Enc(want.value)|)
    }

    lemma WantedWelcome(t: Tree)
      requires Valid() && Wanted(Some(t))
      ensures Welcome(Levels(), Pending()) && !AtEnd() && (KindAt(Pending()) == ListKind <==> t.List?)
    {
      match t
      case Str(b) => StrWelcome(Levels(), Pending(), b);
      case List(ts) => ListWelcome(Levels(), Pending(), |EncAll(ts)|);
    }

    /** Decodes a list into a slice. */
    method DecodeListSlice(ghost want: Option<seq<Tree>>) returns (r: Result<seq<Tree>, Error>)
      requires Valid() && kind == Some(ListKind)
      requires want.Some? ==> Wanted(Some(List(want.value)))
      modifies this
      ensures limited == old(limited)
      ensures r.Ok? ==> Consumed(old(Pending()), old(Levels()), Enc(List(r.value)))
      ensures want.Some? ==> r == Ok(want.value)
      ensures r != Err(EOL)
      decreases |Pending()|, 0
    {
      ghost var p, levels := Pending(), Levels();
      var size := EnterList(want);
      if size.Err? {
        r := Err(size.error);
      } else {
        r := ListRest(size.value, want, p, levels);
      }
    }

    /** The rest of a list whose header was in front of p. */
    method ListRest(size: uint64, ghost want: Option<seq<Tree>>, ghost p: seq<byte>, ghost levels: seq<int>)
      returns (r: Result<seq<Tree>, Error>)
      requires Valid() && kind == None && p == ListHead(size) + Pending()
      requires stack == Deduct(levels, |ListHead(size)| + size) + [size]
      requires want.Some? ==> size == |EncAll(want.value)| && EncAll(want.value) <= Pending()
      requires want.Some? && size == 0 ==> want.value == []
      modifies this
      ensures limited == old(limited)
      ensures r.Ok? ==> Consumed(p, levels, Enc(List(r.value)))
      ensures want.Some? ==> r == Ok(want.value)
      ensures r != Err(EOL)
      decreases |Pending()|, 5
    {
      ghost var base := Deduct(levels, |ListHead(size)| + size);
      r := ListContent(size, base, want);
      if r.Ok? {
        ListRead(p, size, r.value, Pending(), levels, base);
      }
    }

    /** Enters the next list; if one is wanted, that one. */
    method EnterList(ghost want: Option<seq<Tree>>) returns (size: Result<uint64, Error>)
      requires Valid() && kind == Some(ListKind)
      requires want.Some? ==> Wanted(Some(List(want.value)))
      modifies this
      ensures limited == old(limited) && size != Err(EOL)
      ensures size.Ok? ==>
                && Valid() && kind == None && old(Pending()) == ListHead(size.value) + Pending()
                && stack == Deduct(old(Levels()), |ListHead(size.value)| + size.value) + [size.value]
      ensures want.Some? ==>
                && size == Ok(|EncAll(want.value)|) && EncAll(want.value) <= Pending()
                && (size.value == 0 ==> want.value == [])
    {
      ghost var p, levels := Pending(), Levels();
      if want.Some? {
        ListAheadOf(levels, p, want.value);
      }
      size := ListStart();
    }

    /** The elements of a list that has been entered, none if its size is zero; and leaving it. */
    method ListContent(size: uint64, ghost base: seq<int>, ghost want: Option<seq<Tree>>) returns (r: Result<seq<Tree>, Error>)
      requires Valid() && kind == None && stack == base + [size]
      requires want.Some? ==> size == |EncAll(want.value)| && EncAll(want.value) <= Pending()
      requires want.Some? && size == 0 ==> want.value == []
      modifies this
      ensures limited == old(limited)
      ensures r.Ok? ==>
                && Valid() && kind == None && stack == base
                && size == |EncAll(r.value)| && old(Pending()) == EncAll(r.value) + Pending()
      ensures want.Some? ==> r == Ok(want.value)
      ensures r != Err(EOL)
      decreases |Pending()|, 4
    {
      r := Ok([]);
      if size > 0 {
        r := DecodeSliceElems(size, base, want);
        if r.Err? {
          return;
        }
      }
      var err := ListEnd();
      r := if err == None then r else Err(NotAtEOL);
    }

    /** Decodes elements until the list's limit is exactly used up. */
    method DecodeSliceElems(ghost size: uint64, ghost base: seq<int>, ghost want: Option<seq<Tree>>)
      returns (r: Result<seq<Tree>, Error>)
      requires Valid() && kind == None && stack == base + [size]
      requires want.Some? ==> size == |EncAll(want.value)| && EncAll(want.value) <= Pending()
      modifies this
      ensures limited == old(limited)
      ensures r.Ok? ==>
                && Valid() && kind == None && stack == base + [0]
                && size == |EncAll(r.value)| && old(Pending()) == EncAll(r.value) + Pending()
      ensures want.Some? ==> r == Ok(want.value)
      ensures r != Err(EOL)
      decreases |Pending()|, 3
    {
      var items := [];
      ghost var p, read := Pending(), [];
      while true
        invariant limited == old(limited)
        invariant InList(base, size, p, read) && read == EncAll(items)
        invariant want.Some? ==> |items| <= |want.value| && items == want.value[..|items|]
        decreases |Pending()|
      {
        ghost var w := NextWanted(want, |items|);
        if want.Some? {
          StillWanted(want.value, |items|, p, Pending());
        }
        var t := DecodeElem(base, size, p, read, w);
        if t.Err? {
          if t.error == EOL {
            break;
          }
          return Err(t.error);
        }
        EncAllSnoc(items, t.value);
        read := read + Enc(t.value);
        items := items + [t.value];
      }
      assert want.Some? ==> |items| == |want.value| && want.value[..|items|] == want.value;
      return Ok(items);
    }

    /** The given part of a list's payload has been read. */
    ghost predicate InList(base: seq<int>, size: uint64, p: seq<byte>, read: seq<byte>)
      reads this
    {
      && Valid() && kind == None && |p| < MAX_LEN
      && stack == base + [(size - |read|) % TWO_64]
      && p == read + Pending()
    }

    /** One element, or the end of the list. */
    method DecodeElem(ghost base: seq<int>, ghost size: uint64, ghost p: seq<byte>, ghost read: seq<byte>, ghost want: Option<Tree>)
      returns (t: Result<Tree, Error>)
      requires InList(base, size, p, read)
      requires want.Some? ==> Enc(want.value) <= Pending() && |read| + |Enc(want.value)| <= size
      modifies this
      ensures limited == old(limited)
      ensures t.Ok? ==> InList(base, size, p, read + Enc(t.value)) && |Pending()| < |old(Pending())|
      ensures t == Err(EOL) <==> size == |read|
      ensures t == Err(EOL) ==> InList(base, size, p, read)
      ensures want.Some? ==> t == Ok(want.value)
      decreases |Pending()|, 2
    {
      ghost var before := Pending();
      Unwrapped(size, |read|);
      t := DecodeInterface(want);
      if t.Ok? {
        ElemTaken(base, size, p, read, before, Enc(t.value), Pending());
      }
    }
  }

  /** One more element has been read. */
  lemma ElemTaken(base: seq<int>, size: uint64, p: seq<byte>, read: seq<byte>, before: seq<byte>, e: seq<byte>, rest: seq<byte>)
    requires p == read + before && before == e + rest
    ensures p == (read + e) + rest
    ensures Deduct(base + [(size - |read|) % TWO_64], |e|) == base + [(size - |read + e|) % TWO_64]
  {
    Assoc(read, e, rest);
    DeductSnoc(base, size - |read|, |e|);
  }

  /** A wrapped limit is far from zero: only the exact size uses a list up. */
  lemma Unwrapped(size: uint64, read: nat)
    requires read < TWO_64
    ensures (size - read) % TWO_64 == 0 <==> size == read
    ensures read <= size ==> (size - read) % TWO_64 == size - read
  {
  }

  /** An integer's shortest string is ahead and fits. */
  ghost predicate IntAhead(levels: seq<int>, p: seq<byte>)
  {
    StringAhead(levels, p) && (StringAt(p) != [] ==> StringAt(p)[0] != 0)
  }

  /** The checks of uint on the digits it has read. */
  function Judged(v: Result<uint64, Error>, sz: nat): (r: Result<uint64, Error>)
  {
    if v.Err? then Err(if v.error == CanonSize then CanonInt else v.error)
    else if sz > 0 && v.value < 128 then Err(CanonSize)
    else v
  }

  /** They accept exactly an integer's shortest string. */
  lemma JudgedRight(levels: seq<int>, h: seq<byte>, rest: seq<byte>, sz: nat, v: Result<uint64, Error>)
    requires GoodHead(h) && |h| == 1 + Width(h[0]) && KindAt(h) == StringKind && SizeAt(h) == sz
    requires v.Ok? <==> Room(levels, |h| + sz) && sz <= |rest| && (sz >= 2 ==> rest[0] != 0)
    requires v.Ok? ==> v.value == FromBytes(rest[..sz])
    ensures GoodHead(h + rest) && StringEnd(h + rest) == |h| + sz
    ensures IntAhead(levels, h + rest) ==> Judged(v, sz).Ok?
    ensures Judged(v, sz).Ok? ==> IntAhead([], h + rest) && v.value == FromBytes(StringAt(h + rest))
  {
    IntAheadAt(levels, h, rest, sz);
    IntAheadAt([], h, rest, sz);
    if sz <= |rest| {
      SmallDigits(rest[..sz]);
    }
  }

  lemma DeductRoom(levels: seq<int>, m: nat, n: nat)
    requires Room(levels, m) && (levels != [] ==> levels[|levels| - 1] < TWO_64)
    ensures Room(Deduct(levels, m), n) <==> Room(levels, m + n)
  {
  }

  /** What it takes for an integer to be behind a cached string header. */
  lemma IntAheadAt(levels: seq<int>, h: seq<byte>, rest: seq<byte>, sz: nat)
    requires GoodHead(h) && |h| == 1 + Width(h[0]) && KindAt(h) == StringKind && SizeAt(h) == sz
    ensures GoodHead(h + rest) && StringEnd(h + rest) == |h| + sz
    ensures sz <= |rest| ==> StringAt(h + rest) == rest[..sz]
    ensures IntAhead(levels, h + rest) <==>
              Room(levels, |h| + sz) && sz <= |rest| && (sz == 1 ==> rest[0] >= 0x80) && (sz > 0 ==> rest[0] != 0)
  {
    CachedFront(h, rest);
    HeadLocal(h, rest);
  }

  lemma IntAheadSound(p: seq<byte>)
    requires IntAhead([], p)
    ensures ToBytes(FromBytes(StringAt(p))) == StringAt(p)
    ensures EncInt(FromBytes(StringAt(p))) == p[..StringEnd(p)]
  {
    ToBytesOfFromBytes(StringAt(p));
    StringAheadSound(p);
  }

  lemma IntAheadComplete(levels: seq<int>, p: seq<byte>, v: nat)
    requires EncInt(v) <= p && Room(levels, |EncInt(v)|) && |p| < TWO_64
    ensures IntAhead(levels, p) && StringAt(p) == ToBytes(v) && FromBytes(StringAt(p)) == v
  {
    var s := ToBytes(v);
    StrWelcome(levels, p, s);
    FromBytesOfToBytes(v);
    assert |s| == 1 ==> s == [s[0]];
  }

  /** What the one-byte tests of uint mean for the digits. */
  lemma SmallDigits(d: seq<byte>)
    ensures d == [] ==> FromBytes(d) == 0
    ensures |d| == 1 ==> FromBytes(d) == d[0]
    ensures |d| >= 2 && d[0] != 0 ==> FromBytes(d) >= 256
  {
    if |d| == 1 {
      SingleDigit(d);
    } else if |d| >= 2 && d[0] != 0 {
      FromBytesBound(d);
      Pow256Monotone(1, |d| - 1);
      Pow256Values();
    }
  }

  /** Header and content in one slice, the header written last. */
  method PutBack(k: Kind, size: uint64, content: seq<byte>) returns (buf: seq<byte>)
    requires k != ByteKind && |content| == size
    ensures buf == HeaderBytes(k, size, 0) + content
  {
    var start := Integers.HeadSize(size);
    var b := new byte[start + |content|];
    Encoder.Store(b, start, content);
    ghost var before := b[..];
    var n;
    if k == StringKind {
      n := Encoder.PutHead(b, 0, 0x80, 0xB7, size);
    } else {
      n := Encoder.PutHead(b, 0, 0xC0, 0xF7, size);
    }
    buf := b[..];
    assert before[start..] == content;
  }

  lemma RawComplete(levels: seq<int>, p: seq<byte>, t: Tree)
    requires Enc(t) <= p && Room(levels, |Enc(t)|) && |p| < TWO_64
    ensures Welcome(levels, p) && Room(levels, StringEnd(p)) && Enc(t) == p[..StringEnd(p)]
  {
    match t
    case Str(b) =>
      StrWelcome(levels, p, b);
    case List(ts) =>
      assert ListHead(|EncAll(ts)|) <= Enc(t);
      ListWelcome(levels, p, |EncAll(ts)|);
  }

  lemma DeductSnoc(base: seq<int>, top: int, n: nat)
    ensures Deduct(base + [top % TWO_64], n) == base + [(top - n) % TWO_64]
  {
    WrapTwice(top, 0, n);
  }

  lemma ListRead(p: seq<byte>, n: nat, items: seq<Tree>, rest: seq<byte>, levels: seq<int>, base: seq<int>)
    requires p == ListHead(n) + (EncAll(items) + rest) && n == |EncAll(items)| && base == Deduct(levels, |ListHead(n)| + n)
    ensures p == Enc(List(items)) + rest && base == Deduct(levels, |Enc(List(items))|)
  {
    assert Enc(List(items)) == ListHead(n) + EncAll(items);
    assert |Enc(List(items))| == |ListHead(n)| + n;
  }

  /** A wanted list announces its payload, and the payload is behind the header. */
  lemma ListAheadOf(levels: seq<int>, p: seq<byte>, ts: seq<Tree>)
    requires Enc(List(ts)) <= p && Room(levels, |Enc(List(ts))|) && |p| < TWO_64
    ensures |EncAll(ts)| < TWO_64 && ListAhead(levels, p, |EncAll(ts)|)
    ensures forall rest :: p == ListHead(|EncAll(ts)|) + rest ==> EncAll(ts) <= rest
    ensures EncAll(ts) == [] ==> ts == []
  {
    var h, e := ListHead(|EncAll(ts)|), EncAll(ts);
    assert Enc(List(ts)) == h + e;
    forall rest | p == h + rest
      ensures e <= rest
    {
      assert rest == p[|h|..];
      assert e == (h + e)[|h|..];
    }
  }

  /** A list limit really does wrap: the inner list of C1 C1 C0 is checked against the outer
      limit as it was before the inner header was read. So "every limit is at most the
      remaining input" is not an invariant of the stream. */
  method LimitWraps() returns (outer: uint64, remaining: uint64)
    ensures outer == TWO_64 - 1 && remaining == 1
  {
    var b: seq<byte> := [0xC1, 0xC1, 0xC0];
    var s := new Stream(b, 3);
    HeadFirst(1);
    assert ListHead(1) == [0xC1] && ListHead(1) <= b;
    assert ListAhead(s.Levels(), s.Pending(), 1);
    var size := s.ListStart();
    assert size == Ok(1) && s.Pending() == ([0xC1] + s.Pending())[1..] == b[1..];
    assert s.Levels() == s.stack == [1];
    WrapWelcome(s.Pending());
    size := s.ReadListHead();
    return s.stack[0], s.remaining;
  }

  lemma WrapWelcome(p: seq<byte>)
    requires p == [0xC1, 0xC0]
    ensures Welcome([1], p) && KindAt(p) == ListKind && SizeAt(p) == 1 && Width(p[0]) == 0
  {
  }

  /** Decodes exactly one value with nothing after it. It accepts a byte string exactly when
      the string is the encoding of some tree, and returns that tree. */
  method DecodeBytes(b: seq<byte>) returns (r: Result<Tree, Error>)
    requires |b| < MAX_LEN
    ensures r.Ok? <==> exists t :: b == Enc(t)
    ensures r.Ok? ==> b == Enc(r.value)
    ensures b == [] ==> r == Err(EOF)
    ensures forall t, x :: b == Enc(t) + x && x != [] ==> r == Err(MoreThanOneValue)
  {
    var s := new Stream(b, |b|);
    ghost var want: Option<Tree> := None;
    if t :| Enc(t) <= b {
      want := Some(t);
    }
    r := s.DecodeInterface(want);
    ghost var first, rest := r, s.input;
    assert first.Ok? ==> b == Enc(first.value) + rest;
    if r.Ok? && |s.input| > 0 {
      r := Err(MoreThanOneValue);
    }
    forall t, x | b == Enc(t) + x
      ensures first == Ok(t) && x == rest
    {
      assert Enc(t) <= b;
      EncPrefixFree(t, first.value, x, rest);
    }
    if r.Ok? {
      assert b == Enc(r.value);
    }
    forall t | b == Enc(t)
      ensures r == Ok(t)
    {
      assert b == Enc(t) + [];
    }
  }
}
