/** The slice decoder (go-ethereum/rlp/raw.go, iterator.go): it splits byte slices without
    a stream and without looking inside the values. */
module Raw {
  import opened Wrappers
  import opened BigEndian
  import opened Rlp
  import opened Integers
  import opened Decoder
  import Encoder

  /** What readKind reports: the kind and the sizes of the tag and of the content. */
  datatype Tag = Tag(kind: Kind, tagsize: nat, contentsize: nat)

  /** The shift-and-or cases of readSize. The shifted bytes do not overlap, so or is addition. */
  function Shifted(b: seq<int>, slen: nat): (s: int)
    requires 1 <= slen <= 8 && slen <= |b|
  {
    match slen
    case 1 => b[0]
    case 2 => b[0] * 0x100 + b[1]
    case 3 => b[0] * 0x1_0000 + b[1] * 0x100 + b[2]
    case 4 => b[0] * 0x100_0000 + b[1] * 0x1_0000 + b[2] * 0x100 + b[3]
    case 5 => b[0] * 0x1_0000_0000 + b[1] * 0x100_0000 + b[2] * 0x1_0000 + b[3] * 0x100 + b[4]
    case 6 =>
      b[0] * 0x100_0000_0000 + b[1] * 0x1_0000_0000 + b[2] * 0x100_0000 + b[3] * 0x1_0000 + b[4] * 0x100 + b[5]
    case 7 =>
      b[0] * 0x1_0000_0000_0000 + b[1] * 0x100_0000_0000 + b[2] * 0x1_0000_0000 + b[3] * 0x100_0000 + b[4] * 0x1_0000
      + b[5] * 0x100 + b[6]
    case _ =>
      b[0] * 0x100_0000_0000_0000 + b[1] * 0x1_0000_0000_0000 + b[2] * 0x100_0000_0000 + b[3] * 0x1_0000_0000
      + b[4] * 0x100_0000 + b[5] * 0x1_0000 + b[6] * 0x100 + b[7]
  }

  /** Each case is the value of the digits, and no case leaves 64 bits. */
  lemma {:induction false} ShiftedIsValue(b: seq<byte>, slen: nat)
    requires 1 <= slen <= 8 && slen <= |b|
    ensures Shifted(b, slen) == FromBytes(b[..slen]) < TWO_64
  {
    SizeBound(b[..slen]);
    if slen > 1 {
      ShiftedIsValue(b, slen - 1);
    }
    assert b[..slen][..slen - 1] == b[..slen - 1];
    ShiftedStep(b, slen);
  }

  /** One more byte shifts the others by eight bits. */
  lemma {:induction false} ShiftedStep(b: seq<int>, slen: nat)
    requires 1 <= slen <= 8 && slen <= |b|
    ensures Shifted(b, slen) == (if slen == 1 then 0 else Shifted(b, slen - 1)) * 256 + b[slen - 1]
  {
  }

  /** A big-endian size of the given width; no leading zero, and at least 56. */
  function ReadSize(b: seq<byte>, slen: nat): (r: Result<uint64, Error>)
    requires 1 <= slen <= 8
    ensures r.Ok? <==> GoodSize(b, slen)
    ensures r.Ok? ==> r.value == FromBytes(b[..slen])
  {
    if slen > |b| then Err(UnexpectedEOF)
    else
      ShiftedIsValue(b, slen);
      var s := Shifted(b, slen);
      if s < 56 || b[0] == 0 then Err(CanonSize) else Ok(s)
  }

  /** The tag at the front of buf, if the whole value is there. */
  function ReadKind(buf: seq<byte>): (r: Result<Tag, Error>)
    requires |buf| < MAX_LEN
    ensures r.Ok? ==> 0 < r.value.tagsize + r.value.contentsize <= |buf|
  {
    if |buf| == 0 then Err(UnexpectedEOF)
    else
      var b := buf[0];
      if b < 0x80 then Checked(buf, Tag(ByteKind, 0, 1))
      else if b < 0xB8 then
        if b - 0x80 == 1 && |buf| > 1 && buf[1] < 128 then Err(CanonSize)
        else Checked(buf, Tag(StringKind, 1, b - 0x80))
      else if b < 0xC0 then ReadLong(buf, StringKind, b - 0xB7)
      else if b < 0xF8 then Checked(buf, Tag(ListKind, 1, b - 0xC0))
      else ReadLong(buf, ListKind, b - 0xF7)
  }

  function ReadLong(buf: seq<byte>, k: Kind, width: nat): (r: Result<Tag, Error>)
    requires 0 < |buf| < MAX_LEN && 1 <= width <= 8
    ensures r.Ok? <==> GoodSize(buf[1..], width) && width + 1 + FromBytes(buf[1..][..width]) <= |buf|
    ensures r.Ok? ==> r.value == Tag(k, width + 1, FromBytes(buf[1..][..width]))
  {
    var s := ReadSize(buf[1..], width);
    if s.Err? then Err(s.error) else Checked(buf, Tag(k, width + 1, s.value))
  }

  /** Rejects values larger than the input slice; the subtraction is on uint64. */
  function Checked(buf: seq<byte>, t: Tag): (r: Result<Tag, Error>)
    requires t.tagsize <= |buf| < MAX_LEN
    ensures r == if t.tagsize + t.contentsize <= |buf| then Ok(t) else Err(ValueTooLarge)
  {
    if t.contentsize > (|buf| - t.tagsize) % TWO_64 then Err(ValueTooLarge) else Ok(t)
  }

  function Split(b: seq<byte>): (r: Result<(Kind, seq<byte>, seq<byte>), Error>)
    requires |b| < MAX_LEN
  {
    var k := ReadKind(b);
    if k.Err? then Err(k.error)
    else
      var t, e := k.value.tagsize, k.value.tagsize + k.value.contentsize;
      Ok((k.value.kind, b[t..e], b[e..]))
  }

  // ---- what a split means --------------------------------------------------------------

  /** One value whose inside is not looked at: a single byte, a string, or any payload
      behind a list header. */
  ghost predicate Outer(k: Kind, content: seq<byte>)
  {
    match k
    case ByteKind => |content| == 1 && content[0] < 0x80
    case StringKind => !(|content| == 1 && content[0] < 0x80)
    case ListKind => true
  }

  ghost function OuterEnc(k: Kind, content: seq<byte>): (e: seq<byte>)
    requires Outer(k, content)
    ensures |e| >= 1
  {
    match k
    case ByteKind => content
    case StringKind => StrHead(|content|) + content
    case ListKind => ListHead(|content|) + content
  }

  /** A split succeeds exactly on a value that is written the one way it can be, and gives
      back its kind, its content and what follows. */
  lemma SplitExact(b: seq<byte>, k: Kind, content: seq<byte>, rest: seq<byte>)
    requires |b| < MAX_LEN
    ensures Split(b) == Ok((k, content, rest)) <==> Outer(k, content) && b == OuterEnc(k, content) + rest
  {
    if Split(b) == Ok((k, content, rest)) {
      SplitSound(b);
    }
    if Outer(k, content) && b == OuterEnc(k, content) + rest {
      SplitComplete(b, k, content, rest);
    }
  }

  /** The slice decoder reads the headers the stream decoder reads. */
  lemma ReadKindHeader(b: seq<byte>)
    requires |b| < MAX_LEN
    ensures ReadKind(b).Ok? <==> GoodHead(b) && StringEnd(b) <= |b|
                                 && (KindAt(b) == StringKind && SizeAt(b) == 1 ==> b[1] >= 0x80)
    ensures ReadKind(b).Ok? ==>
              var t := ReadKind(b).value;
              && t.kind == KindAt(b) && t.tagsize + t.contentsize == StringEnd(b)
              && (t.kind != ByteKind ==> t.tagsize == 1 + Width(b[0]) && t.contentsize == SizeAt(b))
              && (t.kind == ByteKind ==> t.tagsize == 0)
  {
  }

  lemma SplitSound(b: seq<byte>)
    requires |b| < MAX_LEN && Split(b).Ok?
    ensures var (k, content, rest) := Split(b).value;
            Outer(k, content) && b == OuterEnc(k, content) + rest
  {
    ReadKindHeader(b);
    GoodHeadStarts(b);
    var w, e := 1 + Width(b[0]), StringEnd(b);
    assert b == b[..w] + b[w..e] + b[e..];
  }

  lemma SplitComplete(b: seq<byte>, k: Kind, content: seq<byte>, rest: seq<byte>)
    requires |b| < MAX_LEN && Outer(k, content) && b == OuterEnc(k, content) + rest
    ensures Split(b) == Ok((k, content, rest))
  {
    if k == ByteKind {
      assert content == [content[0]];
      assert Starts(b, k, 0, content[0]);
      StartsGoodHead(b, k, 0, content[0]);
      ReadKindHeader(b);
    } else {
      SplitHeaded(b, k, content, rest);
    }
  }

  lemma SplitHeaded(b: seq<byte>, k: Kind, content: seq<byte>, rest: seq<byte>)
    requires |b| < MAX_LEN && k != ByteKind && Outer(k, content) && b == OuterEnc(k, content) + rest
    ensures Split(b) == Ok((k, content, rest))
  {
    var h := HeaderBytes(k, |content|, 0);
    assert b == h + content + rest;
    CutThree(b, h, content, rest);
    assert Starts(b, k, |content|, 0);
    StartsGoodHead(b, k, |content|, 0);
    ReadKindHeader(b);
  }

  lemma CutThree(b: seq<byte>, h: seq<byte>, content: seq<byte>, rest: seq<byte>)
    requires b == h + content + rest
    ensures b[..|h|] == h && b[|h|..] == content + rest && b == h + (content + rest)
    ensures b[|h|..|h| + |content|] == content && b[|h| + |content|..] == rest
  {
  }

  // ---- typed splits ------------------------------------------------------------------

  function SplitString(b: seq<byte>): (r: Result<(seq<byte>, seq<byte>), Error>)
    requires |b| < MAX_LEN
  {
    var s := Split(b);
    if s.Err? then Err(s.error)
    else if s.value.0 == ListKind then Err(ExpectedString)
    else Ok((s.value.1, s.value.2))
  }

  function SplitList(b: seq<byte>): (r: Result<(seq<byte>, seq<byte>), Error>)
    requires |b| < MAX_LEN
  {
    var s := Split(b);
    if s.Err? then Err(s.error)
    else if s.value.0 != ListKind then Err(ExpectedList)
    else Ok((s.value.1, s.value.2))
  }

  function SplitUint64(b: seq<byte>): (r: Result<(uint64, seq<byte>), Error>)
    requires |b| < MAX_LEN
  {
    var s := SplitString(b);
    if s.Err? then Err(s.error)
    else
      var (content, rest) := s.value;
      if |content| == 0 then Ok((0, rest))
      else if |content| == 1 then if content[0] == 0 then Err(CanonInt) else Ok((content[0], rest))
      else if |content| > 8 then Err(UintOverflow)
      else
        var x := ReadSize(content, |content|);
        if x.Err? then Err(CanonInt) else Ok((x.value, rest))
  }

  lemma SplitStringExact(b: seq<byte>, v: seq<byte>, rest: seq<byte>)
    requires |b| < MAX_LEN
    ensures SplitString(b) == Ok((v, rest)) <==> b == EncStr(v) + rest
  {
    var k := if |v| == 1 && v[0] < 0x80 then ByteKind else StringKind;
    SplitExact(b, k, v, rest);
    if SplitString(b) == Ok((v, rest)) {
      SplitSound(b);
    }
  }

  lemma SplitListExact(b: seq<byte>, payload: seq<byte>, rest: seq<byte>)
    requires |b| < MAX_LEN
    ensures SplitList(b) == Ok((payload, rest)) <==> b == ListHead(|payload|) + payload + rest
  {
    SplitExact(b, ListKind, payload, rest);
  }

  /** SplitUint64 accepts exactly the encodings of 64-bit integers, and inverts them. */
  lemma SplitUint64Exact(b: seq<byte>, x: uint64, rest: seq<byte>)
    requires |b| < MAX_LEN
    ensures SplitUint64(b) == Ok((x, rest)) <==> b == EncInt(x) + rest
  {
    if SplitUint64(b) == Ok((x, rest)) {
      var v := SplitString(b).value.0;
      SplitStringExact(b, v, rest);
      SmallDigits(v);
      assert v[..|v|] == v;
      ToBytesOfFromBytes(v);
    }
    if b == EncInt(x) + rest {
      SplitStringExact(b, ToBytes(x), rest);
      IntegerContent(x, ToBytes(x));
    }
  }

  lemma IntegerContent(x: uint64, v: seq<byte>)
    requires v == ToBytes(x)
    ensures |v| <= 8 && (x == 0 <==> v == []) && (|v| == 1 ==> v[0] == x && x != 0)
    ensures |v| >= 2 ==> GoodSize(v, |v|) && FromBytes(v[..|v|]) == x
  {
    EightBytes(x);
    FromBytesOfToBytes(x);
    SmallDigits(v);
    assert v[..|v|] == v;
  }

  // ---- integers and sizes --------------------------------------------------------------

  /** The append form of the integer writer. */
  function AppendUint64(b: seq<byte>, i: uint64): (r: seq<byte>)
  {
    if i == 0 then b + [0x80]
    else if i < 128 then b + [i]
    else b + [0x80 + |Switched(i)|] + Switched(i)
  }

  lemma AppendUint64Encodes(b: seq<byte>, i: uint64)
    ensures AppendUint64(b, i) == b + EncInt(i)
  {
    Encoder.EncIntShort(i);
    SwitchedIsMinimal(i);
  }

  /** The size functions announce the encoder's output size without encoding. */
  method BytesSize(b: seq<byte>) returns (n: nat)
    requires |b| < MAX_LEN
    ensures n == |EncStr(b)|
  {
    if |b| == 0 {
      n := 1;
    } else if |b| == 1 {
      n := if b[0] <= 0x7F then 1 else 2;
    } else {
      n := HeadSize(|b|);
      n := n + |b|;
    }
  }

  /** The sum is taken in uint64: it wraps exactly for the sizes of which no list can be encoded. */
  method ListSize(contentSize: uint64) returns (n: uint64)
    ensures contentSize < TWO_64 - 9 ==> forall ts :: |EncAll(ts)| == contentSize ==> n == |Enc(List(ts))|
    ensures n == (|ListHead(contentSize)| + contentSize) % TWO_64 && (n < contentSize <==> contentSize >= TWO_64 - 9)
  {
    var h := HeadSize(contentSize);
    LongestHead(contentSize);
    n := (h + contentSize) % TWO_64;
  }

  /** A list header has at most nine bytes, and nine for the largest lists. */
  lemma {:induction false} LongestHead(size: uint64)
    ensures 1 <= |ListHead(size)| <= 9 && (size >= TWO_64 - 9 ==> |ListHead(size)| == 9)
  {
    HeadFirst(size);
    ToBytesLength(size, 7);
    Pow256Values();
  }

  method EncodedIntSize(x: uint64) returns (n: nat)
    ensures n == |EncInt(x)|
  {
    Encoder.EncIntShort(x);
    if x < 0x80 {
      return 1;
    }
    n := IntSize(x);
    n := 1 + n;
  }

  // ---- sequences of values ---------------------------------------------------------------

  datatype Item = Item(kind: Kind, content: seq<byte>)

  ghost predicate Items(items: seq<Item>)
  {
    forall i :: 0 <= i < |items| ==> Outer(items[i].kind, items[i].content)
  }

  ghost function ItemsEnc(items: seq<Item>): (e: seq<byte>)
    requires Items(items)
  {
    if items == [] then [] else OuterEnc(items[0].kind, items[0].content) + ItemsEnc(items[1..])
  }

  /** The values in b, by splitting one off after another. */
  ghost function ValuesIn(b: seq<byte>): (r: Option<seq<Item>>)
    requires |b| < MAX_LEN
    decreases |b|
  {
    if b == [] then Some([])
    else
      var s := Split(b);
      if s.Err? then None
      else
        var rest := ValuesIn(s.value.2);
        if rest == None then None else Some([Item(s.value.0, s.value.1)] + rest.value)
  }

  lemma {:induction false} ValuesInSound(b: seq<byte>)
    requires |b| < MAX_LEN && ValuesIn(b).Some?
    ensures Items(ValuesIn(b).value) && b == ItemsEnc(ValuesIn(b).value)
    decreases |b|
  {
    if b != [] {
      SplitSound(b);
      var (k, c, rest) := Split(b).value;
      ValuesInSound(rest);
      var items := ValuesIn(b).value;
      assert items[1..] == ValuesIn(rest).value;
    }
  }

  lemma {:induction false} ValuesInComplete(items: seq<Item>)
    requires Items(items) && |ItemsEnc(items)| < MAX_LEN
    ensures ValuesIn(ItemsEnc(items)) == Some(items)
    decreases |items|
  {
    if items != [] {
      var head, tail := items[0], items[1..];
      var rest := ItemsEnc(tail);
      ValuesInComplete(tail);
      ValuesStep(ItemsEnc(items), head, rest);
      assert items == [head] + tail;
    }
  }

  lemma ValuesStep(b: seq<byte>, head: Item, rest: seq<byte>)
    requires |b| < MAX_LEN && Outer(head.kind, head.content) && b == OuterEnc(head.kind, head.content) + rest
    ensures ValuesIn(b) == if ValuesIn(rest).Some? then Some([head] + ValuesIn(rest).value) else None
  {
    SplitComplete(b, head.kind, head.content, rest);
  }

  /** A slice falls into values in at most one way, and splitting finds it. */
  lemma ValuesInExact(b: seq<byte>, items: seq<Item>)
    requires |b| < MAX_LEN
    ensures ValuesIn(b) == Some(items) <==> Items(items) && b == ItemsEnc(items)
  {
    if ValuesIn(b) == Some(items) {
      ValuesInSound(b);
    }
    if Items(items) && b == ItemsEnc(items) {
      ValuesInComplete(items);
    }
  }

  /** Encoded trees, seen as values whose inside is not looked at. */
  ghost function OuterItem(t: Tree): (i: Item)
    ensures Outer(i.kind, i.content) && OuterEnc(i.kind, i.content) == Enc(t)
  {
    match t
    case Str(b) => Item(if |b| == 1 && b[0] < 0x80 then ByteKind else StringKind, b)
    case List(ts) => Item(ListKind, EncAll(ts))
  }

  lemma {:induction false} TreesInPayload(ts: seq<Tree>)
    requires |EncAll(ts)| < MAX_LEN
    ensures ValuesIn(EncAll(ts)).Some? && |ValuesIn(EncAll(ts)).value| == |ts|
    ensures forall i :: 0 <= i < |ts| ==> ValuesIn(EncAll(ts)).value[i] == OuterItem(ts[i])
    decreases |ts|
  {
    if ts != [] {
      var it := OuterItem(ts[0]);
      TreesInPayload(ts[1..]);
      SplitComplete(EncAll(ts), it.kind, it.content, EncAll(ts[1..]));
    }
  }

  lemma {:induction false} CountStep(b: seq<byte>)
    requires 0 < |b| < MAX_LEN
    ensures ReadKind(b).Err? ==> ValuesIn(b) == None
    ensures ReadKind(b).Ok? ==>
              var rest := b[ReadKind(b).value.tagsize + ReadKind(b).value.contentsize..];
              && (ValuesIn(b).Some? <==> ValuesIn(rest).Some?)
              && (ValuesIn(b).Some? ==> |ValuesIn(b).value| == 1 + |ValuesIn(rest).value|)
  {
  }

  /** Counts the values in b. */
  method CountValues(b: seq<byte>) returns (r: Result<nat, Error>)
    requires |b| < MAX_LEN
    ensures r.Ok? <==> ValuesIn(b).Some?
    ensures r.Ok? ==> r.value == |ValuesIn(b).value|
    ensures forall ts :: b == EncAll(ts) ==> r == Ok(|ts|)
  {
    var i, rest := 0, b;
    while |rest| > 0
      invariant |rest| < MAX_LEN
      invariant ValuesIn(b).Some? <==> ValuesIn(rest).Some?
      invariant ValuesIn(b).Some? ==> |ValuesIn(b).value| == i + |ValuesIn(rest).value|
    {
      var k := ReadKind(rest);
      CountStep(rest);
      if k.Err? {
        r := Err(k.error);
        break;
      }
      rest := rest[k.value.tagsize + k.value.contentsize..];
      i := i + 1;
    }
    if |rest| == 0 {
      r := Ok(i);
    }
    forall ts | b == EncAll(ts)
      ensures r == Ok(|ts|)
    {
      TreesInPayload(ts);
    }
  }

  // ---- the list iterator -------------------------------------------------------------------

  class ListIterator {
    var data: seq<byte>
    var next: seq<byte>
    var err: Option<Error>

    constructor (payload: seq<byte>)
      ensures data == payload && next == [] && err == None
    {
      data, next, err := payload, [], None;
    }

    /** Moves to the next value. On a malformed one it reports the error and stays there. */
    method Next() returns (more: bool)
      requires |data| < MAX_LEN
      modifies this
      ensures more <==> old(data) != []
      ensures old(data) == [] ==> data == [] && next == old(next) && err == old(err)
      ensures old(data) != [] && Split(old(data)).Ok? ==>
                && err == None && data == Split(old(data)).value.2 && old(data) == next + data
                && next == OuterEncOf(Split(old(data)).value.0, Split(old(data)).value.1)
      ensures old(data) != [] && Split(old(data)).Err? ==>
                err == Some(Split(old(data)).error) && next == [] && data == old(data)
    {
      if |data| == 0 {
        return false;
      }
      var k := ReadKind(data);
      var n := if k.Ok? then k.value.tagsize + k.value.contentsize else 0;
      if k.Ok? {
        SplitSound(data);
      }
      next, data := data[..n], data[n..];
      err := if k.Ok? then None else Some(k.error);
      return true;
    }
  }

  ghost function OuterEncOf(k: Kind, content: seq<byte>): (e: seq<byte>)
  {
    if Outer(k, content) then OuterEnc(k, content) else []
  }

  method NewListIterator(b: seq<byte>) returns (it: ListIterator?, err: Option<Error>)
    requires |b| < MAX_LEN
    ensures err == None <==> Split(b).Ok? && Split(b).value.0 == ListKind
    ensures err == None ==> it != null && fresh(it) && it.data == Split(b).value.1 && it.err == None
  {
    var k := ReadKind(b);
    if k.Err? {
      return null, Some(k.error);
    }
    if k.value.kind != ListKind {
      return null, Some(ExpectedList);
    }
    it := new ListIterator(b[k.value.tagsize..k.value.tagsize + k.value.contentsize]);
    err := None;
  }

  /** Walking an encoded list yields every element's exact bytes, in order. */
  method IterateList(b: seq<byte>, ghost ts: seq<Tree>) returns (values: seq<seq<byte>>)
    requires |b| < MAX_LEN && b == Enc(List(ts))
    ensures |values| == |ts| && forall i :: 0 <= i < |ts| ==> values[i] == Enc(ts[i])
  {
    SplitComplete(b, ListKind, EncAll(ts), []);
    var it, err := NewListIterator(b);
    values := [];
    if err == None {
      var more := true;
      assert ts[0..] == ts;
      while more
        invariant |values| <= |ts| && it.data == EncAll(ts[|values|..]) && |it.data| < MAX_LEN
        invariant forall i :: 0 <= i < |values| ==> values[i] == Enc(ts[i])
        invariant !more ==> |values| == |ts|
        decreases |ts| - |values|, more
      {
        ghost var rest := ts[|values|..];
        if rest != [] {
          var head := OuterItem(rest[0]);
          SplitComplete(it.data, head.kind, head.content, EncAll(rest[1..]));
          assert rest[1..] == ts[|values| + 1..];
        }
        more := it.Next();
        if more {
          values := values + [it.next];
        }
      }
    }
  }
}
