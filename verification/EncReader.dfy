/** The whole-value encoders (go-ethereum/rlp/encode.go) and the reader that hands the
    encoder output out in pieces of any size (go-ethereum/rlp/encbuffer.go:228-293). */
module EncoderOutput {
  import opened Sequences
  import opened BigEndian
  import opened Rlp
  import opened Integers
  import opened Encoder

  /** Encodes one value through the deferred-header buffer. The output is the encoding of the tree the
      value stands for, which is what follows for each kind of value. A list, whether slice or struct,
      is a header followed by what is written for its elements, in order. */
  method EncodeToBytes(v: Value) returns (out: seq<byte>, ghost at: seq<nat>)
    requires |Enc(Meaning(v))| < MAX_LEN
    ensures out == Enc(Meaning(v))
    ensures v.Bytes? ==> out == if |v.b| == 1 && v.b[0] < 0x80 then v.b else StrHead(|v.b|) + v.b
    ensures v.Bool? ==> out == [if v.v then 0x01 else 0x80]
    ensures v.Uint? ==> out == EncStr(ToBytes(v.n))
    ensures v.Big? ==> out == EncStr(ToBytes(WordsValue(v.words)))
    ensures v.Uint256? ==> out == EncStr(ToBytes(v.z[0] + TWO_64 * (v.z[1] + TWO_64 * (v.z[2] + TWO_64 * v.z[3]))))
    ensures v.RawValue? ==> out == Enc(v.t)
    ensures v.Nil? ==> out == [if v.list then 0xC0 else 0x80]
    ensures v.Slice? || v.Struct? ==>
              var vs := if v.Slice? then v.elems else v.fields;
              && |at| == |vs| + 1 && at[0] <= at[|vs|] == |out| && out[..at[0]] == ListHead(|out| - at[0])
              && forall i :: 0 <= i < |vs| ==> Between(out, at, i, Enc(Meaning(vs[i])))
  {
    var buf := Encoded(v);
    out := buf.MakeBytes();
    WrittenByKind(v, out);
    at := CutsOf(v, out);
  }

  /** A buffer holding the encoding of one value. */
  method Encoded(v: Value) returns (buf: EncBuffer)
    requires |Enc(Meaning(v))| < MAX_LEN
    ensures fresh(buf) && fresh(buf.sizebuf) && buf.Valid() && buf.Complete() && buf.Output() == Enc(Meaning(v))
  {
    buf := new EncBuffer();
    buf.WriteValue(v);
    assert buf.lheads[0..] == buf.lheads;
  }

  /** What the reader will hand out next: nothing yet, string data, or a header that
      lives in the buffer's scratch space until it is consumed. */
  datatype Piece = NoPiece | Piece(header: bool, lo: nat, hi: nat)

  class EncReader {
    const buf: EncBuffer
    var released: bool  // the buffer went back to the pool, buf is nil
    var lhpos: nat
    var strpos: nat
    var piece: Piece

    ghost predicate Valid()
      reads this, buf, buf.sizebuf
    {
      buf.Valid() &&
      (!released ==>
        && lhpos <= |buf.lheads| && Sized(buf.lheads)
        && Ordered(buf.lheads[lhpos..], strpos, |buf.str|)
        && InRange(piece))
    }

    /** Pieces are never empty and never leave their backing storage. */
    ghost predicate InRange(p: Piece)
      reads this, buf
    {
      p.Piece? ==> p.lo < p.hi <= if p.header then 9 else |buf.str|
    }

    ghost function PieceBytes(p: Piece): (s: seq<byte>)
      reads this, buf, buf.sizebuf
      requires buf.sizebuf.Length == 9 && InRange(p)
    {
      if p.NoPiece? then [] else if p.header then buf.sizebuf[p.lo..p.hi] else buf.str[p.lo..p.hi]
    }

    /** The bytes that have not been read yet. */
    ghost function Remaining(): (s: seq<byte>)
      reads this, buf, buf.sizebuf
      requires Valid()
    {
      if released then []
      else PieceBytes(piece) + Merge(buf.str, buf.lheads[lhpos..], strpos)
    }

    constructor (buffer: EncBuffer)
      requires buffer.Valid() && buffer.Complete()
      ensures buf == buffer && Valid() && Remaining() == buffer.Output()
    {
      buf, released, lhpos, strpos, piece := buffer, false, 0, 0, NoPiece;
      new;
      assert buffer.lheads[0..] == buffer.lheads;
    }

    /** Piece p followed by what lies behind the positions is exactly rem. */
    ghost predicate Offers(p: Piece, rem: seq<byte>)
      reads this, buf, buf.sizebuf
    {
      && buf.Valid()
      && lhpos <= |buf.lheads| && Sized(buf.lheads)
      && Ordered(buf.lheads[lhpos..], strpos, |buf.str|)
      && InRange(p)
      && rem == PieceBytes(p) + Merge(buf.str, buf.lheads[lhpos..], strpos)
      && (p == NoPiece <==> rem == [])
    }

    /** Makes the next piece available without losing or repeating a byte. */
    method Next() returns (p: Piece)
      requires Valid()
      modifies this`lhpos, this`strpos, buf.sizebuf
      ensures released ==> p == NoPiece && lhpos == old(lhpos) && strpos == old(strpos)
      ensures !released ==> Offers(p, old(Remaining()))
    {
      if released {
        p := NoPiece;
      } else if piece != NoPiece {
        p := piece;
      } else if lhpos < |buf.lheads| {
        p := NextBeforeHead();
      } else {
        p := NextTail();
      }
    }

    /** No header is left: the rest of the string data. */
    method NextTail() returns (p: Piece)
      requires Valid() && !released && piece == NoPiece && lhpos == |buf.lheads|
      modifies this`strpos
      ensures Offers(p, old(Remaining()))
    {
      assert buf.lheads[lhpos..] == [];
      if strpos < |buf.str| {
        p := Piece(false, strpos, |buf.str|);
        strpos := |buf.str|;
      } else {
        p := NoPiece;
      }
    }

    /** There is a header ahead: string data before it goes first. */
    method NextBeforeHead() returns (p: Piece)
      requires Valid() && !released && piece == NoPiece && lhpos < |buf.lheads|
      modifies this`lhpos, this`strpos, buf.sizebuf
      ensures Offers(p, old(Remaining()))
    {
      var head := buf.lheads[lhpos];
      HeadAhead(buf.str, buf.lheads, lhpos, strpos);
      if head.offset - strpos > 0 {
        p := Piece(false, strpos, head.offset);
        strpos := head.offset;
      } else {
        p := NextHead();
      }
    }

    /** The header itself, put into the scratch space. */
    method NextHead() returns (p: Piece)
      requires Valid() && !released && piece == NoPiece && lhpos < |buf.lheads| && strpos == buf.lheads[lhpos].offset
      modifies this`lhpos, buf.sizebuf
      ensures Offers(p, old(Remaining()))
    {
      HeadAhead(buf.str, buf.lheads, lhpos, strpos);
      ghost var rem := Remaining();
      var k := PutListHead(buf.sizebuf, buf.lheads[lhpos].size);
      lhpos := lhpos + 1;
      p := Piece(true, 0, k);
      assert rem == PieceBytes(p) + Merge(buf.str, buf.lheads[lhpos..], strpos);
    }

    /** Reads into a slice of the given length and returns the bytes stored there; end of
        file is reported as soon as everything has been handed out, and only then. */
    method Read(size: nat) returns (b: seq<byte>, eof: bool)
      requires Valid()
      modifies this, buf.sizebuf
      ensures Valid()
      ensures old(Remaining()) == b + Remaining()
      ensures |b| == if size < |old(Remaining())| then size else |old(Remaining())|
      ensures eof <==> size >= |old(Remaining())|
    {
      b := [];
      ghost var rem := Remaining();
      while true
        invariant Valid() && |b| <= size
        invariant rem == b + Remaining()
        decreases |rem| - |b|
      {
        var copied, short, end := Chunk(size - |b|);
        Assoc(b, copied, Remaining());
        b := b + copied;
        if end || short {
          return b, end;
        }
      }
    }

    /** One turn of the loop of Read: the end, or as much of the next piece as there is room for. */
    method Chunk(room: nat) returns (copied: seq<byte>, short: bool, end: bool)
      requires Valid()
      modifies this, buf.sizebuf
      ensures Valid() && old(Remaining()) == copied + Remaining() && |copied| <= room
      ensures end <==> old(Remaining()) == []
      ensures short ==> |copied| == room && Remaining() != []
      ensures !end && !short ==> copied != []
    {
      ghost var ahead := Remaining();
      piece := Next();
      if piece == NoPiece {
        released := true;
        return [], false, true;
      }
      assert Remaining() == ahead;
      copied, short := Consume(room);
      end := false;
    }

    /** copy(b[n:], piece), and what is left of the piece. */
    method Consume(room: nat) returns (copied: seq<byte>, short: bool)
      requires Valid() && !released && piece != NoPiece
      modifies this`piece
      ensures Valid()
      ensures old(Remaining()) == copied + Remaining()
      ensures |copied| <= room && (short ==> |copied| == room && Remaining() != [])
      ensures !short ==> copied != []
    {
      ghost var behind := Merge(buf.str, buf.lheads[lhpos..], strpos);
      var p := if piece.header then buf.sizebuf[piece.lo..piece.hi] else buf.str[piece.lo..piece.hi];
      var nn := if room < |p| then room else |p|;
      copied, short := p[..nn], nn < |p|;
      piece := if short then piece.(lo := piece.lo + nn) else NoPiece;
      assert PieceBytes(piece) == p[nn..];
      SplitPiece(p, nn, behind);
    }
  }

  lemma SplitPiece(p: seq<byte>, n: nat, behind: seq<byte>)
    requires n <= |p|
    ensures p + behind == p[..n] + (p[n..] + behind)
  {
  }

  /** The two ways a header can be ahead. */
  lemma HeadAhead(str: seq<byte>, heads: seq<Header>, i: nat, strpos: nat)
    requires i < |heads| && Ordered(heads[i..], strpos, |str|)
    ensures strpos <= heads[i].offset <= |str|
    ensures Ordered(heads[i..], heads[i].offset, |str|) && Ordered(heads[i + 1..], heads[i].offset, |str|)
    ensures Merge(str, heads[i..], strpos) == str[strpos..heads[i].offset] + Merge(str, heads[i..], heads[i].offset)
    ensures Merge(str, heads[i..], heads[i].offset) == ListHead(heads[i].size) + Merge(str, heads[i + 1..], heads[i].offset)
  {
    OrderedBounds(heads[i..], strpos, |str|);
    assert heads[i..][1..] == heads[i + 1..];
    MergeFrom(str, heads[i..], strpos, heads[i].offset);
  }
}
