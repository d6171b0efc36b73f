/** The encoder and the decoder of go-ethereum/rlp put together. */
module RoundTrip {
  import opened Wrappers
  import opened BigEndian
  import opened Rlp
  import Encoder
  import EncoderOutput
  import Decoder

  /** A tree as the value that decoding into an interface produces. */
  function AsValue(t: Tree): (v: Encoder.Value)
    ensures Encoder.Meaning(v) == t
  {
    match t
    case Str(s) => Encoder.Bytes(s)
    case List(items) => Encoder.Slice(AsValues(items))
  }

  function AsValues(ts: seq<Tree>): (vs: seq<Encoder.Value>)
    ensures Encoder.Meanings(vs) == ts
  {
    if ts == [] then [] else [AsValue(ts[0])] + AsValues(ts[1..])
  }

  /** Decoding inverts encoding: whatever was written is read back as the tree it stands for. */
  method EncodeDecode(v: Encoder.Value) returns (r: Result<Tree, Decoder.Error>)
    requires |Enc(Encoder.Meaning(v))| < MAX_LEN
    ensures r == Ok(Encoder.Meaning(v))
  {
    var b, _ := EncoderOutput.EncodeToBytes(v);
    r := Decoder.DecodeBytes(b);
    assert b == Enc(Encoder.Meaning(v));
    EncInjective(Encoder.Meaning(v), r.value);
  }

  /** Encoding inverts decoding: an accepted byte string is written again byte for byte, so no
      two accepted strings decode to the same tree. */
  method DecodeEncode(b: seq<byte>) returns (r: Result<seq<byte>, Decoder.Error>)
    requires |b| < MAX_LEN
    ensures r.Ok? <==> exists t :: b == Enc(t)
    ensures r.Ok? ==> r.value == b
  {
    var t := Decoder.DecodeBytes(b);
    if t.Err? {
      return Err(t.error);
    }
    var out, _ := EncoderOutput.EncodeToBytes(AsValue(t.value));
    r := Ok(out);
  }
}
