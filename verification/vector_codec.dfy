/** The little-endian IEEE 754 binary32 packing of an embedding vector
    (`FloatArrayToByteArray`). A float is modelled as its opaque 32-bit
    pattern; nothing here depends on its numeric value. */
module VectorCodec {

  /** The bit pattern of one `float`. */
  type Float32 = bv32

  /** Byte `k` of a pattern, counting from the least significant. */
  function ByteOf(f: Float32, k: bv32): bv8
    requires k < 4
  {
    ((f >> (8 * k)) & 0xFF) as bv8
  }

  /** The pattern whose bytes, least significant first, are `b0 .. b3`. */
  function Pack(b0: bv8, b1: bv8, b2: bv8, b3: bv8): Float32 {
    (b0 as bv32) | ((b1 as bv32) << 8) | ((b2 as bv32) << 16) | ((b3 as bv32) << 24)
  }

  /** The four bytes of a pattern, least significant first. */
  function LeBytes(f: Float32): (b: seq<bv8>)
    ensures |b| == 4
  {
    [ByteOf(f, 0), ByteOf(f, 1), ByteOf(f, 2), ByteOf(f, 3)]
  }

  /** Reads four bytes low-byte-first. */
  function FromLeBytes(b: seq<bv8>): Float32
    requires |b| == 4
  {
    Pack(b[0], b[1], b[2], b[3])
  }

  function Reverse4(b: seq<bv8>): (r: seq<bv8>)
    requires |b| == 4
    ensures |r| == 4
  {
    [b[3], b[2], b[1], b[0]]
  }

  /** `BitConverter.GetBytes(float)`: the pattern in the host's byte order. */
  function HostBytes(f: Float32, hostIsLittleEndian: bool): seq<bv8>
  {
    if hostIsLittleEndian then LeBytes(f) else Reverse4(LeBytes(f))
  }

  /** The four bytes written for one float: the host bytes, reversed on a
      big-endian host. Whatever the host, the result is little-endian. */
  function FloatBytes(f: Float32, hostIsLittleEndian: bool): (b: seq<bv8>)
    ensures b == LeBytes(f)
  {
    var raw := HostBytes(f, hostIsLittleEndian);
    if !hostIsLittleEndian then Reverse4(raw) else raw
  }

  lemma LeBytesRoundTrip(f: Float32)
    ensures FromLeBytes(LeBytes(f)) == f
  {
  }

  lemma FromLeBytesRoundTrip(b: seq<bv8>)
    requires |b| == 4
    ensures LeBytes(FromLeBytes(b)) == b
  {
    PackBytes(b[0], b[1], b[2], b[3]);
  }

  /** Unpacking a packed pattern gives back its bytes. */
  lemma PackBytes(b0: bv8, b1: bv8, b2: bv8, b3: bv8)
    ensures var f := Pack(b0, b1, b2, b3);
      ByteOf(f, 0) == b0 && ByteOf(f, 1) == b1 && ByteOf(f, 2) == b2 && ByteOf(f, 3) == b3
  {
  }

  /** The blob for a whole vector: the floats' byte groups in vector order. */
  function Encode(v: seq<Float32>): (b: seq<bv8>)
    ensures |b| == 4 * |v|
  {
    if |v| == 0 then [] else LeBytes(v[0]) + Encode(v[1..])
  }

  /** How the store reads a blob back: each 4-byte group low-byte-first. */
  function Decode(b: seq<bv8>): (v: seq<Float32>)
    requires |b| % 4 == 0
    ensures |v| == |b| / 4
  {
    if |b| == 0 then [] else [FromLeBytes(b[..4])] + Decode(b[4..])
  }

  /** Float `i` of the vector occupies bytes `4i .. 4i+3` of the blob. */
  lemma {:induction false} EncodeLayout(v: seq<Float32>, i: nat)
    requires i < |v|
    ensures Encode(v)[4 * i .. 4 * i + 4] == LeBytes(v[i])
    decreases i
  {
    if i > 0 {
      EncodeLayout(v[1..], i - 1);
      assert Encode(v)[4 * i .. 4 * i + 4] == Encode(v[1..])[4 * (i - 1) .. 4 * (i - 1) + 4];
    }
  }

  lemma {:induction false} DecodeEncode(v: seq<Float32>)
    ensures Decode(Encode(v)) == v
  {
    if |v| > 0 {
      var b := Encode(v);
      assert b[..4] == LeBytes(v[0]);
      assert b[4..] == Encode(v[1..]);
      DecodeEncode(v[1..]);
    }
  }

  lemma {:induction false} EncodeDecode(b: seq<bv8>)
    requires |b| % 4 == 0
    ensures Encode(Decode(b)) == b
    decreases |b|
  {
    if |b| > 0 {
      var v := Decode(b);
      assert v[0] == FromLeBytes(b[..4]);
      assert v[1..] == Decode(b[4..]);
      FromLeBytesRoundTrip(b[..4]);
      EncodeDecode(b[4..]);
      assert b == b[..4] + b[4..];
    }
  }

  /** `FloatArrayToByteArray`: a buffer of `4 * |vector|` bytes filled one
      float at a time, each float's bytes normalised to little-endian. */
  method FloatArrayToByteArray(vector: seq<Float32>, hostIsLittleEndian: bool) returns (bytes: seq<bv8>)
    ensures |bytes| == 4 * |vector|
    ensures bytes == Encode(vector)
    ensures forall i :: 0 <= i < |vector| ==> bytes[4 * i .. 4 * i + 4] == LeBytes(vector[i])
    ensures Decode(bytes) == vector
  {
    bytes := seq(4 * |vector|, _ => 0);
    var i := 0;
    while i < |vector|
      invariant 0 <= i <= |vector|
      invariant |bytes| == 4 * |vector|
      invariant bytes[..4 * i] == Encode(vector[..i])
    {
      var b := FloatBytes(vector[i], hostIsLittleEndian);
      assert vector[..i + 1] == vector[..i] + [vector[i]];
      EncodeAppend(vector[..i], vector[i]);
      bytes := bytes[..4 * i] + b + bytes[4 * i + 4..];
      i := i + 1;
    }
    assert vector[..i] == vector;
    assert bytes == Encode(vector);
    forall j | 0 <= j < |vector|
      ensures bytes[4 * j .. 4 * j + 4] == LeBytes(vector[j])
    {
      EncodeLayout(vector, j);
    }
    DecodeEncode(vector);
  }

  lemma {:induction false} EncodeAppend(v: seq<Float32>, f: Float32)
    ensures Encode(v + [f]) == Encode(v) + LeBytes(f)
  {
    if |v| == 0 {
      assert v + [f] == [f];
    } else {
      assert (v + [f])[1..] == v[1..] + [f];
      EncodeAppend(v[1..], f);
    }
  }
}
