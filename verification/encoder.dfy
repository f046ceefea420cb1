/** The encoder: a node becomes tag, length and value octets, with the
    source's silent truncation of over-long tags and values. */
module Encoder {
  import opened Wrappers
  import opened BerTlv
  import opened Tags
  import opened Lengths
  import opened Decoder

  /** The tag octets the encoder emits: a zero octet for the empty tag, the
      first three octets of a longer tag, otherwise the tag itself. */
  function EmittedTag(tag: Tag): (r: Tag)
    ensures 1 <= |r| <= 3
    ensures |tag| >= 1 ==> |r| <= |tag| && r == tag[..|r|]
    ensures 1 <= |tag| <= 3 ==> r == tag
    ensures |tag| == 0 ==> r == [0x00]
    ensures |tag| > 3 ==> r == tag[..3]
  {
    if 0 < |tag| <= 3 then tag
    else if |tag| == 0 then [0x00]
    else tag[..3]
  }

  /** The number of value octets the encoder emits. */
  function EmittedValueLength(t: Tlv): (n: nat)
    ensures n <= MaxLength && n <= |t.value|
    ensures n == |t.value| <==> |t.value| <= MaxLength
    ensures |t.value| > MaxLength ==> n == MaxLength
  {
    if |t.value| > MaxLength then MaxLength else |t.value|
  }

  /** BerTLV.Bytes: tag, length and value octets.  The stored children are
      not consulted; the value is authoritative. */
  function Bytes(t: Tlv): (r: seq<byte>)
    ensures 2 <= |r| <= 3 + 3 + MaxLength
  {
    var valueLen := EmittedValueLength(t);
    EmittedTag(t.tag) + BuildLen(valueLen) + t.value[..valueLen]
  }

  /** For a tag of one to three octets the encoding is the tag, the length
      octets of the emitted value length and the emitted value. */
  lemma {:induction false} EncodingOfShortTag(t: Tlv)
    ensures var n := EmittedValueLength(t);
            1 <= |t.tag| <= 3 ==> Bytes(t) == t.tag + BuildLen(n) + t.value[..n]
  {
  }

  /** BerTLVs.Bytes, as a specification: the encodings in order. */
  function EncodeAll(ts: seq<Tlv>): (r: seq<byte>)
    ensures |r| >= 2 * |ts|
  {
    if ts == [] then [] else Bytes(ts[0]) + EncodeAll(ts[1..])
  }

  /** BerTLVs.Bytes: appends the encoding of each node in turn. */
  method BytesOfAll(ts: seq<Tlv>) returns (b: seq<byte>)
    ensures b == EncodeAll(ts)
  {
    b := [];
    var i := 0;
    while i < |ts|
      invariant 0 <= i <= |ts|
      invariant EncodeAll(ts) == b + EncodeAll(ts[i..])
    {
      assert ts[i..][1..] == ts[i + 1..];
      assert EncodeAll(ts[i..]) == Bytes(ts[i]) + EncodeAll(ts[i + 1..]);
      assert b + (Bytes(ts[i]) + EncodeAll(ts[i + 1..])) == (b + Bytes(ts[i])) + EncodeAll(ts[i + 1..]);
      b := b + Bytes(ts[i]);
      i := i + 1;
    }
    assert ts[i..] == [];
  }

  /** BerTLV.BytesLength, as written: it counts the stored tag octets rather
      than the ones Bytes emits. */
  function BytesLength(t: Tlv): (n: nat)
    ensures 1 <= |t.tag| <= 3 ==> n == |Bytes(t)|
  {
    var lVal := if |t.value| > MaxLength then MaxLength else |t.value|;
    |t.tag| + |BuildLen(lVal)| + lVal
  }

  /** The length BytesLength evidently means: that of the octets Bytes
      emits, including the tag substitution and truncation. */
  function EncodedLength(t: Tlv): (n: nat)
    ensures n == |Bytes(t)|
  {
    var lVal := EmittedValueLength(t);
    |EmittedTag(t.tag)| + |BuildLen(lVal)| + lVal
  }

  /** BytesLength agrees with the encoding exactly when the tag needs
      neither substitution nor truncation. */
  lemma {:induction false} BytesLengthMatchesOnlyForShortTags(t: Tlv)
    ensures BytesLength(t) == |Bytes(t)| <==> 1 <= |t.tag| <= 3
    ensures |t.tag| == 0 ==> BytesLength(t) + 1 == |Bytes(t)|
    ensures |t.tag| > 3 ==> BytesLength(t) == |Bytes(t)| + |t.tag| - 3
  {
  }

  /** A node with an empty tag and an empty value encodes as two octets,
      while BytesLength reports one. */
  lemma {:induction false} BytesLengthOfEmptyTag()
    ensures Bytes(Tlv([], [], [])) == [0x00, 0x00]
    ensures BytesLength(Tlv([], [], [])) == 1
  {
  }

  /** A value longer than 65535 octets is encoded as its first 65535 octets,
      with length octets 0x82 0xFF 0xFF. */
  lemma {:induction false} EncodeTruncatesValue(t: Tlv)
    requires |t.value| > MaxLength
    ensures Bytes(t) == Bytes(t.(value := t.value[..MaxLength]))
    ensures Bytes(t)[|EmittedTag(t.tag)|..|EmittedTag(t.tag)| + 3] == [0x82, 0xFF, 0xFF]
  {
    var t' := t.(value := t.value[..MaxLength]);
    assert EmittedValueLength(t) == EmittedValueLength(t') == MaxLength;
    assert t'.value[..MaxLength] == t.value[..MaxLength];
    var e, len := EmittedTag(t.tag), BuildLen(MaxLength);
    MaxLengthEncoding();
    assert Bytes(t) == e + len + t.value[..MaxLength];
    assert (e + len + t.value[..MaxLength])[|e|..|e| + 3] == len;
  }

  /** An empty tag is encoded as the tag 0x00, a tag longer than three
      octets as its first three; the children never matter. */
  lemma {:induction false} EncodeSubstitutesTag(t: Tlv, cs: seq<Tlv>)
    ensures |t.tag| == 0 ==> Bytes(t) == Bytes(t.(tag := [0x00]))
    ensures |t.tag| > 3 ==> Bytes(t) == Bytes(t.(tag := t.tag[..3]))
    ensures Bytes(t) == Bytes(t.(children := cs))
  {
  }

  /** Encode-then-decode round trip for one node: a well-formed node is
      decoded back from its encoding, consuming exactly the encoding, whatever
      follows it. */
  lemma {:induction false} EncodeThenDecode(t: Tlv, rest: seq<byte>)
    requires WellFormed(t)
    ensures DecodeOne(Bytes(t) + rest) == Ok(Parsed(t, |Bytes(t)|))
  {
    var n := |t.value|;
    var len := BuildLen(n);
    assert t.value[..n] == t.value;
    var b := Bytes(t) + rest;
    assert b == t.tag + (len + t.value + rest);
    ParseTagOfValidTag(t.tag, len + t.value + rest);
    assert b[|t.tag|..] == len + (t.value + rest);
    LengthRoundTrip(n, t.value + rest);
    var d := DecodedLength(n, |len|);
    var start := |t.tag| + |len|;
    assert b[start..start + n] == t.value;
    DecodeOneWithinBounds(b, t.tag, d);
  }

  /** Decode-then-encode round trip for one node: when the encoding is as
      long as the octets the decoder consumed (the length octets were in
      their shortest form), the encoding is exactly those octets. */
  lemma {:induction false} DecodeThenEncode(b: seq<byte>)
    requires |b| >= 1 && DecodeOne(b).Ok?
    requires |Bytes(DecodeOne(b).value.tlv)| == DecodeOne(b).value.consumed
    ensures Bytes(DecodeOne(b).value.tlv) == b[..DecodeOne(b).value.consumed]
  {
    DecodeOneShape(b);
    var p := DecodeOne(b).value;
    var t := p.tlv;
    var x := b[|t.tag|..];
    var d := ParseLength(x).value;
    assert Bytes(t) == t.tag + BuildLen(d.length) + t.value by {
      EncodingOfShortTag(t);
      assert t.value[..|t.value|] == t.value;
    }
    BuildLenIsOnlyEncodingOfItsSize(x);
    assert b[..p.consumed] == b[..|t.tag|] + x[..d.size] + b[|t.tag| + d.size..p.consumed];
  }

  /** Encoding distributes over concatenation of node sequences. */
  lemma {:induction false} EncodeAllConcat(a: seq<Tlv>, c: seq<Tlv>)
    ensures EncodeAll(a + c) == EncodeAll(a) + EncodeAll(c)
    decreases |a|
  {
    if a == [] {
      assert a + c == c;
    } else {
      assert (a + c)[1..] == a[1..] + c;
      EncodeAllConcat(a[1..], c);
    }
  }

  /** Encode-then-decode round trip for a sequence of well-formed nodes. */
  lemma {:induction false} EncodeAllThenDecode(ts: seq<Tlv>)
    requires forall t | t in ts :: WellFormed(t)
    ensures DecodeSeq(EncodeAll(ts)) == Ok(ts)
    decreases |ts|
  {
    if ts != [] {
      var b := EncodeAll(ts);
      var rest := EncodeAll(ts[1..]);
      var n := |Bytes(ts[0])|;
      assert b == Bytes(ts[0]) + rest;
      EncodeThenDecode(ts[0], rest);
      assert b[n..] == rest;
      DecodeSeqOfFirst(b, ts[0], n);
      EncodeAllThenDecode(ts[1..]);
      assert [ts[0]] + ts[1..] == ts;
    }
  }

  /** Decode, encode, decode: re-decoding the encoding of a decoded tree
      gives the same tree back. */
  lemma {:induction false} DecodeEncodeDecode(b: seq<byte>)
    requires DecodeSeq(b).Ok?
    ensures DecodeSeq(EncodeAll(DecodeSeq(b).value)) == DecodeSeq(b)
  {
    DecodedSequenceIsWellFormed(b);
    EncodeAllThenDecode(DecodeSeq(b).value);
  }
}
