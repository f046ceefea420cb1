/** Concrete cases from the repository's tests and edge cases of the code,
    proved from the general lemmas.

    Several lemmas take their fixed octet strings and nodes as parameters,
    pinned by `requires b == [...]`, instead of writing the literals into the
    `ensures`.  A literal inside a contract is re-evaluated wherever the
    decoder's recursive definitions unfold, which makes the proofs costly
    for the solver; a parameter keeps the literal in one place. */
module Examples {
  import opened Wrappers
  import opened BerTlv
  import opened Tags
  import opened Lengths
  import opened Decoder
  import opened Encoder
  import opened Builders

  /** Length octets at the boundaries of the three forms. */
  lemma {:induction false} LengthBoundaries()
    ensures BuildLen(0) == [0x00] && BuildLen(127) == [0x7F]
    ensures BuildLen(128) == [0x81, 0x80] && BuildLen(255) == [0x81, 0xFF]
    ensures BuildLen(256) == [0x82, 0x01, 0x00] && BuildLen(65535) == [0x82, 0xFF, 0xFF]
  {
  }

  /** Tags CheckEncoding rejects and accepts, with the reason for each
      rejection. */
  lemma {:induction false} TagEncodingCases()
    ensures CheckEncoding([0x01, 0x02, 0x03, 0x04]) == Fail(TooLong(4))
    ensures CheckEncoding([0x1F]) == Fail(OneByteAnnouncesMore)
    ensures CheckEncoding([0x1E, 0x30]) == Fail(FirstByteAnnouncesNoMore)
    ensures CheckEncoding([0x1F, 0x80]) == Fail(TwoBytesAnnounceMore)
    ensures CheckEncoding([0x1C, 0x80, 0x10]) == Fail(FirstByteAnnouncesNoMore)
    ensures CheckEncoding([0x1F, 0x70, 0x10]) == Fail(ThreeBytesAnnounceNoMore)
    ensures CheckEncoding([0x80]) == Pass
    ensures CheckEncoding([0x1F, 0x7F]) == Pass
    ensures CheckEncoding([0x1F, 0x80, 0x90]) == Pass
  {
  }

  /** A first TLV whose length octets do not parse fails the buffer with the
      length error. */
  lemma {:induction false} FailsAtLength(b: seq<byte>, tag: Tag)
    requires |b| >= 1 && ParseTag(b) == Ok(tag) && ParseLength(b[|tag|..]).Err?
    ensures DecodeSeq(b) == Err(ParseLength(b[|tag|..]).error)
  {
    DecodeSeqOfFailure(b);
  }

  /** A first TLV with a constructed tag whose value does not decode fails
      the buffer as an invalid child of that tag. */
  lemma {:induction false} FailsInValue(b: seq<byte>, tag: Tag, d: DecodedLength)
    requires |b| >= 1 && ParseTag(b) == Ok(tag) && ParseLength(b[|tag|..]) == Ok(d)
    requires |tag| + d.size + d.length <= |b| && d.length > 0 && IsConstructed(tag)
    requires DecodeSeq(b[|tag| + d.size..|tag| + d.size + d.length]).Err?
    ensures DecodeSeq(b) == Err(InvalidChild(tag, DecodeSeq(b[|tag| + d.size..|tag| + d.size + d.length]).error))
  {
    DecodeOneWithinBounds(b, tag, d);
    DecodeSeqOfFailure(b);
  }

  /** A single-octet tag with nothing after it lacks its length octets. */
  lemma {:induction false} LoneTag(b: seq<byte>)
    requires |b| == 1 && TagNumberBits(b[0]) != 0x1F
    ensures DecodeSeq(b) == Err(MissingLength)
  {
    assert b == [b[0]] && b[1..] == [];
    assert ParseTag(b) == Ok(b);
    FailsAtLength(b, b);
  }

  /** Tags cut off before their announced subsequent octets. */
  lemma {:induction false} TagCutShort(b1: seq<byte>, b2: seq<byte>)
    requires b1 == [0x1F] && b2 == [0x1F, 0x80]
    ensures DecodeSeq(b1) == Err(MissingTagBytes(2))
    ensures DecodeSeq(b2) == Err(MissingTagBytes(3))
  {
    assert ParseTag(b1) == Err(MissingTagBytes(2));
    DecodeSeqOfFailure(b1);
    assert ParseTag(b2) == Err(MissingTagBytes(3));
    DecodeSeqOfFailure(b2);
  }

  /** A declared length past the end of the input is reported with the tag. */
  lemma {:induction false} ValuePastEnd(b: seq<byte>)
    requires b == [0x7F, 0x01, 0x01]
    ensures DecodeSeq(b) == Err(ValueOutOfBounds([0x7F, 0x01]))
  {
    var tag: Tag := [0x7F, 0x01];
    assert b == tag + [0x01];
    ParseTagOfValidTag(tag, [0x01]);
    assert b[|tag|..] == [0x01];
    var d := DecodedLength(1, 1);
    assert ParseLength([0x01]) == Ok(d);
    DeclaredLengthPastEnd(b, tag, d);
    DecodeSeqOfFailure(b);
  }

  /** A constructed tag whose one-octet value is a tag without length octets
      is rejected as holding an invalid child. */
  lemma {:induction false} ChildWithoutLength(b: seq<byte>, tag: Tag)
    requires (b == [0x71, 0x01, 0x01] && tag == [0x71]) || (b == [0xB0, 0x01, 0x80] && tag == [0xB0])
    ensures DecodeSeq(b) == Err(InvalidChild(tag, MissingLength))
  {
    assert b == tag + [0x01, b[2]];
    ParseTagOfValidTag(tag, [0x01, b[2]]);
    assert b[1..] == [0x01, b[2]];
    var d := DecodedLength(1, 1);
    assert ParseLength([0x01, b[2]]) == Ok(d);
    assert b[2..3] == [b[2]];
    LoneTag([b[2]]);
    FailsInValue(b, tag, d);
  }

  /** After the complete primitive node `first`, decoding goes on with
      whatever follows and fails exactly as that remainder does. */
  lemma {:induction false} AfterFirstNode(first: seq<byte>, c: seq<byte>)
    requires first == [0x90, 0x03, 0x01, 0x02, 0x03]
    ensures DecodeSeq(first + c) == PrependOk([Tlv([0x90], [0x01, 0x02, 0x03], [])], DecodeSeq(c))
  {
    var t := Tlv([0x90], [0x01, 0x02, 0x03], []);
    PrimitiveLeaf(t);
    ShortFormNode(t, 0x03);
    SingleNode(t);
    assert Bytes(t) == first;
    DecodeSeqConcat(Bytes(t), c);
  }

  /** A second node with tag 0x91 and broken length octets, after the
      complete node `first`, fails the whole buffer with the length error. */
  lemma {:induction false} BrokenSecondLength(first: seq<byte>, c: seq<byte>)
    requires first == [0x90, 0x03, 0x01, 0x02, 0x03]
    requires |c| >= 1 && c[0] == 0x91 && ParseLength(c[1..]).Err?
    ensures DecodeSeq(first + c) == Err(ParseLength(c[1..]).error)
  {
    assert c == [0x91] + c[1..];
    ParseTagOfValidTag([0x91], c[1..]);
    FailsAtLength(c, [0x91]);
    AfterFirstNode(first, c);
  }

  /** Broken length octets in a second node, after the complete node
      `first`, fail the whole buffer, with the kind of failure. */
  lemma {:induction false} RejectedLengths(first: seq<byte>)
    requires first == [0x90, 0x03, 0x01, 0x02, 0x03]
    ensures DecodeSeq(first + [0x91]) == Err(MissingLength)
    ensures DecodeSeq(first + [0x91, 0x81]) == Err(MissingLengthBytes(2))
    ensures DecodeSeq(first + [0x91, 0x82, 0x00]) == Err(MissingLengthBytes(3))
    ensures DecodeSeq(first + [0x91, 0x82]) == Err(MissingLengthBytes(3))
    ensures DecodeSeq(first + [0x91, 0x8F]) == Err(UnsupportedLengthForm(0x8F))
  {
    assert [0x91][1..] == [];
    BrokenSecondLength(first, [0x91]);
    assert [0x91, 0x81][1..] == [0x81];
    BrokenSecondLength(first, [0x91, 0x81]);
    assert [0x91, 0x82, 0x00][1..] == [0x82, 0x00];
    BrokenSecondLength(first, [0x91, 0x82, 0x00]);
    assert [0x91, 0x82][1..] == [0x82];
    BrokenSecondLength(first, [0x91, 0x82]);
    assert [0x91, 0x8F][1..] == [0x8F];
    BrokenSecondLength(first, [0x91, 0x8F]);
  }

  /** A constructed tag with declared length zero is a node with no value
      and no children, not an error. */
  lemma {:induction false} EmptyConstructedNode()
    ensures DecodeSeq([0x71, 0x00]) == Ok([Tlv([0x71], [], [])])
  {
    var t := Tlv([0x71], [], []);
    assert WellFormed(t);
    EncodeAllThenDecode([t]);
    assert EncodeAll([t]) == [0x71, 0x00];
  }

  /** A node with a short tag and at most 127 value octets is encoded with
      the single length octet that states the value length. */
  lemma {:induction false} ShortFormNode(t: Tlv, len: byte)
    requires 1 <= |t.tag| <= 3 && |t.value| <= 0x7F && len as nat == |t.value|
    ensures Bytes(t) == t.tag + [len] + t.value
  {
    EncodingOfShortTag(t);
    assert t.value[..|t.value|] == t.value;
    var octets := BuildLen(|t.value|);
    assert octets == [octets[0]];
  }

  /** One well-formed node decodes from its own encoding. */
  lemma {:induction false} SingleNode(t: Tlv)
    requires WellFormed(t)
    ensures DecodeSeq(Bytes(t)) == Ok([t])
  {
    EncodeAllOfOne(t);
    EncodeAllThenDecode([t]);
  }

  lemma {:induction false} EncodeAllOfOne(t: Tlv)
    ensures EncodeAll([t]) == Bytes(t)
  {
    assert [t][1..] == [];
    assert EncodeAll([t]) == Bytes(t) + EncodeAll([]);
    assert Bytes(t) + [] == Bytes(t);
  }

  lemma {:induction false} EncodeAllOfTwo(a: Tlv, c: Tlv)
    ensures EncodeAll([a, c]) == Bytes(a) + Bytes(c)
  {
    assert [a, c][1..] == [c];
    assert EncodeAll([a, c]) == Bytes(a) + EncodeAll([c]);
    EncodeAllOfOne(c);
  }

  /** A node whose tag is well encoded and primitive, with a value the
      length octets can state, is well formed with no children. */
  lemma {:induction false} PrimitiveLeaf(t: Tlv)
    requires |t.tag| >= 1 && CheckEncoding(t.tag).Pass? && !IsConstructed(t.tag)
    requires |t.value| <= MaxLength && t.children == []
    ensures WellFormed(t)
  {
  }

  /** The two primitive leaves of the nested example decode from their
      fourteen octets. */
  lemma {:induction false} NestedLeaves(b: seq<byte>, a: Tlv, c: Tlv)
    requires b == [0x0F, 0x05, 0x01, 0x02, 0x03, 0x04, 0x05,
                   0x0E, 0x05, 0x05, 0x04, 0x03, 0x02, 0x01]
    requires a == Tlv([0x0F], [0x01, 0x02, 0x03, 0x04, 0x05], [])
    requires c == Tlv([0x0E], [0x05, 0x04, 0x03, 0x02, 0x01], [])
    ensures DecodeSeq(b) == Ok([a, c])
  {
    PrimitiveLeaf(a);
    PrimitiveLeaf(c);
    LeavesEncoding(b, a, c);
    EncodeAllOfTwo(a, c);
    EncodeAllThenDecode([a, c]);
  }

  lemma {:induction false} LeavesEncoding(b: seq<byte>, a: Tlv, c: Tlv)
    requires b == [0x0F, 0x05, 0x01, 0x02, 0x03, 0x04, 0x05,
                   0x0E, 0x05, 0x05, 0x04, 0x03, 0x02, 0x01]
    requires a == Tlv([0x0F], [0x01, 0x02, 0x03, 0x04, 0x05], [])
    requires c == Tlv([0x0E], [0x05, 0x04, 0x03, 0x02, 0x01], [])
    ensures b == Bytes(a) + Bytes(c)
  {
    ShortFormNode(a, 0x05);
    ShortFormNode(c, 0x05);
  }

  /** A constructed node with a short tag, whose value of at most 127
      octets decodes into its children, is well formed and encoded with the
      single length octet. */
  lemma {:induction false} ConstructedShortForm(t: Tlv, len: byte)
    requires 1 <= |t.tag| <= 3 && CheckEncoding(t.tag).Pass? && IsConstructed(t.tag)
    requires DecodeSeq(t.value) == Ok(t.children)
    requires |t.value| <= 0x7F && len as nat == |t.value|
    ensures WellFormed(t) && Bytes(t) == t.tag + [len] + t.value
  {
    ShortFormNode(t, len);
  }

  /** A constructed node whose value is the encoding of one well-formed
      node is well formed, holds that node as its only child, and decodes
      from its own encoding. */
  lemma {:induction false} WrapOne(t: Tlv, inner: Tlv, len: byte)
    requires WellFormed(inner)
    requires 1 <= |t.tag| <= 3 && CheckEncoding(t.tag).Pass? && IsConstructed(t.tag)
    requires t.value == Bytes(inner) && t.children == [inner]
    requires |t.value| <= 0x7F && len as nat == |t.value|
    ensures WellFormed(t) && Bytes(t) == t.tag + [len] + Bytes(inner)
    ensures DecodeSeq(Bytes(t)) == Ok([t])
  {
    SingleNode(inner);
    ConstructedShortForm(t, len);
    SingleNode(t);
  }

  /** Two levels of constructed nodes: 0x71 holding 0xB0 holding the
      primitive nodes 0x0F and 0x0E. */
  lemma {:induction false} NestedExample(b: seq<byte>, inner: seq<byte>, a: Tlv, c: Tlv)
    requires inner == [0x0F, 0x05, 0x01, 0x02, 0x03, 0x04, 0x05,
                       0x0E, 0x05, 0x05, 0x04, 0x03, 0x02, 0x01]
    requires a == Tlv([0x0F], [0x01, 0x02, 0x03, 0x04, 0x05], [])
    requires c == Tlv([0x0E], [0x05, 0x04, 0x03, 0x02, 0x01], [])
    requires b == [0x71, 0x10] + [0xB0, 0x0E] + inner
    ensures DecodeSeq(b) == Ok([Tlv([0x71], [0xB0, 0x0E] + inner, [Tlv([0xB0], inner, [a, c])])])
  {
    NestedLeaves(inner, a, c);
    var mid := Tlv([0xB0], inner, [a, c]);
    MiddleNode(mid, inner, a, c);
    var top := Tlv([0x71], [0xB0, 0x0E] + inner, [mid]);
    WrapOne(top, mid, 0x10);
    Regroup(0x71, 0x10, [0xB0, 0x0E], inner);
  }

  /** The middle node 0xB0 of the nested example, holding the two nodes its
      fourteen value octets decode to, is well formed and encoded with the
      single length octet 0x0E. */
  lemma {:induction false} MiddleNode(mid: Tlv, inner: seq<byte>, a: Tlv, c: Tlv)
    requires DecodeSeq(inner) == Ok([a, c]) && |inner| == 0x0E
    requires mid == Tlv([0xB0], inner, [a, c])
    ensures WellFormed(mid) && Bytes(mid) == [0xB0, 0x0E] + inner
  {
    assert CheckEncoding([0xB0]).Pass? && IsConstructed([0xB0]);
    ConstructedShortForm(mid, 0x0E);
  }

  lemma {:induction false} Regroup(x: byte, y: byte, s: seq<byte>, t: seq<byte>)
    ensures [x] + [y] + (s + t) == [x, y] + s + t
  {
    assert [x] + [y] == [x, y];
  }

  /** NewBerTLV on a constructed tag: a value holding one complete node
      gives that node as the only child, and a value with an incomplete node
      after a complete one is rejected as an invalid child. */
  method NewBerTlvCases() returns (one: Result<Tlv, TlvError>, invalid: Result<Tlv, TlvError>)
    ensures one == Ok(Tlv([0x2A], [0x10, 0x03, 0x03, 0x04, 0x05], [Tlv([0x10], [0x03, 0x04, 0x05], [])]))
    ensures invalid == Err(InvalidChild([0x2A], MissingLength))
  {
    var child := Tlv([0x10], [0x03, 0x04, 0x05], []);
    PrimitiveLeaf(child);
    ShortFormNode(child, 0x03);
    SingleNode(child);
    assert IsConstructed([0x2A]);
    assert Bytes(child) == [0x10, 0x03, 0x03, 0x04, 0x05];
    one := NewBerTlv([0x2A], [0x10, 0x03, 0x03, 0x04, 0x05]);

    var first := Tlv([0x10], [0x03, 0x04], []);
    PrimitiveLeaf(first);
    ShortFormNode(first, 0x02);
    SingleNode(first);
    assert [0x05][1..] == [];
    DecodeSeqConcat(Bytes(first), [0x05]);
    assert Bytes(first) + [0x05] == [0x10, 0x02, 0x03, 0x04, 0x05];
    invalid := NewBerTlv([0x2A], [0x10, 0x02, 0x03, 0x04, 0x05]);
  }

  /** Appending tag 0x0A with the single value octet 0xFF, through AddByte
      or through AddBytes, gives 0A 01 FF; finalising gives the same nodes as
      decoding those octets directly. */
  method BuilderMatchesDecoder() returns (viaByte: seq<byte>, r: Result<seq<Tlv>, TlvError>)
    ensures viaByte == [0x0A, 0x01, 0xFF]
    ensures r == DecodeSeq(viaByte)
    ensures r == Ok([Tlv([0x0A], [0xFF], [])])
  {
    var b := new Builder();
    var b0 := b.AddByte([0x0A], 0xFF);
    viaByte := b0.Bytes();
    assert viaByte == [0x0A, 0x01, 0xFF];
    var b1 := b.AddBytes([0x0A], [0xFF]);
    assert b1.bytes == viaByte;
    OneOctetNode(viaByte);
    r := b1.BuildBerTlvs();
  }

  /** 0A 01 FF is the node with tag 0x0A and the single value octet 0xFF. */
  lemma {:induction false} OneOctetNode(b: seq<byte>)
    requires b == [0x0A, 0x01, 0xFF]
    ensures DecodeSeq(b) == Ok([Tlv([0x0A], [0xFF], [])])
  {
    var t := Tlv([0x0A], [0xFF], []);
    PrimitiveLeaf(t);
    ShortFormNode(t, 0x01);
    SingleNode(t);
    assert Bytes(t) == b;
  }

  /** A value of 65536 octets is cut to its first 65535, behind the length
      octets 82 FF FF. */
  method BuilderTruncates(v: seq<byte>) returns (out: seq<byte>)
    requires |v| == 0x1_0000
    ensures out == [0x0A, 0x82, 0xFF, 0xFF] + v[..0xFFFF]
  {
    var b := new Builder();
    var b1 := b.AddBytes([0x0A], v);
    MaxLengthEncoding();
    out := b1.Bytes();
  }

  /** Three well-formed nodes decode from their encodings laid end to end. */
  lemma {:induction false} ThreeNodes(t0: Tlv, t1: Tlv, t2: Tlv)
    requires WellFormed(t0) && WellFormed(t1) && WellFormed(t2)
    ensures DecodeSeq(Bytes(t0) + Bytes(t1) + Bytes(t2)) == Ok([t0, t1, t2])
  {
    var ts := [t0, t1, t2];
    assert ts[1..] == [t1, t2];
    assert EncodeAll(ts) == Bytes(t0) + EncodeAll([t1, t2]);
    EncodeAllOfTwo(t1, t2);
    assert Bytes(t0) + (Bytes(t1) + Bytes(t2)) == Bytes(t0) + Bytes(t1) + Bytes(t2);
    assert forall t | t in ts :: WellFormed(t);
    EncodeAllThenDecode(ts);
  }

  /** The constructed node 3F 0A holding 10 02 01 02 is well formed, with
      the primitive node 0x10 as its only child. */
  lemma {:induction false} ChainMiddle(t1: Tlv)
    requires t1 == Tlv([0x3F, 0x0A], [0x10, 0x02, 0x01, 0x02], [Tlv([0x10], [0x01, 0x02], [])])
    ensures WellFormed(t1)
  {
    var child := t1.children[0];
    PrimitiveLeaf(child);
    ShortFormNode(child, 0x02);
    assert Bytes(child) == t1.value;
    SingleNode(child);
    assert IsConstructed(t1.tag);
  }

  /** The builder chain of the repository's test: an empty 0x0A, a
      constructed 3F 0A holding 10 02 01 02, and the single octet 0xFF under
      1F 80 0A. */
  method BuilderChain() returns (r: Result<seq<Tlv>, TlvError>)
    ensures r == Ok([Tlv([0x0A], [], []),
                     Tlv([0x3F, 0x0A], [0x10, 0x02, 0x01, 0x02], [Tlv([0x10], [0x01, 0x02], [])]),
                     Tlv([0x1F, 0x80, 0x0A], [0xFF], [])])
  {
    var b := new Builder();
    var b1 := b.AddEmpty([0x0A]);
    var b2 := b1.AddBytes([0x3F, 0x0A], [0x10, 0x02, 0x01, 0x02]);
    var b3 := b2.AddByte([0x1F, 0x80, 0x0A], 0xFF);

    var t0 := Tlv([0x0A], [], []);
    var t1 := Tlv([0x3F, 0x0A], [0x10, 0x02, 0x01, 0x02], [Tlv([0x10], [0x01, 0x02], [])]);
    var t2 := Tlv([0x1F, 0x80, 0x0A], [0xFF], []);
    PrimitiveLeaf(t0);
    ChainMiddle(t1);
    PrimitiveLeaf(t2);
    ShortFormNode(t0, 0x00);
    assert b1.bytes == Bytes(t0);
    EncodeSubstitutesTag(t1, []);
    assert b2.bytes == Bytes(t0) + Bytes(t1);
    assert b3.bytes == Bytes(t0) + Bytes(t1) + Bytes(t2);
    ThreeNodes(t0, t1, t2);
    r := b3.BuildBerTlvs();
  }
}
