/** The recursive decoder: a buffer becomes an ordered sequence of nodes, and
    the value of a constructed node is itself decoded as the sequence of its
    children, which must use the value up exactly. */
module Decoder {
  import opened Wrappers
  import opened BerTlv
  import opened Tags
  import opened Lengths

  /** The first TLV of `b` and the number of octets it takes up.  Every
      caller in the source passes a non-empty slice (parseTag reads `b[0]`). */
  function DecodeOne(b: seq<byte>): (r: Result<Parsed, TlvError>)
    requires |b| >= 1
    ensures r.Ok? ==> 2 <= r.value.consumed <= |b|
    ensures r.Ok? && r.value.tlv.children != [] ==>
              IsConstructed(r.value.tlv.tag) && r.value.tlv.value != []
    decreases |b|, 0
  {
    match ParseTag(b)
    case Err(e) => Err(e)
    case Ok(tag) =>
      match ParseLength(b[|tag|..])
      case Err(e) => Err(e)
      case Ok(d) =>
        var start := |tag| + d.size;
        if start + d.length > |b| then Err(ValueOutOfBounds(tag))
        else NodeFromValue(tag, b[start..start + d.length], start)
  }

  /** The node built from a tag and the value cut out for it, `header`
      being the number of tag and length octets before the value: an empty
      value gives a node with no value and no children, the value of a
      constructed tag is decoded into the children, and a child that does
      not decode is reported with the tag. */
  function NodeFromValue(tag: Tag, value: seq<byte>, header: nat): (r: Result<Parsed, TlvError>)
    ensures r.Ok? ==> r.value.tlv.tag == tag && r.value.tlv.value == value
    ensures r.Ok? ==> r.value.consumed == header + |value|
    ensures r.Ok? && r.value.tlv.children != [] ==> IsConstructed(tag) && value != []
    ensures r.Err? ==> IsConstructed(tag) && value != [] &&
                       DecodeSeq(value).Err? && r.error == InvalidChild(tag, DecodeSeq(value).error)
    decreases |value|, 2
  {
    if |value| == 0 then Ok(Parsed(Tlv(tag, [], []), header))
    else if IsConstructed(tag) then
      match DecodeSeq(value)
      case Err(e) => Err(InvalidChild(tag, e))
      case Ok(children) => Ok(Parsed(Tlv(tag, value, children), header + |value|))
    else Ok(Parsed(Tlv(tag, value, []), header + |value|))
  }

  /** A non-empty value of a constructed tag gives the node holding its
      decoded children, or the failure to decode them as an invalid child. */
  lemma {:induction false} ConstructedNode(tag: Tag, value: seq<byte>, header: nat)
    requires |value| > 0 && IsConstructed(tag)
    ensures DecodeSeq(value).Ok? ==>
              NodeFromValue(tag, value, header) == Ok(Parsed(Tlv(tag, value, DecodeSeq(value).value), header + |value|))
    ensures DecodeSeq(value).Err? ==>
              NodeFromValue(tag, value, header) == Err(InvalidChild(tag, DecodeSeq(value).error))
  {
  }

  /** A non-empty value of a primitive tag gives a node with no children. */
  lemma {:induction false} PrimitiveNode(tag: Tag, value: seq<byte>, header: nat)
    requires |value| > 0 && !IsConstructed(tag)
    ensures NodeFromValue(tag, value, header) == Ok(Parsed(Tlv(tag, value, []), header + |value|))
  {
  }

  /** What a decoded TLV is made of: the tag ParseTag reads, the length
      the length octets state, and the value octets that follow them. */
  lemma {:induction false} DecodeOneShape(b: seq<byte>)
    requires |b| >= 1 && DecodeOne(b).Ok?
    ensures var p := DecodeOne(b).value;
            && ParseTag(b) == Ok(p.tlv.tag)
            && ParseLength(b[|p.tlv.tag|..]).Ok?
            && var d := ParseLength(b[|p.tlv.tag|..]).value;
               && d.length == |p.tlv.value|
               && p.consumed == |p.tlv.tag| + d.size + d.length
               && p.tlv.value == b[|p.tlv.tag| + d.size .. p.consumed]
  {
  }

  /** Decodes TLVs one after another until `b` is used up; the empty buffer
      is the empty sequence.  Any failure fails the whole sequence. */
  function DecodeSeq(b: seq<byte>): (r: Result<seq<Tlv>, TlvError>)
    ensures r.Ok? ==> 2 * |r.value| <= |b|
    ensures r.Ok? ==> (r.value == [] <==> |b| == 0)
    decreases |b|, 1
  {
    if |b| == 0 then Ok([])
    else
      match DecodeOne(b)
      case Err(e) => Err(e)
      case Ok(p) =>
        match DecodeSeq(b[p.consumed..])
        case Err(e) => Err(e)
        case Ok(rest) => Ok([p.tlv] + rest)
  }

  /** The children the source derives from a node's value: those of a
      constructed tag are its value decoded as a sequence, a primitive tag
      has none. */
  function DeriveChildren(tag: Tag, value: seq<byte>): (r: Result<seq<Tlv>, TlvError>)
    ensures !IsConstructed(tag) ==> r == Ok([])
    ensures r.Ok? ==> 2 * |r.value| <= |value|
    ensures r.Ok? && r.value != [] ==> IsConstructed(tag) && value != []
  {
    if IsConstructed(tag) then DecodeSeq(value) else Ok([])
  }

  /** The nodes the decoder produces: a well-encoded tag, a value whose
      length the length octets can state, and children that are exactly the
      decoding of the value. */
  predicate WellFormed(t: Tlv) {
    && |t.tag| >= 1 && CheckEncoding(t.tag).Pass?
    && |t.value| <= MaxLength
    && DeriveChildren(t.tag, t.value) == Ok(t.children)
  }

  /** `r` with `prefix` put in front of its nodes, if it succeeded. */
  function PrependOk(prefix: seq<Tlv>, r: Result<seq<Tlv>, TlvError>): Result<seq<Tlv>, TlvError> {
    match r
    case Ok(s) => Ok(prefix + s)
    case Err(e) => Err(e)
  }

  lemma {:induction false} PrependOkTwice(p: seq<Tlv>, q: seq<Tlv>, r: Result<seq<Tlv>, TlvError>)
    ensures PrependOk(p, PrependOk(q, r)) == PrependOk(p + q, r)
  {
    if r.Ok? {
      assert p + (q + r.value) == (p + q) + r.value;
    }
  }

  lemma {:induction false} PrependNothing(r: Result<seq<Tlv>, TlvError>)
    ensures PrependOk([], r) == r
  {
    if r.Ok? {
      assert [] + r.value == r.value;
    }
  }

  /** A buffer whose first TLV decodes is that node followed by the
      decoding of what comes after it. */
  lemma {:induction false} DecodeSeqOfFirst(b: seq<byte>, t: Tlv, n: nat)
    requires |b| >= 1 && DecodeOne(b) == Ok(Parsed(t, n))
    ensures DecodeSeq(b) == PrependOk([t], DecodeSeq(b[n..]))
  {
  }

  /** Skipping `i` octets and then `j` more skips `i + j`. */
  lemma {:induction false} DropTwice(b: seq<byte>, i: nat, j: nat)
    requires i + j <= |b|
    ensures b[i..][j..] == b[i + j..]
  {
  }

  /** A buffer whose first TLV fails to decode fails as a whole, with that
      failure. */
  lemma {:induction false} DecodeSeqOfFailure(b: seq<byte>)
    requires |b| >= 1 && DecodeOne(b).Err?
    ensures DecodeSeq(b) == Err(DecodeOne(b).error)
  {
  }

  /** DecodeOne once its tag and length octets have been read and the value
      lies within the input. */
  lemma {:induction false} DecodeOneWithinBounds(b: seq<byte>, tag: Tag, d: DecodedLength)
    requires |b| >= 1 && ParseTag(b) == Ok(tag)
    requires ParseLength(b[|tag|..]) == Ok(d)
    requires |tag| + d.size + d.length <= |b|
    ensures var start := |tag| + d.size;
            DecodeOne(b) == NodeFromValue(tag, b[start..start + d.length], start)
  {
  }

  /** parseFirstBerTLV: decodes the first TLV of `b`; the value of a
      constructed tag is decoded into its children. */
  method ParseFirstBerTlv(b: seq<byte>) returns (r: Result<Parsed, TlvError>)
    requires |b| >= 1
    ensures r == DecodeOne(b)
    decreases |b|, 0
  {
    var tagResult := ParseTag(b);
    if tagResult.Err? {
      assert DecodeOne(b) == Err(tagResult.error);
      return Err(tagResult.error);
    }
    var tag := tagResult.value;
    var leftIndex := |tag|;
    var lengthResult := ParseLength(b[leftIndex..]);
    if lengthResult.Err? {
      assert DecodeOne(b) == Err(lengthResult.error);
      return Err(lengthResult.error);
    }
    var length := lengthResult.value.length;
    leftIndex := leftIndex + lengthResult.value.size;
    if leftIndex + length > |b| {
      DeclaredLengthPastEnd(b, tag, lengthResult.value);
      return Err(ValueOutOfBounds(tag));
    }
    var value := b[leftIndex..leftIndex + length];
    DecodeOneWithinBounds(b, tag, lengthResult.value);
    r := ParseValue(tag, value, leftIndex);
  }

  /** The rest of parseFirstBerTLV, once the value is cut out: an empty
      value gives a node with no children, the value of a constructed tag
      is decoded into the children. */
  method ParseValue(tag: Tag, value: seq<byte>, header: nat) returns (r: Result<Parsed, TlvError>)
    ensures r == NodeFromValue(tag, value, header)
    decreases |value|, 2
  {
    if |value| == 0 {
      return Ok(Parsed(Tlv(tag, [], []), header));
    }
    var children: seq<Tlv> := [];
    if IsConstructed(tag) {
      var parsed := ParseSequence(value);
      ConstructedNode(tag, value, header);
      if parsed.Err? {
        return Err(InvalidChild(tag, parsed.error));
      }
      children := parsed.value;
    } else {
      PrimitiveNode(tag, value, header);
    }
    return Ok(Parsed(Tlv(tag, value, children), header + |value|));
  }

  /** The loop the source runs over a whole buffer, over the value of a
      constructed tag and in NewBerTLV: decode the first TLV of what is
      left, append it, skip the octets it took up, and stop at the first
      failure. */
  method ParseSequence(b: seq<byte>) returns (r: Result<seq<Tlv>, TlvError>)
    ensures r == DecodeSeq(b)
    decreases |b|, 1
  {
    var result: seq<Tlv> := [];
    var index := 0;
    assert b[index..] == b;
    PrependNothing(DecodeSeq(b));
    while index < |b|
      invariant 0 <= index <= |b|
      invariant DecodeSeq(b) == PrependOk(result, DecodeSeq(b[index..]))
      decreases |b| - index
    {
      var parsed := ParseFirstBerTlv(b[index..]);
      if parsed.Err? {
        assert DecodeSeq(b) == Err(parsed.error) by {
          DecodeSeqOfFailure(b[index..]);
        }
        return Err(parsed.error);
      }
      var node, n := parsed.value.tlv, parsed.value.consumed;
      assert DecodeSeq(b) == PrependOk(result + [node], DecodeSeq(b[index + n..])) by {
        DropTwice(b, index, n);
        DecodeSeqOfFirst(b[index..], node, n);
        PrependOkTwice(result, [node], DecodeSeq(b[index + n..]));
      }
      result := result + [node];
      index := index + n;
    }
    assert DecodeSeq(b) == Ok(result) by {
      assert b[index..] == [] && result + [] == result;
    }
    return Ok(result);
  }

  /** Parse: the top-level entry point, which rejects the empty buffer and
      otherwise decodes the whole buffer as a sequence, all or nothing. */
  method Parse(b: seq<byte>) returns (r: Result<seq<Tlv>, TlvError>)
    ensures |b| == 0 ==> r == Err(EmptyInput)
    ensures |b| > 0 ==> r == DecodeSeq(b)
  {
    if |b| == 0 {
      return Err(EmptyInput);
    }
    r := ParseSequence(b);
  }

  /** NewBerTLV: builds a node from a tag and a value without checking the
      tag; the value of a constructed tag is decoded into children. */
  method NewBerTlv(tag: Tag, value: seq<byte>) returns (r: Result<Tlv, TlvError>)
    ensures r.Ok? <==> DeriveChildren(tag, value).Ok?
    ensures r.Ok? ==> r.value == Tlv(tag, value, DeriveChildren(tag, value).value)
    ensures r.Err? ==> r.error == InvalidChild(tag, DeriveChildren(tag, value).error)
    ensures r.Ok? && |tag| >= 1 && CheckEncoding(tag).Pass? && |value| <= MaxLength ==>
              WellFormed(r.value)
  {
    if !IsConstructed(tag) {
      return Ok(Tlv(tag, value, []));
    }
    var children := ParseSequence(value);
    if children.Err? {
      return Err(InvalidChild(tag, children.error));
    }
    return Ok(Tlv(tag, value, children.value));
  }

  /** Everything the decoder returns is well formed, at every depth: there is
      no partial tree. */
  lemma {:induction false} DecodedNodeIsWellFormed(b: seq<byte>)
    requires |b| >= 1 && DecodeOne(b).Ok?
    ensures WellFormed(DecodeOne(b).value.tlv)
  {
    var t := DecodeOne(b).value.tlv;
    var d := ParseLength(b[|t.tag|..]).value;
    DecodeOneWithinBounds(b, t.tag, d);
  }

  lemma {:induction false} DecodedSequenceIsWellFormed(b: seq<byte>)
    requires DecodeSeq(b).Ok?
    ensures forall t | t in DecodeSeq(b).value :: WellFormed(t)
    decreases |b|
  {
    if |b| > 0 {
      var p := DecodeOne(b).value;
      DecodedNodeIsWellFormed(b);
      DecodedSequenceIsWellFormed(b[p.consumed..]);
    }
  }

  /** A declared length that runs past the end of the input is an error,
      reported with the tag. */
  lemma {:induction false} DeclaredLengthPastEnd(b: seq<byte>, tag: Tag, d: DecodedLength)
    requires |b| >= 1 && ParseTag(b) == Ok(tag)
    requires ParseLength(b[|tag|..]) == Ok(d)
    requires |tag| + d.size + d.length > |b|
    ensures DecodeOne(b) == Err(ValueOutOfBounds(tag))
  {
  }

  /** Decoding one TLV reads nothing past the octets it consumes, so what
      follows it in the buffer never changes the result. */
  lemma {:induction false} DecodeOneIgnoresSuffix(b: seq<byte>, rest: seq<byte>)
    requires |b| >= 1 && DecodeOne(b).Ok?
    ensures DecodeOne(b + rest) == DecodeOne(b)
  {
    var t := DecodeOne(b).value.tlv;
    var d := ParseLength(b[|t.tag|..]).value;
    var start := |t.tag| + d.size;
    HeaderIgnoresSuffix(b, rest, t.tag, d);
    assert (b + rest)[start..start + d.length] == b[start..start + d.length];
    DecodeOneWithinBounds(b, t.tag, d);
    DecodeOneWithinBounds(b + rest, t.tag, d);
  }

  /** The tag and length octets read the same with anything after them. */
  lemma {:induction false} HeaderIgnoresSuffix(b: seq<byte>, rest: seq<byte>, tag: Tag, d: DecodedLength)
    requires |b| >= 1 && ParseTag(b) == Ok(tag) && ParseLength(b[|tag|..]) == Ok(d)
    requires |tag| + d.size <= |b|
    ensures ParseTag(b + rest) == Ok(tag) && ParseLength((b + rest)[|tag|..]) == Ok(d)
  {
    var x := b + rest;
    assert x == tag + x[|tag|..];
    ParseTagOfValidTag(tag, x[|tag|..]);
    assert x[|tag|..][..d.size] == b[|tag|..][..d.size];
    ParseLengthReadsOnlyItsOctets(b[|tag|..], x[|tag|..]);
  }

  /** A TLV cut short anywhere before its last octet fails to decode. */
  lemma {:induction false} TruncatedTlvFails(b: seq<byte>, k: nat)
    requires |b| >= 1 && DecodeOne(b).Ok?
    requires 1 <= k < DecodeOne(b).value.consumed
    ensures DecodeOne(b[..k]).Err?
  {
    var t := DecodeOne(b).value.tlv;
    if k < |t.tag| {
      ParseTagOfShortPrefix(b, k);
    } else {
      TruncatedAfterTag(b, t.tag, ParseLength(b[|t.tag|..]).value, k);
    }
  }

  lemma {:induction false} TruncatedAfterTag(b: seq<byte>, tag: Tag, d: DecodedLength, k: nat)
    requires |b| >= 1 && ParseTag(b) == Ok(tag)
    requires ParseLength(b[|tag|..]) == Ok(d)
    requires |tag| <= k < |tag| + d.size + d.length <= |b|
    ensures DecodeOne(b[..k]).Err?
  {
    var c := b[..k];
    assert c == tag + c[|tag|..];
    ParseTagOfValidTag(tag, c[|tag|..]);
    assert c[|tag|..] == b[|tag|..][..k - |tag|];
    if k < |tag| + d.size {
      ParseLengthOfShortPrefix(b[|tag|..], k - |tag|);
    } else {
      ParseLengthReadsOnlyItsOctets(b[|tag|..], c[|tag|..]);
      DeclaredLengthPastEnd(c, tag, d);
    }
  }

  /** Decoding distributes over concatenation: a buffer that starts with a
      decodable sequence decodes as that sequence followed by the decoding of
      the rest, and fails exactly when the rest fails. */
  lemma {:induction false} DecodeSeqConcat(a: seq<byte>, c: seq<byte>)
    requires DecodeSeq(a).Ok?
    ensures DecodeSeq(a + c) == PrependOk(DecodeSeq(a).value, DecodeSeq(c))
    decreases |a|
  {
    if |a| == 0 {
      assert a + c == c;
      PrependNothing(DecodeSeq(c));
    } else {
      var p := DecodeOne(a).value;
      DecodeOneIgnoresSuffix(a, c);
      assert (a + c)[p.consumed..] == a[p.consumed..] + c;
      DecodeSeqConcat(a[p.consumed..], c);
      PrependOkTwice([p.tlv], DecodeSeq(a[p.consumed..]).value, DecodeSeq(c));
    }
  }
}
