# BER-TLV codec model

A Dafny model of the `bertlv` Go package, which reads and writes BER-TLV
structures. A BER-TLV structure is a sequence of tag–length–value nodes as in
sections 8.1.2 (identifier octets) and 8.1.3 (length octets) of ITU-T X.690.
The model is restricted in the way the package is:

- tags have one to three octets;
- lengths are definite and at most 65535, written in the short form or as
  the long forms `0x81 n` and `0x82 hi lo`;
- the value of a *constructed* node (bit 0x20 of the first tag octet) is
  itself decoded as the sequence of its children, which must use the value
  up exactly.

The model has these modules:

- `Wrappers`: the `Option`, `Result` and `Outcome` (pass or fail) datatypes.
- `BerTlv`: the entities.
  - An octet is `byte`, an integer from 0 to 255; its bits are read
    arithmetically (`b % 0x20` for the low five bits, `b >= 0x80` for the
    high bit). A tag is a sequence of octets.
  - `Tlv(tag, value, children)` is the node, `BerTLV`. A sequence of nodes is
    `BerTLVs`.
  - `Parsed` is a node together with the number of octets it took up.
  - `TlvError` and `TagEncodingError` name the error kinds the source
    reports.
- `Tags`: `parseTag`, `BerTag.CheckEncoding`, `IsConstructed` and `Class`.
- `Lengths`: `parseLength` and `buildLen`.
- `Decoder`: the recursive decoder.
  - `DecodeOne`, `NodeFromValue` and `DecodeSeq` are its specification, as
    mutually recursive functions.
  - `ParseFirstBerTlv` is `parseFirstBerTLV` up to cutting out the value, and
    `ParseValue` is the rest of it.
  - `ParseSequence` is the loop that the source writes out three times: in
    `Parse`, over the value of a constructed tag, and in `NewBerTLV`. Each of
    the three calls it.
  - Each of these methods is proved equal to the specification, errors
    included.
  - `WellFormed` states what every decoded node satisfies at its own level.
- `Encoder`: `BerTLV.Bytes`, `BerTLVs.Bytes` and `BerTLV.BytesLength`, with
  the round trips in both directions.
- `Navigation`: `FindAllWithTag`, `FindFirstWithTag`, `Children` and
  `FirstChild`, each proved against an order-preserving filter.
- `Builders`: the `Builder` class.
  - The source's builder methods take the builder by value. Each appends to
    a copy and returns the address of that copy.
  - So each `Add` method here returns a fresh `Builder` and leaves the
    receiver's buffer unchanged.
- `Examples`: concrete cases, proved from the general lemmas.
  - From the repository's tests (`bertlv_test.go`): the nested decode
    example, the rejected inputs `7F 01 01`, `1F`, `1F 80` and `B0 01 80`,
    the broken second lengths, the tag-encoding table, `NewBerTLV` on a
    constructed tag, the builder chains, and the length octets of the
    lengths 0, 127, 255 and 65535.
  - Edge cases of the code that the tests do not contain: the empty
    constructed node `71 00`, the child without length octets in `71 01 01`,
    and the length octets of the lengths 128 and 256, the first lengths of
    the `0x81` and `0x82` forms.

A few points of the code's behaviour are easy to misread. The model follows
the code:

- **Non-minimal lengths.** The comments at `bertlv.go:175` and
  `bertlv.go:184` describe `0x81` as the form for lengths 128–255 and `0x82`
  for 256–65535. `parseLength` accepts either form for any length, such as
  `81 05`. `ParseLength` does too, and `BuildLenIsOnlyEncodingOfItsSize`
  states when decode-then-encode gives back the same octets.
- **A child without length octets.** In `71 01 01` the one value octet `01`
  of the constructed tag is read as a tag with no length octet after it. The
  input therefore fails as `InvalidChild([0x71], MissingLength)`. The
  repository's test input `B0 01 80` fails the same way. Both cases are in
  `Examples.ChildWithoutLength`.
- **The third tag octet.** Neither `parseTag` nor `CheckEncoding` looks at
  the high bit of the third tag octet. A tag that announces a fourth octet
  is therefore read as three octets, and the next octet is taken as its
  length.

## Model

| member | source | states |
|---|---|---|
| Tags.ParseTag | bertlv.go:145-163 | A successful read returns a one-to-three-octet prefix of the input. A failure is a missing subsequent octet, expecting more octets (two or three) than the input has. |
| Tags.CheckEncoding | bertlv.go:212-244 | Passes exactly when the tag has at most three octets, every octet but the last announces a further one, and the last does not (a third octet is not inspected). |
| Tags.IsConstructed | bertlv.go:246-253 | The empty tag is primitive: a constructed tag has a first octet. |
| Tags.ConstructedBit | bertlv.go:246-253 | A tag is constructed exactly when it has a first octet and bit 0x20 of that octet is set. |
| Tags.Class | bertlv.go:264-275 | The class returned is the one whose two bits equal the first octet's bits 0xC0. |
| Tags.TagNumberBits | bertlv.go:146 | The five low bits of the octet: below 0x20 and congruent to the octet modulo 0x20. |
| Tags.FirstOctetDecomposition | bertlv.go:246-275 | The first octet is exactly the sum of its class bits, its constructed bit and its tag-number bits. |
| Tags.ParseTagSound | bertlv.go:145-163 | What parseTag reads passes CheckEncoding, and when it fails no prefix of the input passes CheckEncoding. |
| Tags.ParseTagOfValidTag | bertlv.go:145-163 | A well-encoded tag at the head of any input is read back unchanged. |
| Tags.CheckEncodingIffParsedWhole | bertlv.go:212-244 | CheckEncoding accepts a tag exactly when parseTag reads it back whole. |
| Tags.TagsArePrefixFree | bertlv.go:145-163 | No well-encoded tag is a proper prefix of another. |
| Tags.ParseTagOfShortPrefix | bertlv.go:150-160 | A tag cut before its last octet is rejected. |
| Lengths.ParseLength | bertlv.go:165-194 | Decodes the short form and the `0x81`/`0x82` forms: length, number of octets consumed, and the big-endian value of the subsequent octets. Fails exactly on empty input, on a marker `0x80` or above `0x82`, and on missing subsequent octets. |
| Lengths.BuildLen | bertlv.go:196-210 | One octet for lengths up to 127, `0x81 n` up to 255, otherwise `0x82` with the low sixteen bits big-endian. |
| Lengths.LengthRoundTrip | bertlv.go:165-210 | Every length up to 65535 is decoded back from buildLen's octets, whatever follows, consuming exactly those octets. |
| Lengths.BuildLenIsOnlyEncodingOfItsSize | bertlv.go:165-210 | Length octets as long as buildLen's output for the same length are exactly buildLen's output. |
| Lengths.BuildLenWrapsAboveMax | bertlv.go:205-209 | Above 65535 the encoded length decodes back modulo 65536. |
| Lengths.ParseLengthReadsOnlyItsOctets | bertlv.go:165-194 | The result depends only on the octets reported as consumed. |
| Lengths.ParseLengthOfShortPrefix | bertlv.go:176-191 | Length octets cut short are rejected. |
| Lengths.MaxLengthEncoding | bertlv.go:209 | 65535 is encoded as `82 FF FF`. |
| Decoder.DecodeOne | bertlv.go:96-143 | A decoded node takes up at least two octets and no more than the input. Only a constructed node with a non-empty value has children. |
| Decoder.NodeFromValue | bertlv.go:118-142 | The node keeps the tag and the value and consumes the header plus the value. Only a constructed tag with a non-empty value gets children, and the only failure is a constructed value that does not decode, reported as an invalid child of the tag with the child's failure. |
| Decoder.ConstructedNode | bertlv.go:126-139 | A non-empty value of a constructed tag gives its decoded children, or the child's failure as an invalid child. |
| Decoder.PrimitiveNode | bertlv.go:124-142 | A non-empty value of a primitive tag gives a node without children. |
| Decoder.DecodeOneShape | bertlv.go:96-122 | A decoded node's tag is what parseTag reads, its length octets parse, its value has the declared length and follows the length octets, and the octets consumed are tag, length and value. |
| Decoder.DecodeSeq | bertlv.go:83-91 | A successful decode yields at most one node per two octets, and no node exactly for the empty input. |
| Decoder.DecodeSeqOfFirst | bertlv.go:83-91 | A buffer whose first node decodes is that node followed by the decoding of the remaining octets. |
| Decoder.DecodeSeqOfFailure | bertlv.go:84-87 | A buffer whose first node fails fails as a whole, with the same failure. |
| Decoder.DeriveChildren | bertlv.go:35-49 | A primitive tag derives no children. Derived children number at most one per two value octets, and there are children only for a constructed tag with a non-empty value. |
| Decoder.ParseFirstBerTlv | bertlv.go:96-122 | Reading the tag, the length and the bounds check, then the value handling, computes exactly DecodeOne, errors included. |
| Decoder.ParseValue | bertlv.go:118-142 | Handling the cut-out value computes exactly NodeFromValue: an empty value, the children of a constructed tag, or an invalid child. |
| Decoder.ParseSequence | bertlv.go:83-91 | The loop of decoding the first node of what is left, appending it and skipping its octets computes exactly DecodeSeq; it stops at the first failure. |
| Decoder.Parse | bertlv.go:76-94 | Empty input is EmptyInput; otherwise the result is exactly DecodeSeq, all or nothing. |
| Decoder.NewBerTlv | bertlv.go:34-52 | Succeeds exactly when the children derive from the value. A primitive tag gets no children, and a constructed one gets its decoded value. A failure is reported as an invalid child of the tag. With a valid tag and a value of at most 65535 octets the node is well formed. |
| Decoder.DecodeOneWithinBounds | bertlv.go:111-142 | Once tag and length are read and the value fits, the result is the empty node or the node with its derived children. A child failure is wrapped with the tag. |
| Decoder.DecodedNodeIsWellFormed | bertlv.go:96-143 | Every decoded node is well formed. |
| Decoder.DecodedSequenceIsWellFormed | bertlv.go:76-94 | Every node of a decoded sequence is well formed, so no partial tree is ever returned. |
| Decoder.DeclaredLengthPastEnd | bertlv.go:111-115 | A declared length past the end of the input fails with ValueOutOfBounds for that tag. |
| Decoder.DecodeOneIgnoresSuffix | bertlv.go:96-143 | Octets after a decoded node do not change how it decodes. |
| Decoder.HeaderIgnoresSuffix | bertlv.go:97-108 | Octets after the tag and length octets do not change how they are read. |
| Decoder.TruncatedTlvFails | bertlv.go:96-143 | A node cut anywhere before its last octet is rejected. |
| Decoder.TruncatedAfterTag | bertlv.go:104-115 | A node cut after its tag, in its length or value octets, is rejected. |
| Decoder.DecodeSeqConcat | bertlv.go:83-91 | Decoding a decodable prefix followed by more octets gives the prefix's nodes, then the decoding of the rest. It fails exactly when the rest fails. |
| Encoder.EmittedTag | bertlv.go:344-356 | The emitted tag has one to three octets: the tag itself when it has one to three, `00` for the empty tag, otherwise its first three octets. |
| Encoder.EmittedValueLength | bertlv.go:336-341 | At most 65535 and at most the value length. It equals the value length exactly when the value fits, and is 65535 for a longer value. |
| Encoder.Bytes | bertlv.go:327-366 | The encoding has between 2 and 65541 octets. |
| Encoder.EncodingOfShortTag | bertlv.go:343-365 | For a one-to-three-octet tag the encoding is the tag, buildLen of the emitted length and that prefix of the value. |
| Encoder.EncodeAll | bertlv.go:278-286 | At least two octets per node. |
| Encoder.BytesOfAll | bertlv.go:278-286 | The loop appends each node's encoding in order. |
| Encoder.BytesLength | bertlv.go:370-377 | As written: agrees with the encoded length for tags of one to three octets. |
| Encoder.EncodedLength | bertlv.go:368-377 | The length of the octets Bytes emits, for every node. |
| Encoder.BytesLengthMatchesOnlyForShortTags | bertlv.go:370-377 | BytesLength equals the encoded length exactly for tags of one to three octets. It is one short for the empty tag and `len(tag) - 3` over for longer tags. |
| Encoder.BytesLengthOfEmptyTag | bertlv.go:370-377 | The node with empty tag and value encodes as `00 00`, while BytesLength reports 1. |
| Encoder.EncodeTruncatesValue | bertlv.go:336-341 | A value over 65535 octets encodes as its first 65535, behind length octets `82 FF FF`. |
| Encoder.EncodeSubstitutesTag | bertlv.go:344-356 | The empty tag is encoded as `00` and a longer tag as its first three octets. The stored children never matter. |
| Encoder.EncodeThenDecode | bertlv.go:327-366 | A well-formed node decodes back from its encoding, whatever follows, consuming exactly the encoding. |
| Encoder.DecodeThenEncode | bertlv.go:96-143 | When the encoding of a decoded node is as long as what was consumed, it is exactly the consumed octets. |
| Encoder.EncodeAllConcat | bertlv.go:278-286 | Encoding distributes over concatenation of node sequences. |
| Encoder.EncodeAllThenDecode | bertlv.go:278-286 | A sequence of well-formed nodes decodes back from its encoding. |
| Encoder.DecodeEncodeDecode | bertlv.go:76-94 | Re-decoding the encoding of any decoded tree gives the same tree. |
| Navigation.Filter | bertlv.go:294-308 | The result is no longer than the input, and its nodes come from the input and carry the tag. |
| Navigation.FirstOf | bertlv.go:315-323 | None exactly for the empty sequence, otherwise its first node. |
| Navigation.FilterConcat | bertlv.go:294-308 | Filtering distributes over concatenation, so the order is kept. |
| Navigation.FilterKeepsMatches | bertlv.go:297-301 | Every node carrying the tag is kept. |
| Navigation.FilterEmptyIffNoMatch | bertlv.go:303-305 | The result is empty (nil) exactly when no node carries the tag. |
| Navigation.FilterStartsWithEarliestMatch | bertlv.go:315-323 | The first node kept is the earliest node carrying the tag. |
| Navigation.FilterStep | bertlv.go:297-301 | The filter of a suffix is the node at its head, if it carries the tag, followed by the filter of the rest. |
| Navigation.FindAllWithTag | bertlv.go:294-308 | The loop returns exactly the filtered nodes in order. |
| Navigation.FindFirstWithTag | bertlv.go:315-323 | The loop returns the first filtered node, or none. |
| Navigation.Children | bertlv.go:384-402 | The stored children for an empty filter. Otherwise nothing for a primitive node, and the filtered direct children for a constructed one. |
| Navigation.FirstChild | bertlv.go:409-425 | The first stored child for an empty filter. Otherwise none for a primitive node, and the first filtered direct child for a constructed one. |
| Navigation.PrimitiveNodeHasNoChildren | bertlv.go:391-393 | A decoded primitive node has no children, so filtering its children also gives nothing. |
| Builders.Builder.constructor | bertlv.go:434-436 | The zero builder holds no octets. |
| Builders.Builder.Copy | bertlv.go:440 | The copy a value receiver works on holds the receiver's octets. |
| Builders.Builder.AddByte | bertlv.go:440-446 | A fresh builder holding the octets, then the tag, `01` and the octet. For a one-to-three-octet tag that is the node's encoding. |
| Builders.Builder.AddBytes | bertlv.go:451-478 | A fresh builder holding the octets, then the tag, the length octets and the value, cut to 65535. For a one-to-three-octet tag that is the node's encoding. |
| Builders.Builder.AddEmpty | bertlv.go:481-483 | A fresh builder holding the octets, then the tag and `00`. |
| Builders.Builder.AddRaw | bertlv.go:486-490 | A fresh builder holding the octets followed verbatim by the given ones. |
| Builders.Builder.BuildBerTlvs | bertlv.go:494-496 | Exactly what Parse returns on the buffer. |
| Builders.Builder.Bytes | bertlv.go:499-501 | The buffer as it stands. |
| Examples.LengthBoundaries | bertlv.go:196-210 | Lengths 0, 127, 128, 255, 256 and 65535 are encoded as `00`, `7F`, `81 80`, `81 FF`, `82 01 00` and `82 FF FF`. |
| Examples.TagEncodingCases | bertlv_test.go:332-358 | The nine tags of the repository's table are accepted or rejected as listed, with the reason. |
| Examples.TagCutShort | bertlv_test.go:264-273 | `1F` fails for want of a second tag octet and `1F 80` for want of a third. |
| Examples.ValuePastEnd | bertlv_test.go:259-263 | `7F 01 01` reads the two-octet tag `7F 01` and then a length of one with no value octet, and fails with ValueOutOfBounds for that tag. |
| Examples.ChildWithoutLength | bertlv_test.go:299-303 | `B0 01 80` and `71 01 01` fail as an invalid child of their tag: the one value octet is a tag with no length octet. |
| Examples.BrokenSecondLength | bertlv_test.go:274-298 | A second node of tag 0x91 whose length octets fail to parse fails the whole buffer with that length failure. |
| Examples.AfterFirstNode | bertlv_test.go:274-298 | After the node `90 03 01 02 03`, decoding yields that node and then whatever the rest decodes to, or the rest's failure. |
| Examples.RejectedLengths | bertlv_test.go:274-298 | A second node with missing or unsupported length octets fails the whole buffer, with the kind of failure. |
| Examples.EmptyConstructedNode | bertlv.go:118-120 | `71 00` is a constructed node with no value and no children, not an error. |
| Examples.ShortFormNode | bertlv.go:343-365 | A short tag with at most 127 value octets is encoded with one length octet. |
| Examples.ConstructedShortForm | bertlv.go:327-366 | A constructed node with a short tag whose value decodes into its children is well formed and is encoded with one length octet. |
| Examples.SingleNode | bertlv.go:76-94 | A well-formed node decodes from its own encoding. |
| Examples.NestedExample | bertlv_test.go:200-222 | `71 10 B0 0E 0F 05 01 02 03 04 05 0E 05 05 04 03 02 01` decodes to 0x71 holding 0xB0 holding the primitive nodes 0x0F and 0x0E, each with its value. |
| Examples.NewBerTlvCases | bertlv_test.go:27-47 | NewBerTLV on 0x2A derives the single child 0x10. A value with an incomplete second node is an invalid child. |
| Examples.BuilderMatchesDecoder | bertlv_test.go:1070-1101 | AddByte and AddBytes of 0x0A with `FF` give `0A 01 FF`, and finalising gives what decoding those octets gives. |
| Examples.BuilderTruncates | bertlv_test.go:1102-1106 | AddBytes of a 65536-octet value gives `0A 82 FF FF` and the first 65535 octets. |
| Examples.BuilderChain | bertlv_test.go:1173-1199 | The chained builder of the test finalises to the three expected nodes, including the child of the constructed 3F 0A. |

## Left out

- `BerTLV.String` (upper-case hexadecimal of `Bytes`): text formatting only.
- Error messages and their wrapping chains are left out. Errors are modelled
  as kinds, with `InvalidChild` keeping the parent tag; the offset that
  `Parse` adds to its messages is not kept.
- `NewOneByteTag`, `NewTwoByteTag` and `NewThreeByteTag` are left out. They
  only build a slice from their arguments, so here they are sequence
  displays.
- Aliasing is left out: every result is a value, and the model's sequences
  share nothing. The Go code shares memory in these places:
  - `FindFirstWithTag`, and `FirstChild` with a tag, return the address of
    the loop variable, which is a copy of the matching node.
  - `FirstChild` with no tag returns `&ber.children[0]` (bertlv.go:410-411).
    That address points into the children array that the caller's node
    shares, so a write through it changes the caller's tree. Here the first
    child is returned as a value.
  - Decoded values and children are sub-slices of the input buffer
    (bertlv.go:117), so changing the input afterwards changes them.
  - `Builder.Bytes` returns the builder's own buffer (bertlv.go:500), and the
    builder's appends may share backing arrays between builders.
- The difference between nil and empty slices is not modelled: both are the
  empty sequence.
- Panics are modelled as preconditions, not as behaviour:
  - `parseTag`, `CheckEncoding` and `Class` index the first octet without a
    check, so they require a non-empty tag;
  - `parseFirstBerTLV` is only called on non-empty input, so `DecodeOne`
    requires it.
- Tags of four or more octets are not modelled as the decoder reading them.
  `parseTag` reads at most three octets and never checks the third octet's
  continuation bit.
- Recursion depth and stack exhaustion on deeply nested input are not
  modelled: the model's recursion is unbounded.
- The integer width of Go's `int` is not modelled: lengths are natural
  numbers, at most 65535 wherever they are decoded.
- Encoder.BytesLength: states the as-written length only where it agrees
  with the encoding (tags of one to three octets). Where it differs, the
  difference is stated by `Encoder.BytesLengthMatchesOnlyForShortTags`.

## Findings

| source | as written | input that shows it | evidently intended | confidence | as-written member | corrected member |
|---|---|---|---|---|---|---|
| bertlv.go:370-377 | `BytesLength` adds the stored tag length, but `Bytes` emits `00` for an empty tag and only three octets of a longer tag | `BerTLV{Tag: []byte{}, Value: nil}`: `Bytes` is `00 00` (2 octets), `BytesLength` is 1 | the length of what `Bytes` returns, as its comment says | medium; not executed | Encoder.BytesLengthOfEmptyTag | Encoder.EncodedLength |
