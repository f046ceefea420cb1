/** The tag codec: identifier octets as in section 8.1.2 of ITU-T X.690,
    restricted to tags of one to three octets. */
module Tags {
  import opened Wrappers
  import opened BerTlv

  /** The five tag-number bits of an octet (the source's `b & 0x1F`). */
  function TagNumberBits(b: byte): (r: byte)
    ensures r < 0x20 && (b as int - r as int) % 0x20 == 0
  {
    b % 0x20
  }

  /** Whether the high bit of an octet is set (the source's `b & 0x80 == 0x80`). */
  predicate HighBitSet(b: byte) {
    b >= 0x80
  }

  /** Whether octet `i` of `t` announces a further octet: for the first
      octet, all of its low five bits are set (section 8.1.2.4.1 of X.690);
      for a subsequent octet, its high bit is set (section 8.1.2.4.2). */
  predicate AnnouncesMore(t: Tag, i: nat)
    requires i < |t|
  {
    if i == 0 then TagNumberBits(t[0]) == 0x1F else HighBitSet(t[i])
  }

  /** Reads the tag at the start of `b`.  The source indexes `b[0]` without
      a check, and every caller passes a non-empty slice. */
  function ParseTag(b: seq<byte>): (r: Result<Tag, TlvError>)
    requires |b| >= 1
    ensures r.Ok? ==> 1 <= |r.value| <= 3 && |r.value| <= |b| && r.value == b[..|r.value|]
    ensures r.Err? ==> r.error.MissingTagBytes? && |b| < r.error.expected <= 3
  {
    if TagNumberBits(b[0]) != 0x1F then Ok([b[0]])
    else if |b| < 2 then Err(MissingTagBytes(2))
    else if !HighBitSet(b[1]) then Ok([b[0], b[1]])
    else if |b| < 3 then Err(MissingTagBytes(3))
    else Ok([b[0], b[1], b[2]])
  }

  /** Validates a caller-built tag.  The source indexes `t[0]` for every
      tag of at most three octets, so the empty tag is excluded. */
  function CheckEncoding(t: Tag): (r: Outcome<TagEncodingError>)
    requires |t| >= 1
    ensures r.Pass? ==> |t| <= 3
    ensures r.Pass? <==>
              && |t| <= 3
              && (forall i | 0 <= i < |t| - 1 :: AnnouncesMore(t, i))
              && (|t| < 3 ==> !AnnouncesMore(t, |t| - 1))
  {
    if |t| > 3 then Fail(TooLong(|t|))
    else if |t| == 1 then
      if TagNumberBits(t[0]) == 0x1F then Fail(OneByteAnnouncesMore) else Pass
    else if TagNumberBits(t[0]) != 0x1F then
      assert !AnnouncesMore(t, 0);
      Fail(FirstByteAnnouncesNoMore)
    else if |t| == 2 then
      if HighBitSet(t[1]) then Fail(TwoBytesAnnounceMore) else Pass
    else if !HighBitSet(t[1]) then
      assert !AnnouncesMore(t, 1);
      Fail(ThreeBytesAnnounceNoMore)
    else Pass
  }

  /** Bit 6 (0x20) of the first octet marks a constructed encoding; the
      empty tag is primitive. */
  predicate IsConstructed(t: Tag): (r: bool)
    ensures r ==> |t| >= 1
  {
    if |t| == 0 then false else t[0] % 0x40 >= 0x20
  }

  /** IsConstructed is the test of bit 0x20 of the first octet. */
  lemma {:induction false} ConstructedBit(t: Tag)
    ensures IsConstructed(t) <==> |t| >= 1 && (t[0] as int / 0x20) % 2 == 1
  {
  }

  datatype TagClass = Universal | Application | ContextSpecific | Private

  /** The two class bits (0xC0) of the first octet that stand for `c`. */
  function ClassBits(c: TagClass): byte {
    match c
    case Universal => 0x00
    case Application => 0x40
    case ContextSpecific => 0x80
    case Private => 0xC0
  }

  function Class(t: Tag): (c: TagClass)
    requires |t| >= 1
    ensures ClassBits(c) == t[0] - t[0] % 0x40
  {
    match t[0] - t[0] % 0x40
    case 0x40 => Application
    case 0x80 => ContextSpecific
    case 0xC0 => Private
    case _ => Universal
  }

  /** The first octet is exactly its class bits, its constructed bit and its
      five tag-number bits, so Class and IsConstructed lose nothing. */
  lemma {:induction false} FirstOctetDecomposition(t: Tag)
    requires |t| >= 1
    ensures t[0] == ClassBits(Class(t)) + (if IsConstructed(t) then 0x20 else 0) + TagNumberBits(t[0])
  {
  }

  /** Soundness of ParseTag: what it reads is a well-encoded tag, and when
      it fails no prefix of the input is one. */
  lemma {:induction false} ParseTagSound(b: seq<byte>)
    requires |b| >= 1
    ensures ParseTag(b).Ok? ==> CheckEncoding(ParseTag(b).value).Pass?
    ensures ParseTag(b).Err? ==> forall k | 1 <= k <= |b| :: CheckEncoding(b[..k]).Fail?
  {
  }

  /** Completeness of ParseTag: a well-encoded tag at the start of the input
      is read back unchanged, whatever follows it. */
  lemma {:induction false} ParseTagOfValidTag(t: Tag, rest: seq<byte>)
    requires |t| >= 1 && CheckEncoding(t).Pass?
    ensures ParseTag(t + rest) == Ok(t)
  {
    var b := t + rest;
    assert b[0] == t[0];
    if |t| == 1 {
      assert !AnnouncesMore(t, 0);
    } else if |t| == 2 {
      assert AnnouncesMore(t, 0) && !AnnouncesMore(t, 1);
      assert b[1] == t[1];
      assert [b[0], b[1]] == t;
    } else {
      assert AnnouncesMore(t, 0) && AnnouncesMore(t, 1);
      assert b[1] == t[1] && b[2] == t[2];
      assert [b[0], b[1], b[2]] == t;
    }
  }

  /** CheckEncoding accepts exactly the tags that ParseTag reads back as a
      whole. */
  lemma {:induction false} CheckEncodingIffParsedWhole(t: Tag)
    requires |t| >= 1
    ensures CheckEncoding(t).Pass? <==> ParseTag(t) == Ok(t)
  {
    if CheckEncoding(t).Pass? {
      ParseTagOfValidTag(t, []);
      assert t + [] == t;
    } else {
      ParseTagSound(t);
    }
  }

  /** Well-encoded tags are prefix-free: one never starts another. */
  lemma {:induction false} TagsArePrefixFree(t1: Tag, t2: Tag)
    requires |t1| >= 1 && CheckEncoding(t1).Pass?
    requires |t2| >= 1 && CheckEncoding(t2).Pass?
    requires |t1| <= |t2| && t1 == t2[..|t1|]
    ensures t1 == t2
  {
    ParseTagOfValidTag(t1, t2[|t1|..]);
    ParseTagOfValidTag(t2, []);
    assert t1 + t2[|t1|..] == t2 == t2 + [];
  }

  /** A tag cut short before its last octet is never read as a tag. */
  lemma {:induction false} ParseTagOfShortPrefix(b: seq<byte>, k: nat)
    requires |b| >= 1 && ParseTag(b).Ok?
    requires 1 <= k < |ParseTag(b).value|
    ensures ParseTag(b[..k]).Err?
  {
  }
}
