/** The length codec: definite-form length octets as in section 8.1.3 of
    ITU-T X.690, restricted to the short form (section 8.1.3.4) and the long
    forms with one or two subsequent octets (section 8.1.3.5), 0x81 and 0x82. */
module Lengths {
  import opened Wrappers
  import opened BerTlv

  /** The largest length the two-octet long form can state. */
  const MaxLength: nat := 0xFFFF

  /** A decoded length and the number of length octets it occupied. */
  datatype DecodedLength = DecodedLength(length: nat, size: nat)

  /** The unsigned big-endian number that a sequence of octets spells. */
  function BigEndian(s: seq<byte>): nat {
    if |s| == 0 then 0 else BigEndian(s[..|s| - 1]) * 256 + s[|s| - 1] as nat
  }

  lemma {:induction false} BigEndianOfTwo(hi: byte, lo: byte)
    ensures BigEndian([hi, lo]) == hi as nat * 256 + lo as nat
  {
    assert [hi, lo][..1] == [hi];
    BigEndianOfOne(hi);
  }

  /** The two octets of a sixteen-bit number, as integers. */
  lemma {:induction false} SplitSixteenBits(n: nat)
    ensures ((n / 256) % 256) * 256 + n % 256 == n % 0x1_0000
  {
  }

  lemma {:induction false} JoinSixteenBits(hi: nat, lo: nat)
    requires hi < 256 && lo < 256
    ensures ((hi * 256 + lo) / 256) % 256 == hi && (hi * 256 + lo) % 256 == lo
  {
  }

  lemma {:induction false} BigEndianOfOne(x: byte)
    ensures BigEndian([x]) == x as nat
  {
    assert [x][..0] == [];
  }

  /** Reads the length octets at the start of `b`. */
  function ParseLength(b: seq<byte>): (r: Result<DecodedLength, TlvError>)
    ensures r.Ok? ==> 1 <= r.value.size <= 3 && r.value.size <= |b| && r.value.length <= MaxLength
    ensures r.Ok? && r.value.size == 1 ==> b[0] < 0x80 && r.value.length == b[0] as nat
    ensures r.Ok? && r.value.size > 1 ==>
              && b[0] as nat == 0x80 + (r.value.size - 1)
              && r.value.length == BigEndian(b[1..r.value.size])
    ensures r.Err? <==>
              || |b| == 0
              || b[0] == 0x80 || b[0] > 0x82
              || (b[0] == 0x81 && |b| < 2)
              || (b[0] == 0x82 && |b| < 3)
  {
    if |b| == 0 then Err(MissingLength)
    else if b[0] <= 0x7F then Ok(DecodedLength(b[0] as nat, 1))
    else if b[0] == 0x81 then
      if |b| - 1 <= 0 then Err(MissingLengthBytes(2))
      else
        BigEndianOfOne(b[1]);
        assert b[1..2] == [b[1]];
        Ok(DecodedLength(b[1] as nat, 2))
    else if b[0] == 0x82 then
      if |b| - 2 <= 0 then Err(MissingLengthBytes(3))
      else
        BigEndianOfTwo(b[1], b[2]);
        assert b[1..3] == [b[1], b[2]];
        Ok(DecodedLength(b[1] as nat * 256 + b[2] as nat, 3))
    else Err(UnsupportedLengthForm(b[0]))
  }

  /** The length octets the encoder emits for `n`.  Callers cap `n` at
      MaxLength; above it the two octets keep only the low sixteen bits, as
      the source's byte conversions do. */
  function BuildLen(n: nat): (r: seq<byte>)
    ensures 1 <= |r| <= 3
    ensures |r| == 1 <==> n <= 0x7F
    ensures |r| == 2 <==> 0x80 <= n <= 0xFF
    ensures |r| == 2 ==> r[0] == 0x81
    ensures |r| == 3 ==> r[0] == 0x82
    ensures |r| == 1 ==> r[0] as nat == n
    ensures |r| > 1 ==> BigEndian(r[1..]) == n % 0x1_0000
  {
    if n == 0 then [0x00]
    else if n <= 127 then
      [n as byte]
    else if n <= 255 then
      BigEndianOfOne(n as byte);
      assert [0x81, n as byte][1..] == [n as byte];
      [0x81, n as byte]
    else
      var hi, lo := ((n / 256) % 256) as byte, (n % 256) as byte;
      BigEndianOfTwo(hi, lo);
      SplitSixteenBits(n);
      assert [0x82, hi, lo][1..] == [hi, lo];
      [0x82, hi, lo]
  }

  /** Length round trip: every length up to MaxLength is read back from its
      encoding, with exactly the encoding's octets consumed. */
  lemma {:induction false} LengthRoundTrip(n: nat, rest: seq<byte>)
    requires n <= MaxLength
    ensures ParseLength(BuildLen(n) + rest) == Ok(DecodedLength(n, |BuildLen(n)|))
  {
    var enc := BuildLen(n);
    var b := enc + rest;
    assert b[..|enc|] == enc;
    var r := ParseLength(b);
    assert r.Ok?;
    if |enc| > 1 {
      assert b[1..|enc|] == enc[1..];
    }
  }

  /** Conversely, when the decoder consumed as many octets as the encoder
      would emit for the decoded length, those octets are that encoding: the
      encoder's forms are the only ones of their size. */
  lemma {:induction false} BuildLenIsOnlyEncodingOfItsSize(b: seq<byte>)
    requires ParseLength(b).Ok?
    requires ParseLength(b).value.size == |BuildLen(ParseLength(b).value.length)|
    ensures b[..ParseLength(b).value.size] == BuildLen(ParseLength(b).value.length)
  {
    var d := ParseLength(b).value;
    if d.size == 2 {
      BigEndianOfOne(b[1]);
      assert b[1..2] == [b[1]];
    } else if d.size == 3 {
      BigEndianOfTwo(b[1], b[2]);
      assert b[1..3] == [b[1], b[2]];
      JoinSixteenBits(b[1] as nat, b[2] as nat);
    }
  }

  /** Above MaxLength the encoding no longer round-trips: the decoder reads
      back the length modulo 65536.  This is why the encoder truncates. */
  lemma {:induction false} BuildLenWrapsAboveMax(n: nat)
    requires n > MaxLength
    ensures ParseLength(BuildLen(n)) == Ok(DecodedLength(n % 0x1_0000, 3))
  {
    var enc := BuildLen(n);
    assert enc[1..3] == enc[1..];
  }

  /** ParseLength reads nothing beyond the octets it reports as consumed:
      any input that starts with those octets decodes the same way. */
  lemma {:induction false} ParseLengthReadsOnlyItsOctets(x: seq<byte>, y: seq<byte>)
    requires ParseLength(x).Ok?
    requires ParseLength(x).value.size <= |y|
    requires y[..ParseLength(x).value.size] == x[..ParseLength(x).value.size]
    ensures ParseLength(y) == ParseLength(x)
  {
    var d := ParseLength(x).value;
    assert y[0] == y[..d.size][0] == x[..d.size][0] == x[0];
    if d.size == 2 {
      assert y[1] == y[..d.size][1] == x[..d.size][1] == x[1];
    } else if d.size == 3 {
      assert y[1] == y[..d.size][1] == x[..d.size][1] == x[1];
      assert y[2] == y[..d.size][2] == x[..d.size][2] == x[2];
    }
  }

  /** Length octets cut short are never read as a length. */
  lemma {:induction false} ParseLengthOfShortPrefix(x: seq<byte>, k: nat)
    requires ParseLength(x).Ok?
    requires k < ParseLength(x).value.size
    ensures ParseLength(x[..k]).Err?
  {
    if k > 0 {
      assert x[..k][0] == x[0];
    }
  }

  /** The largest length has the long form 0x82 0xFF 0xFF. */
  lemma {:induction false} MaxLengthEncoding()
    ensures BuildLen(MaxLength) == [0x82, 0xFF, 0xFF]
  {
  }
}
