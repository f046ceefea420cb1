/** The builder: an append-only octet buffer that is finally run back
    through the decoder.  The source's methods take the builder by value:
    each appends to a copy of the receiver and returns the address of that
    copy, so the receiver itself never changes.  Here each Add method
    returns a fresh Builder and leaves `this` alone. */
module Builders {
  import opened Wrappers
  import opened BerTlv
  import opened Lengths
  import opened Decoder
  import Encoder

  class Builder {
    var bytes: seq<byte>

    /** The zero Builder: an empty buffer. */
    constructor ()
      ensures bytes == []
    {
      bytes := [];
    }

    /** The copy of a receiver that a value-receiver method works on. */
    constructor Copy(b: seq<byte>)
      ensures bytes == b
    {
      bytes := b;
    }

    /** Appends the tag, the length octet 0x01 and the single value octet:
        the encoding of the node (tag, [val]) for a tag of one to three octets. */
    method AddByte(tag: Tag, val: byte) returns (bu: Builder)
      ensures fresh(bu)
      ensures bu.bytes == bytes + tag + [0x01, val]
      ensures 1 <= |tag| <= 3 ==> bu.bytes == bytes + Encoder.Bytes(Tlv(tag, [val], []))
    {
      bu := new Builder.Copy(bytes);
      bu.bytes := bu.bytes + tag;
      bu.bytes := bu.bytes + [0x01];
      bu.bytes := bu.bytes + [val];
    }

    /** Appends the tag, then the length octets and the value, both cut to
        65535 octets; an empty value gets the single length octet 0x00. */
    method AddBytes(tag: Tag, v: seq<byte>) returns (bu: Builder)
      ensures fresh(bu)
      ensures var n := Encoder.EmittedValueLength(Tlv(tag, v, []));
              bu.bytes == bytes + tag + BuildLen(n) + v[..n]
      ensures 1 <= |tag| <= 3 ==> bu.bytes == bytes + Encoder.Bytes(Tlv(tag, v, []))
    {
      ghost var n := Encoder.EmittedValueLength(Tlv(tag, v, []));
      Encoder.EncodingOfShortTag(Tlv(tag, v, []));
      bu := new Builder.Copy(bytes);
      bu.bytes := bu.bytes + tag;
      if |v| == 0 {
        bu.bytes := bu.bytes + [0x00];
        assert v[..n] == [] && BuildLen(n) == [0x00];
        return;
      }
      var value := v;
      if |value| > 65535 {
        value := value[..65535];
      }
      assert value == v[..n];
      value := BuildLen(|value|) + value;
      bu.bytes := bu.bytes + value;
      assert bu.bytes == bytes + tag + BuildLen(n) + v[..n];
    }

    /** Appends the tag and the zero length octet. */
    method AddEmpty(tag: Tag) returns (bu: Builder)
      ensures fresh(bu)
      ensures bu.bytes == bytes + tag + [0x00]
    {
      bu := AddBytes(tag, []);
    }

    /** Appends octets verbatim, without tag or length. */
    method AddRaw(b: seq<byte>) returns (bu: Builder)
      ensures fresh(bu)
      ensures bu.bytes == bytes + b
    {
      bu := new Builder.Copy(bytes);
      bu.bytes := bu.bytes + b;
    }

    /** Decodes the buffer as Parse does. */
    method BuildBerTlvs() returns (r: Result<seq<Tlv>, TlvError>)
      ensures |bytes| == 0 ==> r == Err(EmptyInput)
      ensures |bytes| > 0 ==> r == DecodeSeq(bytes)
    {
      r := Parse(bytes);
    }

    /** The buffer as it stands. */
    method Bytes() returns (b: seq<byte>)
      ensures b == bytes
    {
      b := bytes;
    }
  }
}
