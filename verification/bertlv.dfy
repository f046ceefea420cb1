/** The data model of the BER-TLV codec: octets, tags, nodes and the
    failures the decoder and the tag validator report. */
module BerTlv {

  /** One octet of the wire format, as the unsigned number it holds. */
  newtype byte = x: int | 0 <= x < 0x100

  /** A tag as the source stores it: an unchecked sequence of octets.
      A well-encoded tag has one to three octets (see Tags.CheckEncoding). */
  type Tag = seq<byte>

  /** A decoded or directly constructed BER-TLV node.  `children` is the
      parsed view of `value`; it is empty unless the tag is constructed and
      the value is non-empty. */
  datatype Tlv = Tlv(tag: Tag, value: seq<byte>, children: seq<Tlv>)

  /** A node together with the number of octets its encoding took up. */
  datatype Parsed = Parsed(tlv: Tlv, consumed: nat)

  /** Why decoding failed.  The source wraps each failure in a message; here
      only its kind is kept, and a failure inside a constructed value keeps
      the parent's tag and the cause. */
  datatype TlvError =
    | EmptyInput                           // top-level decode of zero octets
    | MissingTagBytes(expected: nat)       // tag announces `expected` octets, fewer are left
    | MissingLength                        // nothing left for the length octets
    | MissingLengthBytes(expected: nat)    // 0x81/0x82 marker without its follow octets
    | UnsupportedLengthForm(marker: byte)  // 0x80 or 0x83..0xFF as first length octet
    | ValueOutOfBounds(tag: Tag)           // declared length runs past the input
    | InvalidChild(parent: Tag, cause: TlvError)  // a constructed value is not a TLV sequence

  /** Why a tag fails the structural check of Tags.CheckEncoding. */
  datatype TagEncodingError =
    | TooLong(size: nat)           // more than three octets
    | OneByteAnnouncesMore         // one octet whose low five bits are all set
    | FirstByteAnnouncesNoMore     // two or three octets, low five bits of the first not all set
    | TwoBytesAnnounceMore         // two octets, high bit of the second set
    | ThreeBytesAnnounceNoMore     // three octets, high bit of the second clear
}
