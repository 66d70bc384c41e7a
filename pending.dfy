/** The bit sink DeflaterPending is not part of this model: it is shared by
    the compressor and its trees, and it keeps, in order, the calls made on
    it. */
module PendingWrites {

  datatype Write =
    /** writeBits(value, width): the low width bits of value. */
    | Bits(value: int, width: int)
    /** alignToByte() */
    | Align
    /** writeShort(value): two bytes. */
    | Short(value: int)
    /** writeBlock(buffer, offset, length): stored bytes of the input. */
    | Block(offset: int, length: int)

  class DeflaterPending {
    var writes: seq<Write>

    constructor ()
      ensures writes == []
    {
      writes := [];
    }

    method WriteBits(value: int, width: int)
      modifies this
      ensures writes == old(writes) + [Bits(value, width)]
    {
      writes := writes + [Bits(value, width)];
    }

    method AlignToByte()
      modifies this
      ensures writes == old(writes) + [Align]
    {
      writes := writes + [Align];
    }

    method WriteShort(value: int)
      modifies this
      ensures writes == old(writes) + [Short(value)]
    {
      writes := writes + [Short(value)];
    }

    method WriteBlock(offset: int, length: int)
      modifies this
      ensures writes == old(writes) + [Block(offset, length)]
    {
      writes := writes + [Block(offset, length)];
    }
  }
}
