/** Octets, and the C view of a (pointer, length) argument pair. */
module Bytes {
  type byte = b: int | 0 <= b < 256

  /** A C buffer argument: `Null(len)` is a null pointer passed with length `len`. */
  datatype Buffer = Null(len: nat) | Data(bytes: seq<byte>)
  {
    function Length(): nat {
      match this
      case Null(len) => len
      case Data(bytes) => |bytes|
    }

    /** The bytes a reader of the whole buffer sees. */
    function Content(): seq<byte> {
      if Data? then bytes else []
    }
  }
}
