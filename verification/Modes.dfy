/** KaSON_PARSE_MODE, shared by the chunked and the older state machine. */
module Modes {
  import opened Bytes

  datatype Mode = AutoMode | ObjectMode | ArrayMode | StringMode | GenericMode

  /** The byte that ends the root container, or NUL. */
  function EndToken(mode: Mode): Byte {
    match mode
    case ObjectMode => RBRACE
    case ArrayMode => RBRACKET
    case _ => 0
  }
}
