/** Constants of the DLT protocol, with the values the dlt-daemon headers give them. */
module DltProtocol {
  import opened Bytes

  // DLT_ID_SIZE is 4
  type Id = b: bytes | |b| == 4 witness [0, 0, 0, 0]

  // Type info of a verbose argument. The flags occupy distinct bits, so adding them is or-ing them.
  const DLT_TYLE_8BIT: nat := 1
  const DLT_TYLE_16BIT: nat := 2
  const DLT_TYLE_32BIT: nat := 3
  const DLT_TYLE_64BIT: nat := 4
  const DLT_TYPE_INFO_BOOL: nat := 0x10
  const DLT_TYPE_INFO_SINT: nat := 0x20
  const DLT_TYPE_INFO_UINT: nat := 0x40
  const DLT_TYPE_INFO_FLOA: nat := 0x80
  const DLT_TYPE_INFO_STRG: nat := 0x200
  const DLT_SCOD_UTF8: nat := 0x8000
  const DLT_SCOD_HEX: nat := 0x10000

  // Standard header: UEH | WEID | WSID | WTMS | protocol version 1
  const DLT_HTYP: byte := 0x01 + 0x04 + 0x08 + 0x10 + 0x20
  const DLT_STANDARD_HEADER_SIZE: nat := 4
  const DLT_STANDARD_HEADER_EXTRA_SIZE: nat := 12
  const DLT_EXTENDED_HEADER_SIZE: nat := 10
  const DLT_MSIN_VERB: byte := 1

  const ECU_ID: Id := [69, 67, 85, 49] // "ECU1"
  const USER_HEADER_PATTERN: Id := [68, 85, 72, 1] // "DUH" 0x01
  const BLANK_ID: Id := [0, 0, 0, 0]

  // User message types
  const SEND_LOG: nat := 1
  const REGISTER_APP: nat := 2
  const REGISTER_CONTEXT: nat := 4
  const DLT_USER_MESSAGE_LOG_LEVEL: nat := 6
  const DLT_USER_MESSAGE_LOG_STATE: nat := 12

  // Log levels on the DLT side
  const DLT_LOG_DEFAULT := -1
  const DLT_LOG_OFF := 0
  const DLT_LOG_FATAL := 1
  const DLT_LOG_ERROR := 2
  const DLT_LOG_WARN := 3
  const DLT_LOG_INFO := 4
  const DLT_LOG_DEBUG := 5
  const DLT_LOG_VERBOSE := 6
  const NOT_SET := -2

  datatype LogLevel = None_ | Fatal | Error | Warning | Info | Debug | Verbose | All | Invalid

  /** The value of the enumeration, by which stream backends compare levels. */
  function Rank(level: LogLevel): nat {
    match level
    case None_ => 0
    case Fatal => 1
    case Error => 2
    case Warning => 3
    case Info => 4
    case Debug => 5
    case Verbose => 6
    case All => 7
    case Invalid => 8
  }

  type DltLevel = v: int | DLT_LOG_DEFAULT <= v <= DLT_LOG_VERBOSE witness 0

  function DltLogLevel(level: LogLevel): DltLevel {
    match level
    case Debug => DLT_LOG_DEBUG
    case Info => DLT_LOG_INFO
    case Warning => DLT_LOG_WARN
    case Fatal => DLT_LOG_FATAL
    case Error => DLT_LOG_ERROR
    case Verbose => DLT_LOG_VERBOSE
    case None_ => DLT_LOG_OFF
    case _ => DLT_LOG_DEFAULT
  }

  /** The DLT level of None up to Verbose is the place in this list; the other two have the default level. */
  lemma DltLevelByPlace(level: LogLevel)
    ensures
      var v := DltLogLevel(level);
      if level == All || level == Invalid then v == -1
      else 0 <= v < 7 && [None_, Fatal, Error, Warning, Info, Debug, Verbose][v] == level
  {
  }

  lemma RankByPlace(n: nat)
    requires n < 9
    ensures Rank([None_, Fatal, Error, Warning, Info, Debug, Verbose, All, Invalid][n]) == n
  {
  }

  /** The ids of an extended header, zero until a registration fills them in. */
  datatype Header = Header(apid: Id, ctid: Id)

  const BLANK_HEADER := Header(BLANK_ID, BLANK_ID)
}
