/** The CIP type codes of types.go and their sizes. */
module CipTypes {
  import opened Wire

  const STRUCT: byte := 0xA0
  const UTIME: byte := 0xC0
  const BOOL: byte := 0xC1
  const SINT: byte := 0xC2
  const INT: byte := 0xC3
  const DINT: byte := 0xC4
  const LINT: byte := 0xC5
  const USINT: byte := 0xC6
  const UINT: byte := 0xC7
  const UDINT: byte := 0xC8
  const ULINT: byte := 0xC9
  const REAL: byte := 0xCA
  const LREAL: byte := 0xCB
  const DATE: byte := 0xCD
  const TIMEOFDAY: byte := 0xCE
  const BYTE: byte := 0xD1
  const WORD: byte := 0xD2
  const DWORD: byte := 0xD3
  const LWORD: byte := 0xD4
  const STRING: byte := 0xFF

  /** `CIPType.Size` */
  function Size(t: byte): nat {
    if t == STRUCT then 88
    else if t in {BOOL, BYTE, SINT, USINT} then 1
    else if t in {INT, UINT, WORD, DATE} then 2
    else if t in {DINT, UDINT, REAL, DWORD} then 4
    else if t in {UTIME, LINT, ULINT, LWORD, LREAL} then 8
    else if t == TIMEOFDAY then 6
    else if t == STRING then 90
    else 0
  }

  /** How many bytes `readValue` takes for one value of the type; 0 when it refuses the type. */
  function ValueWidth(t: byte): nat {
    if t in {BOOL, BYTE, SINT, USINT} then 1
    else if t in {INT, UINT, WORD} then 2
    else if t in {DINT, UDINT, REAL, DWORD} then 4
    else if t in {LINT, LWORD, LREAL} then 8
    else if t == STRING then 86
    else 0
  }

  /** The bytes of the value that `readValue` makes of `v`: for a bool every byte but 0 is true. */
  function Meant(t: byte, v: seq<byte>): seq<byte> {
    if t == BOOL then seq(|v|, i requires 0 <= i < |v| => if v[i] != 0 then 1 else 0) else v
  }
}
