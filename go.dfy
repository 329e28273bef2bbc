/** The Go built-in types the service works with. */
module Go {

  /** Go's byte (uint8). */
  type byte = x: int | 0 <= x < 256

  /** Go's int64, the type of both check-in identifiers. */
  type int64 = x: int | -0x8000_0000_0000_0000 <= x < 0x8000_0000_0000_0000

  /** A non-nil Go error value. Its only observable use here is json.Encoder writing it,
      so it is represented by what encoding/json renders it as. */
  datatype Error = Error(json: seq<byte>)

  /** The bytes of a string made of ASCII characters, as Go stores a string literal. */
  function Ascii(s: string): (bytes: seq<byte>)
    requires forall i :: 0 <= i < |s| ==> s[i] as int < 128
  {
    seq(|s|, i requires 0 <= i < |s| => s[i] as int)
  }
}
