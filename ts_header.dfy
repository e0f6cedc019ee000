/** Value types shared by the decoder and the filter: bytes, PIDs and the
    fields of a transport-stream packet header that the core reads.
    The header itself is produced by parse_ts_header, whose body is not part
    of this model: callers hand the model its result as an Option<Header>,
    None standing for "the header did not parse". */
module TsHeader {

  /** One byte of the stream. */
  newtype uint8 = x: int | 0 <= x < 0x100

  /** 13-bit packet identifier. */
  type Pid = x: int | 0 <= x < 0x2000

  /** 2-bit and 4-bit header fields. */
  type Bits2 = x: int | 0 <= x < 4
  type Nibble = x: int | 0 <= x < 16

  /** The PID of null (stuffing) packets. */
  const NullPid: Pid := 0x1FFF

  /** The header fields of ts_header_t that the core uses. */
  datatype Header = Header(
    pid: Pid,
    transportScramblingControl: Bits2,
    adaptationFieldControl: Bits2,
    continuityCounter: Nibble)

  /** adaptation_field_control & 0x01: the packet carries a payload. */
  predicate HasPayload(afc: Bits2) {
    afc % 2 == 1
  }

  datatype Option<+T> = None | Some(value: T)

  /** The first n elements of s, or all of s if it is shorter. */
  function Prefix<T>(s: seq<T>, n: nat): (r: seq<T>)
    ensures |r| <= n && |r| <= |s| && r == s[..|r|]
    ensures |s| <= n ==> r == s
    ensures |s| > n ==> |r| == n
  {
    if |s| <= n then s else s[..n]
  }
}
