/**
 * Fixed-width integers of the firmware and the little-endian 16-bit decoding
 * the central client applies to a characteristic value (the `memcpy` into an
 * `int16_t` or `uint16_t` field on a little-endian target).
 */
module Bytes {

  type u8 = x: int | 0 <= x < 0x100
  type u16 = x: int | 0 <= x < 0x1_0000
  type u32 = x: int | 0 <= x < 0x1_0000_0000
  type i16 = x: int | -0x8000 <= x < 0x8000

  /** Outcome of decoding a characteristic value. */
  datatype Decoded<T> = Value(value: T) | TooShort

  /** The two bytes, low byte first, that a `uint16_t` occupies in memory. */
  function LittleEndian16(v: u16): (b: seq<u8>)
    ensures |b| == 2
  {
    [v % 0x100, v / 0x100]
  }

  /** Two's-complement bit pattern of an `int16_t`. */
  function Unsigned16(v: i16): (u: u16)
    ensures u % 0x1_0000 == v % 0x1_0000
  {
    if v < 0 then v + 0x1_0000 else v
  }

  /** The `int16_t` whose bit pattern is `u`. */
  function Signed16(u: u16): (v: i16)
    ensures Unsigned16(v) == u
  {
    if u < 0x8000 then u else u - 0x1_0000
  }

  /** The unsigned value of two bytes stored low byte first. */
  function FromLittleEndian16(lo: u8, hi: u8): (v: u16)
    ensures LittleEndian16(v) == [lo, hi]
  {
    lo + 0x100 * hi
  }

  lemma {:induction false} LittleEndian16RoundTrip(v: u16)
    ensures FromLittleEndian16(LittleEndian16(v)[0], LittleEndian16(v)[1]) == v
  {
    assert v == v % 0x100 + 0x100 * (v / 0x100);
  }

  lemma {:induction false} Signed16RoundTrip(v: i16)
    ensures Signed16(Unsigned16(v)) == v
  {
  }

  /**
   * Humidity as the source stores it: the first two bytes of the value read
   * little-endian as a `uint16_t`; the value must hold at least two bytes, and
   * bytes after the second play no part.
   */
  function DecodeHumidity(value: seq<u8>): (r: Decoded<u16>)
    ensures r.Value? <==> |value| >= 2
    ensures r.Value? ==> LittleEndian16(r.value) == value[..2]
  {
    if |value| < 2 then TooShort else Value(FromLittleEndian16(value[0], value[1]))
  }

  /**
   * Temperature as the source stores it: the first two bytes read
   * little-endian as a two's-complement `int16_t`.
   */
  function DecodeTemperature(value: seq<u8>): (r: Decoded<i16>)
    ensures r.Value? <==> |value| >= 2
    ensures r.Value? ==> LittleEndian16(Unsigned16(r.value)) == value[..2]
  {
    if |value| < 2 then TooShort else Value(Signed16(FromLittleEndian16(value[0], value[1])))
  }

  /** Decoding looks at the first two bytes only. */
  lemma {:induction false} DecodeIgnoresTrailingBytes(value: seq<u8>, extra: seq<u8>)
    requires |value| >= 2
    ensures DecodeHumidity(value + extra) == DecodeHumidity(value)
    ensures DecodeTemperature(value + extra) == DecodeTemperature(value)
  {
    assert (value + extra)[..2] == value[..2];
    LittleEndian16Injective(DecodeHumidity(value + extra).value, DecodeHumidity(value).value);
    LittleEndian16Injective(Unsigned16(DecodeTemperature(value + extra).value),
                            Unsigned16(DecodeTemperature(value).value));
    Signed16RoundTrip(DecodeTemperature(value + extra).value);
    Signed16RoundTrip(DecodeTemperature(value).value);
  }

  lemma {:induction false} LittleEndian16Injective(a: u16, b: u16)
    requires LittleEndian16(a) == LittleEndian16(b)
    ensures a == b
  {
    LittleEndian16RoundTrip(a);
    LittleEndian16RoundTrip(b);
  }

  /** Encoding a reading and decoding it gives the reading back. */
  lemma {:induction false} DecodeEncodeHumidity(v: u16, extra: seq<u8>)
    ensures DecodeHumidity(LittleEndian16(v) + extra) == Value(v)
  {
    var b := LittleEndian16(v) + extra;
    LittleEndian16Injective(DecodeHumidity(b).value, v);
  }

  lemma {:induction false} DecodeEncodeTemperature(v: i16, extra: seq<u8>)
    ensures DecodeTemperature(LittleEndian16(Unsigned16(v)) + extra) == Value(v)
  {
    var b := LittleEndian16(Unsigned16(v)) + extra;
    var r := DecodeTemperature(b);
    assert b[..2] == LittleEndian16(Unsigned16(v));
    LittleEndian16Injective(Unsigned16(r.value), Unsigned16(v));
    Signed16RoundTrip(r.value);
    Signed16RoundTrip(v);
  }
}
