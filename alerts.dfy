/** Which sent-alert keys belong to a flight (clearAlertsForFlight in
    drones/internal/processor/proccessor.go).  A key is a byte string; it
    belongs to application `id` when its first byte, taken as a one-byte
    string, equals the UTF-8 encoding of `rune(id)`: the id cut to a signed
    32-bit code point.  Such a one-byte encoding exists only for code points
    0 .. 127, so the keys of any other application are never cleared. */
module Alerts {

  type byte = b: int | 0 <= b < 256

  const TwoTo32: int := 0x1_0000_0000
  const TwoTo31: int := 0x8000_0000

  /** Go's conversion of an integer to `rune` (int32): the low 32 bits,
      read as a two's-complement number. */
  function Int32(x: int): (r: int)
    ensures -TwoTo31 <= r < TwoTo31
    ensures (x - r) % TwoTo32 == 0
    ensures -TwoTo31 <= x < TwoTo31 ==> r == x
  {
    var low := x % TwoTo32;
    if low >= TwoTo31 then low - TwoTo32 else low
  }

  /** A Unicode scalar value: not negative, at most U+10FFFF and not a
      surrogate. */
  predicate ValidRune(r: int)
  {
    0 <= r <= 0x10FFFF && !(0xD800 <= r <= 0xDFFF)
  }

  /** The replacement character U+FFFD, which Go writes for an invalid rune. */
  const Replacement: int := 0xFFFD

  /** string(rune(r)): the UTF-8 encoding of `r`, or of U+FFFD when `r` is
      not a scalar value. */
  function EncodeRune(r: int): (bytes: seq<byte>)
    ensures 1 <= |bytes| <= 4
    ensures |bytes| == 1 <==> 0 <= r < 0x80
    ensures 0 <= r < 0x80 ==> bytes == [r]
  {
    var c := if ValidRune(r) then r else Replacement;
    if c < 0x80 then [c]
    else if c < 0x800 then [0xC0 + c / 0x40, 0x80 + c % 0x40]
    else if c < 0x10000 then [0xE0 + c / 0x1000, 0x80 + (c / 0x40) % 0x40, 0x80 + c % 0x40]
    else [0xF0 + c / 0x40000, 0x80 + (c / 0x1000) % 0x40, 0x80 + (c / 0x40) % 0x40, 0x80 + c % 0x40]
  }

  /** Reads back the code point of a well-formed encoding from its lead byte
      and continuation bytes. */
  function DecodeRune(bytes: seq<byte>): (r: int)
    requires 1 <= |bytes| <= 4
  {
    if |bytes| == 1 then bytes[0]
    else if |bytes| == 2 then (bytes[0] as int - 0xC0) * 0x40 + (bytes[1] as int - 0x80)
    else if |bytes| == 3 then
      (bytes[0] as int - 0xE0) * 0x1000 + (bytes[1] as int - 0x80) * 0x40 + (bytes[2] as int - 0x80)
    else
      (bytes[0] as int - 0xF0) * 0x40000 + (bytes[1] as int - 0x80) * 0x1000 + (bytes[2] as int - 0x80) * 0x40 + (bytes[3] as int - 0x80)
  }

  /** Encoding is faithful: a scalar value is read back unchanged, and every
      other value reads back as the replacement character. */
  lemma EncodeRuneRoundTrip(r: int)
    ensures DecodeRune(EncodeRune(r)) == if ValidRune(r) then r else Replacement
  {
    var c := if ValidRune(r) then r else Replacement;
    if c < 0x80 {
    } else if c < 0x800 {
      assert c == (c / 0x40) * 0x40 + c % 0x40;
    } else if c < 0x10000 {
      assert c / 0x40 == (c / 0x1000) * 0x40 + (c / 0x40) % 0x40;
      assert c == (c / 0x40) * 0x40 + c % 0x40;
    } else {
      assert c / 0x1000 == (c / 0x40000) * 0x40 + (c / 0x1000) % 0x40;
      assert c / 0x40 == (c / 0x1000) * 0x40 + (c / 0x40) % 0x40;
      assert c == (c / 0x40) * 0x40 + c % 0x40;
    }
  }

  /** The alert key's first byte marks it as one of application `id`'s. */
  predicate BelongsTo(key: seq<byte>, id: int)
  {
    |key| > 0 && key[..1] == EncodeRune(Int32(id))
  }

  /** A key belongs to application `id` exactly when the id, cut to 32 bits,
      is an ASCII code and the key starts with that byte. */
  lemma BelongsToFirstByte(key: seq<byte>, id: int)
    ensures BelongsTo(key, id) <==> |key| > 0 && 0 <= Int32(id) < 0x80 && key[0] == Int32(id)
  {
    if |key| > 0 && 0 <= Int32(id) < 0x80 && key[0] == Int32(id) {
      assert key[..1] == [key[0]];
    }
  }

  /** The alerts left after clearing those of application `id`. */
  function ClearedAlerts(alerts: map<seq<byte>, bool>, id: int): (left: map<seq<byte>, bool>)
    ensures forall key :: key in left <==> key in alerts && !BelongsTo(key, id)
    ensures forall key :: key in left ==> left[key] == alerts[key]
  {
    map key | key in alerts && !BelongsTo(key, id) :: alerts[key]
  }

  /** Applications whose id, cut to 32 bits, is not an ASCII code own no key,
      so clearing their alerts changes nothing; clearing twice is clearing
      once. */
  lemma ClearingWideIdsKeepsAll(alerts: map<seq<byte>, bool>, id: int)
    requires !(0 <= Int32(id) < 0x80)
    ensures ClearedAlerts(alerts, id) == alerts
  {
    forall key | key in alerts
      ensures !BelongsTo(key, id)
    {
      BelongsToFirstByte(key, id);
    }
  }

  lemma ClearingIsIdempotent(alerts: map<seq<byte>, bool>, id: int)
    ensures ClearedAlerts(ClearedAlerts(alerts, id), id) == ClearedAlerts(alerts, id)
  {
  }

  /** Ids 2^32 apart clear the same keys. */
  lemma ClearingIsPeriodic(alerts: map<seq<byte>, bool>, id: int)
    ensures ClearedAlerts(alerts, id + TwoTo32) == ClearedAlerts(alerts, id)
  {
    assert Int32(id + TwoTo32) == Int32(id);
  }
}
