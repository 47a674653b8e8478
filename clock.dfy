/**
 * Time as the dashboard sees it. An instant is a whole number of milliseconds
 * since the Unix epoch (UTC). The browser's local time zone is a fixed offset
 * in milliseconds: local wall-clock time = instant + offset. Form inputs hold
 * wall-clock text, which the model represents by the wall-clock value it names.
 */
module Clock {
  import Text

  type Timestamp = int

  const MsPerMinute: int := 60000
  const MsPerDay: int := 86400000

  /** The whole minute an instant falls in (floor division). */
  function MinuteOf(t: Timestamp): int {
    t / MsPerMinute
  }

  /** `dayjs(a).isSame(b, "minute")` for a time zone whose offset is whole minutes. */
  predicate SameMinute(a: Timestamp, b: Timestamp) {
    MinuteOf(a) == MinuteOf(b)
  }

  predicate MinuteAligned(t: int) {
    t % MsPerMinute == 0
  }

  /**
   * The key `format("YYYY-MM-DDTHH:mm")` yields for an instant, written as the
   * decimal minute count: two instants get the same key exactly when they fall
   * in the same minute, and the key never contains the `|` separator.
   */
  function MinuteKey(t: Timestamp): (k: string)
    ensures |k| > 0 && '|' !in k
  {
    Text.IntToDecimal(MinuteOf(t))
  }

  lemma MinuteKeyMatch(a: Timestamp, b: Timestamp)
    ensures MinuteKey(a) == MinuteKey(b) <==> SameMinute(a, b)
  {
    if MinuteKey(a) == MinuteKey(b) {
      Text.IntToDecimalInjective(MinuteOf(a), MinuteOf(b));
    }
  }

  /** `dayjs(local text)`: the instant a local wall-clock value names. */
  function FromLocal(wall: int, offset: int): Timestamp {
    wall - offset
  }

  /** `format("YYYY-MM-DDTHH:mm")` of an instant: its local wall clock, cut to the minute. */
  function LocalMinuteField(t: Timestamp, offset: int): (w: int)
    ensures MinuteAligned(w) && w <= t + offset < w + MsPerMinute
  {
    (t + offset) / MsPerMinute * MsPerMinute
  }

  /** Reading the local minute field back names the instant again when it is a whole local minute. */
  lemma LocalMinuteFieldExact(t: Timestamp, offset: int)
    requires MinuteAligned(t + offset)
    ensures FromLocal(LocalMinuteField(t, offset), offset) == t
  {
  }

  /** `toISOString().slice(0, 16)`: the UTC wall clock of an instant, cut to the minute. */
  function IsoMinuteField(t: Timestamp): (w: int)
    ensures MinuteAligned(w) && w <= t < w + MsPerMinute
  {
    t / MsPerMinute * MsPerMinute
  }

  /** The local calendar day (days since 1970-01-01) of an instant: `format("YYYY-MM-DD")`. */
  function LocalDay(t: Timestamp, offset: int): int {
    (t + offset) / MsPerDay
  }

  /** `toISOString().slice(0, 10)`: the UTC calendar day of an instant. */
  function IsoDay(t: Timestamp): int {
    t / MsPerDay
  }

  /** The instant local midnight of a day names: `dayjs("YYYY-MM-DD")`. */
  function LocalMidnight(day: int, offset: int): Timestamp {
    day * MsPerDay - offset
  }

  /** The local time of day of an instant in whole minutes: `format("HH:mm")`. */
  function LocalMinuteOfDay(t: Timestamp, offset: int): (m: int)
    ensures 0 <= m < 24 * 60
  {
    (t + offset) % MsPerDay / MsPerMinute
  }

  /** `dayjs(date + "T" + time)`: the instant a local day and time of day name. */
  function CombineDateTime(day: int, minuteOfDay: int, offset: int): Timestamp {
    FromLocal(day * MsPerDay + minuteOfDay * MsPerMinute, offset)
  }

  /** Reading back the local day and time of an instant names the same instant, to the minute. */
  lemma CombineLocalParts(t: Timestamp, offset: int)
    requires MinuteAligned(t + offset)
    ensures CombineDateTime(LocalDay(t, offset), LocalMinuteOfDay(t, offset), offset) == t
  {
    WallParts(t + offset);
  }

  /** A whole-minute wall-clock value is its day plus its minute of the day. */
  lemma WallParts(w: int)
    requires w % MsPerMinute == 0
    ensures w / MsPerDay * MsPerDay + w % MsPerDay / MsPerMinute * MsPerMinute == w
  {
    var d, r := w / MsPerDay, w % MsPerDay;
    var m := w / MsPerMinute;
    assert w == m * MsPerMinute;
    assert w == d * MsPerDay + r;
    assert r == (m - d * 1440) * MsPerMinute;
    assert r / MsPerMinute == m - d * 1440;
  }
}
