/** UTC calendar arithmetic on integer millisecond timestamps, as JavaScript's
    `Date` does it, and the text `Date.prototype.toISOString` produces. A date is
    held as a day number: whole days since 1970-01-01. */
module IsoTime {
  import Text

  const MsPerSecond: int := 1000
  const MsPerHour: int := 60 * 60 * 1000
  const MsPerDay: int := 24 * MsPerHour

  /** The UTC day a timestamp falls on (rounding down, also before 1970). */
  function DayOf(ms: int): (day: int)
    ensures day * MsPerDay <= ms < (day + 1) * MsPerDay
  {
    ms / MsPerDay
  }

  /** The UTC hour of day of a timestamp. */
  function HourOf(ms: int): (h: int)
    ensures 0 <= h < 24
    ensures DayOf(ms) * MsPerDay + h * MsPerHour <= ms < DayOf(ms) * MsPerDay + (h + 1) * MsPerHour
  {
    (ms % MsPerDay) / MsPerHour
  }

  /** Proleptic Gregorian (year, month, day) of a day number. */
  function CivilFromDays(day: int): (ymd: (int, int, int))
  {
    var z := day + 719468;
    var era := z / 146097;
    var doe := z % 146097;
    var yoe := (doe - doe / 1460 + doe / 36524 - doe / 146096) / 365;
    var doy := doe - (365 * yoe + yoe / 4 - yoe / 100);
    var mp := (5 * doy + 2) / 153;
    var d := doy - (153 * mp + 2) / 5 + 1;
    var m := if mp < 10 then mp + 3 else mp - 9;
    (yoe + era * 400 + (if m <= 2 then 1 else 0), m, d)
  }

  /** Zero-padded decimal text of at least `width` digits. */
  function Pad(n: int, width: nat): (s: string)
    ensures forall i :: 0 <= i < |s| ==> Text.IsDigit(s[i])
  {
    var digits := Text.NatToString(if n < 0 then -n else n);
    seq(if |digits| < width then width - |digits| else 0, _ => '0') + digits
  }

  /** `toISOString().substr(0, 10)`: `YYYY-MM-DD`, or `±YYYYYY-MM-DD` outside years 0..9999. */
  function IsoDate(day: int): (s: string)
    ensures forall i :: 0 <= i < |s| ==> Text.IsDigit(s[i]) || s[i] in "+-"
  {
    var (y, m, d) := CivilFromDays(day);
    var year := if 0 <= y <= 9999 then Pad(y, 4) else (if y < 0 then "-" else "+") + Pad(y, 6);
    year + "-" + Pad(m, 2) + "-" + Pad(d, 2)
  }

  /** `new Date(ms).toISOString()`: `YYYY-MM-DDTHH:mm:ss.sssZ`. */
  function IsoString(ms: int): string
  {
    var t := ms % MsPerDay;
    IsoDate(DayOf(ms)) + "T" + Pad(t / MsPerHour, 2) + ":" + Pad(t / 60000 % 60, 2) + ":"
      + Pad(t / 1000 % 60, 2) + "." + Pad(t % 1000, 3) + "Z"
  }

  lemma CivilDay14245()
    ensures CivilFromDays(14245) == (2009, 1, 1)
  {
    assert 733713 / 146097 == 5 && 733713 % 146097 == 3228;
    assert 3228 / 1460 == 2 && 3228 / 36524 == 0 && 3228 / 146096 == 0 && 3226 / 365 == 8;
    assert 8 / 4 == 2 && 8 / 100 == 0;
    assert 1532 / 153 == 10 && 1532 / 5 == 306;
  }

  lemma Text2009()
    ensures Text.NatToString(2009) == "2009"
  {
    assert Text.NatToString(2) == "2";
    assert Text.NatToString(20) == "20";
    assert Text.NatToString(200) == "200";
  }

  /** The default range start of the CoinGecko history request, 2009-01-01, is day 14245. */
  lemma DefaultStartDate()
    ensures IsoDate(14245) == "2009-01-01"
  {
    CivilDay14245();
    Text2009();
    assert Pad(2009, 4) == "2009";
    assert Pad(1, 2) == "01";
  }
}
