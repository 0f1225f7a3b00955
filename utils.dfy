/** lib/utils.ts: seat labels for a new section (`generateSeatNumbers`) and
    the 12-hour rendering of an "HH:MM" time (`formatTime`). */
module Utils {
  import opened Common
  import opened Text

  // ---------------------------------------------------------------------------
  // generateSeatNumbers
  // ---------------------------------------------------------------------------

  /** Rows whose letter `65 + row` lies below the UTF-16 surrogate block. */
  const MaxRows: nat := 0xD800 - 65
  const MaxSeatsPerSection: nat := 10 * MaxRows

  /** `Math.ceil(n / 10)` */
  function CeilDiv10(n: int): int {
    if n >= 0 then (n + 9) / 10 else -((-n) / 10)
  }

  function RowLetter(row: nat): char
    requires row < MaxRows
  {
    (65 + row) as char
  }

  /** The label of seat `i` (0-based, row-major, ten seats per row): the row
      letter followed by the seat's 1-based place in its row. */
  function SeatLabel(i: nat): (name: string)
    requires i < MaxSeatsPerSection
    ensures |name| >= 2 && name[0] == RowLetter(i / 10) && name[1..] == NatToString(i % 10 + 1)
  {
    [RowLetter(i / 10)] + NatToString(i % 10 + 1)
  }

  /** The labels of the first `k` seats, in seat order. */
  function Labels(k: nat): (r: seq<string>)
    requires k <= MaxSeatsPerSection
    ensures |r| == k
  {
    if k == 0 then [] else Labels(k - 1) + [SeatLabel(k - 1)]
  }

  /** Place `i` of the labels holds the label of seat `i`. */
  lemma {:induction false} LabelAt(k: nat, i: nat)
    requires k <= MaxSeatsPerSection && i < k
    ensures Labels(k)[i] == SeatLabel(i)
  {
    if i < k - 1 {
      LabelAt(k - 1, i);
    }
  }

  /** `generateSeatNumbers(totalSeats)` */
  method GenerateSeatNumbers(totalSeats: int) returns (seats: seq<string>)
    requires totalSeats <= MaxSeatsPerSection
    ensures seats == Labels(if totalSeats > 0 then totalSeats else 0)
  {
    seats := [];
    ghost var done: nat := 0;
    var rows := CeilDiv10(totalSeats);
    CeilDiv10Bounds(totalSeats);
    var row := 0;
    while row < rows
      invariant 0 <= row <= if rows > 0 then rows else 0
      invariant done == if row < rows then row * 10 else if totalSeats > 0 then totalSeats else 0
      invariant seats == Labels(done)
    {
      var letter := RowLetter(row);
      var seatsInRow := if 10 < totalSeats - row * 10 then 10 else totalSeats - row * 10;
      var seat := 1;
      while seat <= seatsInRow
        invariant 1 <= seat <= seatsInRow + 1
        invariant done == row * 10 + seat - 1
        invariant seats == Labels(done)
      {
        NextLabel(done, row, seat);
        seats := seats + [[letter] + NatToString(seat)];
        seat := seat + 1;
        done := done + 1;
      }
      row := row + 1;
    }
  }

  /** `Math.ceil(n / 10)` rows hold `n` seats, ten to a row, the last one not empty. */
  lemma CeilDiv10Bounds(n: int)
    ensures n <= 0 ==> CeilDiv10(n) <= 0
    ensures n > 0 ==> 0 < CeilDiv10(n) && 10 * (CeilDiv10(n) - 1) < n <= 10 * CeilDiv10(n)
    ensures n <= MaxSeatsPerSection ==> CeilDiv10(n) <= MaxRows
  {
  }

  /** Seat `seat` (1-based) of row `row` is labelled by the row letter and its place. */
  lemma NextLabel(i: nat, row: nat, seat: nat)
    requires 1 <= seat <= 10 && i == row * 10 + seat - 1 && i < MaxSeatsPerSection
    ensures row < MaxRows
    ensures Labels(i + 1) == Labels(i) + [[RowLetter(row)] + NatToString(seat)]
  {
    assert i / 10 == row && i % 10 + 1 == seat;
  }

  /** One label per seat: `n` labels for `n >= 0`, none for `n <= 0`. */
  lemma SeatCount(n: int)
    requires n <= MaxSeatsPerSection
    ensures |Labels(if n > 0 then n else 0)| == if n > 0 then n else 0
  {
  }

  /** No two seats share a label. */
  lemma SeatLabelsDistinct(i: nat, j: nat)
    requires i < MaxSeatsPerSection && j < MaxSeatsPerSection && i != j
    ensures SeatLabel(i) != SeatLabel(j)
  {
    if i / 10 == j / 10 {
      DecimalRoundTrip(i % 10 + 1);
      DecimalRoundTrip(j % 10 + 1);
      assert SeatLabel(i)[1..] != SeatLabel(j)[1..];
    } else {
      assert SeatLabel(i)[0] != SeatLabel(j)[0];
    }
  }

  lemma LabelsDistinct(n: nat)
    requires n <= MaxSeatsPerSection
    ensures NoDuplicates(Labels(n))
  {
    forall i, j | 0 <= i < j < n ensures Labels(n)[i] != Labels(n)[j] {
      LabelAt(n, i);
      LabelAt(n, j);
      SeatLabelsDistinct(i, j);
    }
  }

  /** Row `r` holds the labels at places `10 r` up to `10 r + min(10, n - 10 r)`:
      every row but the last has ten seats, the last has what remains, and no
      other label carries the row's letter. */
  lemma RowSizes(n: nat, r: nat)
    requires n <= MaxSeatsPerSection && r < CeilDiv10(n)
    ensures var size := if 10 < n - 10 * r then 10 else n - 10 * r;
            && 1 <= size <= 10
            && (r < CeilDiv10(n) - 1 ==> size == 10)
            && (r == CeilDiv10(n) - 1 ==> size == n - 10 * (CeilDiv10(n) - 1))
    ensures forall i :: 0 <= i < n ==> |Labels(n)[i]| >= 2
    ensures var size := if 10 < n - 10 * r then 10 else n - 10 * r;
            forall i :: 0 <= i < n ==> (Labels(n)[i][0] == RowLetter(r) <==> 10 * r <= i < 10 * r + size)
  {
    var size := if 10 < n - 10 * r then 10 else n - 10 * r;
    forall i | 0 <= i < n ensures |Labels(n)[i]| >= 2 {
      LabelAt(n, i);
    }
    forall i | 0 <= i < n ensures Labels(n)[i][0] == RowLetter(r) <==> 10 * r <= i < 10 * r + size {
      LabelAt(n, i);
      assert Labels(n)[i][0] == RowLetter(i / 10);
      assert RowLetter(i / 10) == RowLetter(r) <==> i / 10 == r;
    }
  }

  // ---------------------------------------------------------------------------
  // formatTime
  // ---------------------------------------------------------------------------

  predicate IsHexDigit(c: char) {
    IsDigit(c) || 'a' <= c <= 'f' || 'A' <= c <= 'F'
  }

  function HexDigitValue(c: char): nat
    requires IsHexDigit(c)
  {
    if IsDigit(c) then DigitValue(c)
    else if 'a' <= c <= 'f' then (c as int) - ('a' as int) + 10
    else (c as int) - ('A' as int) + 10
  }

  function HexValue(s: string): nat
    requires forall i :: 0 <= i < |s| ==> IsHexDigit(s[i])
  {
    if s == [] then 0 else HexValue(s[..|s| - 1]) * 16 + HexDigitValue(s[|s| - 1])
  }

  /** The longest prefix of `s` whose characters all satisfy `p`. */
  function LongestPrefix(s: string, p: char -> bool): (r: string)
    ensures |r| <= |s| && r == s[..|r|]
    ensures forall i :: 0 <= i < |r| ==> p(r[i])
    ensures |r| == |s| || !p(s[|r|])
  {
    if s == [] || !p(s[0]) then [] else [s[0]] + LongestPrefix(s[1..], p)
  }

  /** `parseInt(s)` without a radix: leading whitespace skipped, an optional
      sign, then the longest run of decimal digits (hexadecimal after `0x` or
      `0X`); `None` stands for `NaN`, when that run is empty. */
  function ParseInt(s: string): Option<int> {
    var t := TrimStart(s);
    var negative := t != [] && t[0] == '-';
    var rest := if t != [] && (t[0] == '-' || t[0] == '+') then t[1..] else t;
    var magnitude: Option<nat> :=
      if |rest| >= 2 && rest[0] == '0' && (rest[1] == 'x' || rest[1] == 'X') then
        var digits := LongestPrefix(rest[2..], IsHexDigit);
        if digits == [] then None else Some(HexValue(digits))
      else
        var digits := LongestPrefix(rest, IsDigit);
        if digits == [] then None else Some(DigitsValue(digits));
    match magnitude
    case None => None
    case Some(m) => Some(if negative then -(m as int) else m as int)
  }

  /** The first index of `c` in `s`, if any. */
  function IndexOf(s: string, c: char): (r: Option<nat>)
    ensures r.None? ==> c !in s
    ensures r.Some? ==> r.value < |s| && s[r.value] == c && c !in s[..r.value]
  {
    if s == [] then None
    else if s[0] == c then Some(0)
    else
      match IndexOf(s[1..], c)
      case None => None
      case Some(k) => assert s[..k + 1] == [s[0]] + s[1..][..k]; Some(k + 1)
  }

  /** `const [hours, minutes] = time.split(':')`: the text before the first
      colon, and the text between the first and the second colon (to the end
      when there is no second one); `None` when there is no colon at all. */
  function SplitTime(time: string): (string, Option<string>) {
    match IndexOf(time, ':')
    case None => (time, None)
    case Some(k) =>
      var rest := time[k + 1..];
      match IndexOf(rest, ':')
      case None => (time[..k], Some(rest))
      case Some(m) => (time[..k], Some(rest[..m]))
  }

  /** JavaScript's `%` on integers: the quotient is truncated toward zero, so the
      remainder takes the dividend's sign and is smaller than the divisor. */
  function TruncRem(a: int, b: nat): (r: int)
    requires b > 0
    ensures a >= 0 ==> r == a % b
    ensures a >= 0 ==> 0 <= r < b
    ensures a < 0 ==> -(b as int) < r <= 0
    ensures a == b * (if a >= 0 then a / b else -((-a) / b)) + r
  {
    if a >= 0 then a % b else -((-a) % b)
  }

  /** `hour % 12 || 12`, where `NaN` and `0` give 12. */
  function DisplayHour(hour: Option<int>): int {
    match hour
    case None => 12
    case Some(h) => if TruncRem(h, 12) == 0 then 12 else TruncRem(h, 12)
  }

  /** `hour >= 12 ? 'PM' : 'AM'`, where `NaN >= 12` is false. */
  function Meridiem(hour: Option<int>): string {
    if hour.Some? && hour.value >= 12 then "PM" else "AM"
  }

  /** `formatTime(time)`; an absent minutes part renders as "undefined". */
  function FormatTime(time: string): string {
    var (hours, minutes) := SplitTime(time);
    var hour := ParseInt(hours);
    IntToString(DisplayHour(hour)) + ":" + minutes.GetOr("undefined") + " " + Meridiem(hour)
  }

  /** The suffix is "PM" exactly when the hour parses to at least 12. */
  lemma FormatTimeMeridiem(time: string)
    ensures var hour := ParseInt(SplitTime(time).0);
            var r := FormatTime(time);
            && |r| >= 2
            && (r[|r| - 2..] == "PM" <==> hour.Some? && hour.value >= 12)
            && (r[|r| - 2..] == "AM" <==> !(hour.Some? && hour.value >= 12))
  {
  }

  /** A non-negative hour shows as a number from 1 to 12, with 0 and 12 shown as 12. */
  lemma DisplayHourRange(h: int)
    requires h >= 0
    ensures 1 <= DisplayHour(Some(h)) <= 12
    ensures h % 12 == 0 <==> DisplayHour(Some(h)) == 12
    ensures h % 12 != 0 ==> DisplayHour(Some(h)) == h % 12
  {
  }

  /** Back from the 12-hour clock: the display hour and suffix give the hour of the day. */
  function To24(displayHour: int, meridiem: string): int {
    (if displayHour == 12 then 0 else displayHour) + (if meridiem == "PM" then 12 else 0)
  }

  lemma {:induction false} LeadingZeroValue(s: string)
    requires AllDigits(s)
    ensures AllDigits("0" + s) && DigitsValue("0" + s) == DigitsValue(s)
  {
    if s != [] {
      var z := "0" + s;
      assert z[..|z| - 1] == "0" + s[..|s| - 1];
      LeadingZeroValue(s[..|s| - 1]);
    }
  }

  /** A two-digit rendering of an hour of the day. */
  lemma PaddedHour(h: nat)
    requires h < 24
    ensures var hh := PadStart2(NatToString(h));
            |hh| == 2 && AllDigits(hh) && DigitsValue(hh) == h
  {
    var hh := PadStart2(NatToString(h));
    DecimalRoundTrip(h);
    if h < 10 {
      assert hh == "0" + NatToString(h);
      LeadingZeroValue(NatToString(h));
    } else {
      assert NatToString(h) == NatToString(h / 10) + [DigitChar(h % 10)];
    }
  }

  /** `parseInt` of a non-empty digit string is its decimal value. */
  lemma ParseIntDigits(s: string)
    requires s != [] && AllDigits(s)
    ensures ParseInt(s) == Some(DigitsValue(s) as int)
  {
    assert TrimStart(s) == s;
    assert LongestPrefix(s, IsDigit) == s by {
      assert LongestPrefix(s, IsDigit) == s[..|LongestPrefix(s, IsDigit)|];
    }
  }

  lemma SplitHoursMinutes(hh: string, minutes: string)
    requires ':' !in hh && ':' !in minutes
    ensures SplitTime(hh + ":" + minutes) == (hh, Some(minutes))
  {
    var time := hh + ":" + minutes;
    assert time[|hh|] == ':' && time[..|hh|] == hh;
    assert time[|hh| + 1..] == minutes;
  }

  /** The 12-hour display of an hour of the day reads back to that hour. */
  lemma TwelveHourRoundTrip(h: nat)
    requires h < 24
    ensures To24(DisplayHour(Some(h)), Meridiem(Some(h))) == h
  {
    if h < 12 {
      assert Meridiem(Some(h)) == "AM";
      assert "AM" != "PM" by { assert "AM"[0] != "PM"[0]; }
    } else {
      assert Meridiem(Some(h)) == "PM";
    }
  }

  /** For an "HH:MM" time with an hour of the day, `formatTime` shows the
      hour on the 12-hour clock, keeps the minutes text, and adds the suffix. */
  lemma FormatTimeOfClockTime(h: nat, minutes: string)
    requires h < 24 && ':' !in minutes
    ensures var time := PadStart2(NatToString(h)) + ":" + minutes;
            && ParseInt(SplitTime(time).0) == Some(h)
            && FormatTime(time) == NatToString(DisplayHour(Some(h))) + ":" + minutes + " " + Meridiem(Some(h))
  {
    var hh := PadStart2(NatToString(h));
    PaddedHour(h);
    ParseIntDigits(hh);
    SplitHoursMinutes(hh, minutes);
    DisplayHourRange(h);
  }
}
