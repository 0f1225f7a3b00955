/** The countdown of components/ui/reservation-timer.tsx: whole seconds left
    until a hold expires, shown as minutes and zero-padded seconds, coloured
    by urgency. Times are milliseconds; the clock is a parameter. */
module ReservationTimer {
  import opened Text

  /** `calculateTimeLeft()`: `Math.floor(Math.max(0, expires - now) / 1000)` */
  function TimeLeft(expiresAt: int, now: int): nat {
    (if expiresAt - now > 0 then expiresAt - now else 0) / 1000
  }

  /** Whole seconds, rounded down, never negative: zero from the moment of
      expiry on, and never more than the remaining milliseconds allow. */
  lemma TimeLeftBounds(expiresAt: int, now: int)
    ensures now >= expiresAt ==> TimeLeft(expiresAt, now) == 0
    ensures now < expiresAt ==>
              TimeLeft(expiresAt, now) * 1000 <= expiresAt - now < (TimeLeft(expiresAt, now) + 1) * 1000
    ensures TimeLeft(expiresAt, now) == 0 <==> expiresAt - now < 1000
  {
  }

  /** The countdown never goes up as the clock advances. */
  lemma TimeLeftNonIncreasing(expiresAt: int, now: int, later: int)
    requires now <= later
    ensures TimeLeft(expiresAt, later) <= TimeLeft(expiresAt, now)
  {
    var a := if expiresAt - now > 0 then expiresAt - now else 0;
    var b := if expiresAt - later > 0 then expiresAt - later else 0;
    assert b <= a;
    DivMonotone(b, a, 1000);
  }

  lemma DivMonotone(a: nat, b: nat, d: nat)
    requires a <= b && d > 0
    ensures a / d <= b / d
  {
    assert (a / d) * d <= a <= b < (b / d + 1) * d;
    MulLessMonotone(a / d, b / d + 1, d);
  }

  lemma MulLessMonotone(x: nat, y: nat, d: nat)
    requires x * d < y * d
    ensures x < y
  {
    if x >= y {
      MulMonotone(y, x, d);
    }
  }

  lemma MulMonotone(y: nat, x: nat, d: nat)
    requires y <= x
    ensures y * d <= x * d
  {
  }

  function Minutes(timeLeft: nat): nat { timeLeft / 60 }

  function Seconds(timeLeft: nat): nat { timeLeft % 60 }

  /** The split into minutes and seconds loses nothing. */
  lemma MinutesSecondsSplit(timeLeft: nat)
    ensures Minutes(timeLeft) * 60 + Seconds(timeLeft) == timeLeft
    ensures Seconds(timeLeft) < 60
  {
  }

  /** `{minutes}:{seconds.toString().padStart(2, '0')}` */
  function CountdownText(timeLeft: nat): string {
    NatToString(Minutes(timeLeft)) + ":" + PadStart2(NatToString(Seconds(timeLeft)))
  }

  /** The seconds are always exactly two digits, and the text reads back:
      the digits before the colon are the minutes, the two after it the
      seconds, so together they give the time left. */
  lemma CountdownTextRoundTrip(timeLeft: nat)
    ensures var text := CountdownText(timeLeft);
            var m := NatToString(Minutes(timeLeft));
            && |text| == |m| + 3 && text[|m|] == ':'
            && AllDigits(text[..|m|]) && AllDigits(text[|m| + 1..])
            && DigitsValue(text[..|m|]) * 60 + DigitsValue(text[|m| + 1..]) == timeLeft
  {
    var text := CountdownText(timeLeft);
    var m := NatToString(Minutes(timeLeft));
    var s := Seconds(timeLeft);
    var ss := PadStart2(NatToString(s));
    assert text[..|m|] == m;
    DecimalRoundTrip(Minutes(timeLeft));
    DecimalRoundTrip(s);
    if s < 10 {
      assert ss == "0" + NatToString(s);
      assert ss[..1] == "0" && ss[1..] == NatToString(s);
      assert DigitsValue(ss) == s by {
        assert ss[..|ss| - 1] == "0";
      }
    } else {
      assert ss == NatToString(s);
    }
    assert |ss| == 2;
    assert text[|m| + 1..] == ss;
  }

  datatype Urgency = Red | Orange | Green

  /** `getColorClass()` */
  function UrgencyOf(timeLeft: nat): Urgency {
    if timeLeft <= 3 then Red else if timeLeft <= 6 then Orange else Green
  }

  function ColorClass(u: Urgency): string {
    match u
    case Red => "text-red-600 font-bold"
    case Orange => "text-orange-600 font-semibold"
    case Green => "text-green-600 font-semibold"
  }

  /** Red for the last three seconds, orange for the three before, green
      otherwise; urgency only rises as the countdown falls. */
  lemma UrgencyBands(timeLeft: nat, earlier: nat)
    requires timeLeft <= earlier
    ensures UrgencyOf(timeLeft) == Red <==> timeLeft <= 3
    ensures UrgencyOf(timeLeft) == Orange <==> 4 <= timeLeft <= 6
    ensures UrgencyOf(timeLeft) == Green <==> timeLeft >= 7
    ensures UrgencyOf(earlier) == Red ==> UrgencyOf(timeLeft) == Red
    ensures UrgencyOf(earlier) == Orange ==> UrgencyOf(timeLeft) != Green
  {
  }
}
