/** The schemas of ticketing-system/lib/admin-validations.ts that the admin
    forms are checked against: the event form, the seating-section form and
    the event with its sections.

    A schema is a list of checks per field; parsing collects the message of
    every check that fails, and a value is accepted when nothing was
    collected. A refinement still runs after a failed length check, so an
    empty date field collects both of its messages. Numbers are reals; the
    parsed event date (`new Date(date)` in milliseconds, `None` when it is not
    a date) and the start of today are parameters. */
module AdminValidations {
  import opened Common
  import opened Text
  import opened Store
  import opened Utils
  import opened EventActions

  // ---------------------------------------------------------------------------
  // Checks and their messages
  // ---------------------------------------------------------------------------

  /** `.min(n, message)` and `.max(n, message)` on a string's or an array's
      length. */
  datatype LengthCheck = MinLength(bound: nat, message: string) | MaxLength(bound: nat, message: string)

  predicate LengthPasses(check: LengthCheck, n: nat) {
    match check
    case MinLength(bound, _) => n >= bound
    case MaxLength(bound, _) => n <= bound
  }

  /** `.int(message)`, `.positive(message)` and `.max(x, message)` on a
      number. */
  datatype NumberCheck = Whole(message: string) | Positive(message: string) | AtMost(limit: real, message: string)

  predicate NumberPasses(check: NumberCheck, x: real) {
    match check
    case Whole(_) => x.Floor as real == x
    case Positive(_) => x > 0.0
    case AtMost(limit, _) => x <= limit
  }

  /** The messages of the checks that fail, in the order the checks are
      declared. */
  function Issues<C>(checks: seq<C>, passes: C -> bool, message: C -> string): (r: seq<string>)
    ensures |r| <= |checks|
    ensures r == [] <==> forall i :: 0 <= i < |checks| ==> passes(checks[i])
  {
    if checks == [] then []
    else
      var rest := Issues(checks[1..], passes, message);
      assert forall i :: 1 <= i < |checks| ==> checks[i] == checks[1..][i - 1];
      (if passes(checks[0]) then [] else [message(checks[0])]) + rest
  }

  function LengthIssues(checks: seq<LengthCheck>, n: nat): seq<string> {
    Issues(checks, (c: LengthCheck) => LengthPasses(c, n), (c: LengthCheck) => c.message)
  }

  function NumberIssues(checks: seq<NumberCheck>, x: real): seq<string> {
    Issues(checks, (c: NumberCheck) => NumberPasses(c, x), (c: NumberCheck) => c.message)
  }

  /** Length checks accept exactly the lengths between the largest minimum
      and the smallest maximum. */
  lemma LengthWindow(checks: seq<LengthCheck>, n: nat, least: nat, most: nat)
    requires least < |checks| && checks[least].MinLength? && most < |checks| && checks[most].MaxLength?
    requires forall i :: 0 <= i < |checks| && checks[i].MinLength? ==> checks[i].bound <= checks[least].bound
    requires forall i :: 0 <= i < |checks| && checks[i].MaxLength? ==> checks[i].bound >= checks[most].bound
    ensures LengthIssues(checks, n) == [] <==> checks[least].bound <= n <= checks[most].bound
  {
    if checks[least].bound <= n <= checks[most].bound {
      forall i | 0 <= i < |checks| ensures LengthPasses(checks[i], n) {
      }
    } else {
      assert !LengthPasses(checks[least], n) || !LengthPasses(checks[most], n);
    }
  }

  // ---------------------------------------------------------------------------
  // eventFormSchema
  // ---------------------------------------------------------------------------

  const NameChecks := [
    MinLength(1, "Event name is required"),
    MinLength(3, "Event name must be at least 3 characters"),
    MaxLength(200, "Event name must not exceed 200 characters")]

  const DescriptionChecks := [
    MinLength(1, "Description is required"),
    MinLength(10, "Description must be at least 10 characters"),
    MaxLength(2000, "Description must not exceed 2000 characters")]

  const DateChecks := [MinLength(1, "Event date is required")]
  const DateInPastMsg := "Event date cannot be in the past"

  const TimeChecks := [MinLength(1, "Event time is required")]
  const InvalidTimeMsg := "Invalid time format"

  const VenueChecks := [
    MinLength(1, "Venue is required"),
    MinLength(3, "Venue must be at least 3 characters"),
    MaxLength(200, "Venue must not exceed 200 characters")]

  /** `[0-1]?[0-9]|2[0-3]` */
  predicate HourPattern(h: string) {
    || (|h| == 1 && '0' <= h[0] <= '9')
    || (|h| == 2 && '0' <= h[0] <= '1' && '0' <= h[1] <= '9')
    || (|h| == 2 && h[0] == '2' && '0' <= h[1] <= '3')
  }

  /** `[0-5][0-9]` */
  predicate MinutePattern(m: string) {
    |m| == 2 && '0' <= m[0] <= '5' && '0' <= m[1] <= '9'
  }

  /** `/^([0-1]?[0-9]|2[0-3]):[0-5][0-9]$/.test(s)`: an hour of one or two
      characters, then ':' and the minutes. */
  predicate TimeMatches(s: string) {
    || (|s| >= 2 && s[1] == ':' && HourPattern(s[..1]) && MinutePattern(s[2..]))
    || (|s| >= 3 && s[2] == ':' && HourPattern(s[..2]) && MinutePattern(s[3..]))
  }

  /** A clock time `H:MM` or `HH:MM`: an hour of one or two digits worth at
      most 23 and two digits of minutes worth at most 59. */
  predicate HourMinute(s: string) {
    && |s| >= 4
    && var c := |s| - 3;
    && (c == 1 || c == 2) && s[c] == ':'
    && AllDigits(s[..c]) && AllDigits(s[c + 1..])
    && DigitsValue(s[..c]) <= 23 && DigitsValue(s[c + 1..]) <= 59
  }

  lemma DigitsValueShort(s: string)
    requires AllDigits(s) && 1 <= |s| <= 2
    ensures |s| == 1 ==> DigitsValue(s) == DigitValue(s[0])
    ensures |s| == 2 ==> DigitsValue(s) == TwoDigitValue(s[0], s[1])
  {
    if |s| == 1 {
      assert s[..0] == [];
    } else {
      assert s == [s[0], s[1]];
    }
  }

  /** The time pattern matches exactly the clock times. */
  lemma TimeMatchesClockTimes(s: string)
    ensures TimeMatches(s) <==> HourMinute(s)
  {
    if |s| == 4 || |s| == 5 {
      var c := |s| - 3;
      if AllDigits(s[..c]) {
        DigitsValueShort(s[..c]);
      }
      if AllDigits(s[c + 1..]) {
        DigitsValueShort(s[c + 1..]);
      }
      if |s| == 5 && s[1] == ':' {
        assert !MinutePattern(s[2..]);
      }
    }
  }

  /** Midnight is "0:00" or "00:00"; "24:00" and "7:5" are refused. */
  lemma TimeExamples()
    ensures HourMinute("0:00") && HourMinute("00:00") && HourMinute("23:59")
    ensures !HourMinute("24:00") && !HourMinute("7:5") && !HourMinute("12:60")
  {
    TimeMatchesClockTimes("0:00");
    TimeMatchesClockTimes("00:00");
    TimeMatchesClockTimes("23:59");
    TimeMatchesClockTimes("24:00");
    TimeMatchesClockTimes("7:5");
    TimeMatchesClockTimes("12:60");
  }

  /** `selectedDate >= today`: false when the text is not a date. */
  predicate NotInPast(parsedDate: Option<int>, todayStart: int) {
    parsedDate.Some? && parsedDate.value >= todayStart
  }

  datatype EventFormInput = EventFormInput(
    name: string, description: string, eventDate: string, eventTime: string, venue: string)

  /** The issues `eventFormSchema` collects, field by field. */
  function EventFormIssues(f: EventFormInput, parsedDate: Option<int>, todayStart: int): seq<string> {
    LengthIssues(NameChecks, |f.name|)
    + LengthIssues(DescriptionChecks, |f.description|)
    + LengthIssues(DateChecks, |f.eventDate|) + (if NotInPast(parsedDate, todayStart) then [] else [DateInPastMsg])
    + LengthIssues(TimeChecks, |f.eventTime|) + (if TimeMatches(f.eventTime) then [] else [InvalidTimeMsg])
    + LengthIssues(VenueChecks, |f.venue|)
  }

  predicate EventFormAccepted(f: EventFormInput, parsedDate: Option<int>, todayStart: int) {
    EventFormIssues(f, parsedDate, todayStart) == []
  }

  /** A name is accepted with 3 to 200 characters. */
  lemma NameLengths(n: nat)
    ensures LengthIssues(NameChecks, n) == [] <==> 3 <= n <= 200
  {
    LengthWindow(NameChecks, n, 1, 2);
  }

  /** A description is accepted with 10 to 2000 characters. */
  lemma DescriptionLengths(n: nat)
    ensures LengthIssues(DescriptionChecks, n) == [] <==> 10 <= n <= 2000
  {
    LengthWindow(DescriptionChecks, n, 1, 2);
  }

  /** A venue is accepted with 3 to 200 characters. */
  lemma VenueLengths(n: nat)
    ensures LengthIssues(VenueChecks, n) == [] <==> 3 <= n <= 200
  {
    LengthWindow(VenueChecks, n, 1, 2);
  }

  /** The event form is accepted exactly when the name and venue have 3 to
      200 characters, the description 10 to 2000, the date is given and not
      before today, and the time is a clock time. */
  lemma EventFormSchema(f: EventFormInput, parsedDate: Option<int>, todayStart: int)
    ensures EventFormAccepted(f, parsedDate, todayStart) <==>
              && 3 <= |f.name| <= 200
              && 10 <= |f.description| <= 2000
              && |f.eventDate| >= 1 && NotInPast(parsedDate, todayStart)
              && HourMinute(f.eventTime)
              && 3 <= |f.venue| <= 200
  {
    NameLengths(|f.name|);
    DescriptionLengths(|f.description|);
    VenueLengths(|f.venue|);
    TimeMatchesClockTimes(f.eventTime);
    assert LengthIssues(DateChecks, |f.eventDate|) == [] <==> |f.eventDate| >= 1;
    assert LengthIssues(TimeChecks, |f.eventTime|) == [] <==> |f.eventTime| >= 1;
  }

  // ---------------------------------------------------------------------------
  // sectionFormSchema
  // ---------------------------------------------------------------------------

  const SectionNameChecks := [
    MinLength(1, "Section name is required"),
    MinLength(2, "Section name must be at least 2 characters"),
    MaxLength(100, "Section name must not exceed 100 characters")]

  const PriceChecks := [
    Positive("Price must be greater than 0"),
    AtMost(10000.0, "Price must not exceed $10,000")]

  const SeatChecks := [
    Whole("Total seats must be a whole number"),
    Positive("Total seats must be greater than 0"),
    AtMost(10000.0, "Total seats must not exceed 10,000")]

  datatype SectionFormInput = SectionFormInput(sectionName: string, price: real, totalSeats: real)

  function SectionIssues(s: SectionFormInput): seq<string> {
    LengthIssues(SectionNameChecks, |s.sectionName|)
    + NumberIssues(PriceChecks, s.price)
    + NumberIssues(SeatChecks, s.totalSeats)
  }

  predicate SectionAccepted(s: SectionFormInput) {
    SectionIssues(s) == []
  }

  /** A section name is accepted with 2 to 100 characters. */
  lemma SectionNameLengths(n: nat)
    ensures LengthIssues(SectionNameChecks, n) == [] <==> 2 <= n <= 100
  {
    LengthWindow(SectionNameChecks, n, 1, 2);
  }

  /** A section is accepted exactly when its name has 2 to 100 characters, its
      price is above 0 and at most 10000, and its seat count is a whole number
      from 1 to 10000. */
  lemma SectionSchema(s: SectionFormInput)
    ensures SectionAccepted(s) <==>
              && 2 <= |s.sectionName| <= 100
              && 0.0 < s.price <= 10000.0
              && s.totalSeats == s.totalSeats.Floor as real && 1 <= s.totalSeats.Floor <= 10000
  {
    SectionNameLengths(|s.sectionName|);
    assert NumberIssues(PriceChecks, s.price) == [] <==> 0.0 < s.price <= 10000.0 by {
      assert NumberPasses(PriceChecks[0], s.price) <==> 0.0 < s.price;
      assert NumberPasses(PriceChecks[1], s.price) <==> s.price <= 10000.0;
    }
    assert NumberIssues(SeatChecks, s.totalSeats) == [] <==>
             s.totalSeats == s.totalSeats.Floor as real && 0.0 < s.totalSeats <= 10000.0 by {
      assert NumberPasses(SeatChecks[0], s.totalSeats) <==> s.totalSeats == s.totalSeats.Floor as real;
      assert NumberPasses(SeatChecks[1], s.totalSeats) <==> 0.0 < s.totalSeats;
      assert NumberPasses(SeatChecks[2], s.totalSeats) <==> s.totalSeats <= 10000.0;
    }
    if s.totalSeats == s.totalSeats.Floor as real {
      WholeWithin(s.totalSeats);
    }
  }

  lemma WholeWithin(x: real)
    requires x == x.Floor as real
    ensures 0.0 < x <= 10000.0 <==> 1 <= x.Floor <= 10000
  {
  }

  // ---------------------------------------------------------------------------
  // eventWithSectionsSchema
  // ---------------------------------------------------------------------------

  const SectionCountChecks := [
    MinLength(1, "At least one seating section is required"),
    MaxLength(20, "Cannot exceed 20 seating sections")]

  datatype EventWithSectionsInput = EventWithSectionsInput(form: EventFormInput, sections: seq<SectionFormInput>)

  /** The issues of the sections, one after another. */
  function SectionListIssues(sections: seq<SectionFormInput>): (r: seq<string>)
    ensures r == [] <==> forall i :: 0 <= i < |sections| ==> SectionAccepted(sections[i])
  {
    if sections == [] then []
    else
      var rest := SectionListIssues(sections[1..]);
      assert forall i :: 1 <= i < |sections| ==> sections[i] == sections[1..][i - 1];
      SectionIssues(sections[0]) + rest
  }

  /** The issues `eventWithSectionsSchema` collects: the event's, then the
      array's length, then each section's. */
  function EventWithSectionsIssues(input: EventWithSectionsInput, parsedDate: Option<int>, todayStart: int): seq<string> {
    EventFormIssues(input.form, parsedDate, todayStart)
    + LengthIssues(SectionCountChecks, |input.sections|)
    + SectionListIssues(input.sections)
  }

  predicate EventWithSectionsAccepted(input: EventWithSectionsInput, parsedDate: Option<int>, todayStart: int) {
    EventWithSectionsIssues(input, parsedDate, todayStart) == []
  }

  /** One to twenty sections are accepted. */
  lemma SectionCount(n: nat)
    ensures LengthIssues(SectionCountChecks, n) == [] <==> 1 <= n <= 20
  {
    LengthWindow(SectionCountChecks, n, 0, 1);
  }

  /** An event with sections is accepted exactly when its event form is, it
      has 1 to 20 sections, and each section is accepted. */
  lemma EventWithSectionsSchema(input: EventWithSectionsInput, parsedDate: Option<int>, todayStart: int)
    ensures EventWithSectionsAccepted(input, parsedDate, todayStart) <==>
              && EventFormAccepted(input.form, parsedDate, todayStart)
              && 1 <= |input.sections| <= 20
              && forall i :: 0 <= i < |input.sections| ==> SectionAccepted(input.sections[i])
  {
    SectionCount(|input.sections|);
    var issues := EventWithSectionsIssues(input, parsedDate, todayStart);
    assert |issues| == |EventFormIssues(input.form, parsedDate, todayStart)|
                       + |LengthIssues(SectionCountChecks, |input.sections|)| + |SectionListIssues(input.sections)|;
  }

  /** A submission the schema accepts passes every check of `createEvent`
      when a user is signed in: the fields are present, there is a section,
      and no section is too large to label; so the event is created. */
  lemma AcceptedSubmissionCreates(
    events: map<Id, Event>, sections: map<Id, Section>, tickets: map<Id, Ticket>, nextId: Id,
    caller: Option<Id>, input: EventWithSectionsInput, parsedDate: Option<int>, todayStart: int,
    inputs: seq<SectionInput>, now: int)
    requires EventWithSectionsAccepted(input, parsedDate, todayStart)
    requires caller.Some?
    requires |inputs| == |input.sections|
    requires forall i :: 0 <= i < |inputs| ==> inputs[i].totalSeats as real == input.sections[i].totalSeats
    ensures var f := input.form;
            var form := EventForm(f.name, f.description, parsedDate, f.eventTime, f.venue);
            Create(events, sections, tickets, nextId, caller, form, Parsed(inputs), now).response.success
  {
    var f := input.form;
    var form := EventForm(f.name, f.description, parsedDate, f.eventTime, f.venue);
    EventWithSectionsSchema(input, parsedDate, todayStart);
    EventFormSchema(f, parsedDate, todayStart);
    assert FieldsPresent(form);
    forall input' | input' in inputs ensures input'.totalSeats <= MaxSeatsPerSection {
      var i :| 0 <= i < |inputs| && inputs[i] == input';
      SectionSchema(input.sections[i]);
    }
    CreateRefusals(events, sections, tickets, nextId, caller, form, Parsed(inputs), now);
  }
}
