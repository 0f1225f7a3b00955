/** The client-side checks of ticketing-system/lib/validations.ts: the e-mail
    pattern, the password rules with their first-failure message, and the
    event and checkout forms, which collect one message per faulty field.

    Strings are sequences of characters. Today's date, the clock's year and
    month, and the result of parsing the event date (`new Date(text)`, in
    milliseconds, `None` for an invalid date) are parameters. */
module Validations {
  import opened Common
  import opened Text
  import opened Utils

  // ---------------------------------------------------------------------------
  // validateEmail
  // ---------------------------------------------------------------------------

  /** A character of the class `[^\s@]`. */
  predicate EmailChar(c: char) { !IsWhitespace(c) && c != '@' }

  predicate AllEmailChars(s: string) { forall i :: 0 <= i < |s| ==> EmailChar(s[i]) }

  /** The language of `/^[^\s@]+@[^\s@]+\.[^\s@]+$/`: a non-empty local part,
      '@', a non-empty part, '.', a non-empty part, none of the three parts
      holding whitespace or '@'. */
  ghost predicate EmailPattern(s: string) {
    exists at, dot :: 0 < at && at + 1 < dot && dot + 1 < |s| && s[at] == '@' && s[dot] == '.'
                      && AllEmailChars(s[..at]) && AllEmailChars(s[at + 1..dot]) && AllEmailChars(s[dot + 1..])
  }

  /** `validateEmail(email)`: split at the first '@'; the domain must hold a
      '.' with a character on each side. */
  function ValidateEmail(email: string): bool {
    match IndexOf(email, '@')
    case None => false
    case Some(at) =>
      var domain := email[at + 1..];
      && at > 0 && AllEmailChars(email[..at]) && AllEmailChars(domain)
      && exists k :: 1 <= k < |domain| - 1 && domain[k] == '.'
  }

  /** The check accepts exactly the strings the regular expression matches. */
  lemma ValidateEmailMatchesPattern(email: string)
    ensures ValidateEmail(email) <==> EmailPattern(email)
  {
    if ValidateEmail(email) {
      AcceptedEmailMatches(email);
    }
    if EmailPattern(email) {
      MatchingEmailAccepted(email);
    }
  }

  lemma AcceptedEmailMatches(email: string)
    requires ValidateEmail(email)
    ensures EmailPattern(email)
  {
    var at := IndexOf(email, '@').value;
    var domain := email[at + 1..];
    var k :| 1 <= k < |domain| - 1 && domain[k] == '.';
    var dot := at + 1 + k;
    assert email[at + 1..dot] == domain[..k];
    assert email[dot + 1..] == domain[k + 1..];
    assert email[at] == '@' && email[dot] == '.';
  }

  lemma MatchingEmailAccepted(email: string)
    requires EmailPattern(email)
    ensures ValidateEmail(email)
  {
    var at, dot :| 0 < at && at + 1 < dot && dot + 1 < |email| && email[at] == '@' && email[dot] == '.'
                   && AllEmailChars(email[..at]) && AllEmailChars(email[at + 1..dot])
                   && AllEmailChars(email[dot + 1..]);
    FirstAt(email, at);
    DomainChars(email, at, dot);
    assert email[at + 1..][dot - at - 1] == '.';
  }

  lemma FirstAt(email: string, at: nat)
    requires at < |email| && email[at] == '@' && AllEmailChars(email[..at])
    ensures IndexOf(email, '@') == Some(at)
  {
  }

  lemma DomainChars(email: string, at: nat, dot: nat)
    requires at < dot < |email| && email[dot] == '.'
    requires AllEmailChars(email[at + 1..dot]) && AllEmailChars(email[dot + 1..])
    ensures AllEmailChars(email[at + 1..])
  {
    var domain := email[at + 1..];
    forall i | 0 <= i < |domain| ensures EmailChar(domain[i]) {
      if i < dot - at - 1 {
        assert domain[i] == email[at + 1..dot][i];
      } else if i > dot - at - 1 {
        assert domain[i] == email[dot + 1..][i - (dot - at)];
      }
    }
  }

  /** An accepted address holds exactly one '@' and no whitespace. */
  lemma ValidEmailShape(email: string)
    requires ValidateEmail(email)
    ensures exists at :: 0 < at < |email| - 1 && email[at] == '@'
                         && forall i :: 0 <= i < |email| && email[i] == '@' ==> i == at
    ensures forall i :: 0 <= i < |email| ==> !IsWhitespace(email[i])
  {
    var at := IndexOf(email, '@').value;
    var domain := email[at + 1..];
    forall i | 0 <= i < |email| ensures !IsWhitespace(email[i]) && (email[i] == '@' ==> i == at) {
      if i < at {
        assert email[i] == email[..at][i];
      } else if i > at {
        assert email[i] == domain[i - at - 1];
      }
    }
  }

  // ---------------------------------------------------------------------------
  // validatePassword
  // ---------------------------------------------------------------------------

  const PasswordLengthMsg := "Password must be at least 8 characters long"
  const PasswordUppercaseMsg := "Password must contain at least one uppercase letter"
  const PasswordLowercaseMsg := "Password must contain at least one lowercase letter"
  const PasswordDigitMsg := "Password must contain at least one number"

  /** `{ valid, message? }` */
  datatype PasswordCheck = PasswordCheck(valid: bool, message: Option<string>)

  /** `/[A-Z]/.test(s)`, `/[a-z]/.test(s)`, `/[0-9]/.test(s)` for the class `p`:
      some character of `s` is in it. */
  function ContainsWhere(s: string, p: char -> bool): (r: bool)
    ensures r <==> exists i :: 0 <= i < |s| && p(s[i])
  {
    if s == [] then false
    else if p(s[0]) then true
    else
      var r := ContainsWhere(s[1..], p);
      assert forall i :: 1 <= i < |s| ==> s[i] == s[1..][i - 1];
      r
  }

  /** A strong password: eight characters at least, with an upper-case
      letter, a lower-case letter and a digit. */
  predicate StrongPassword(password: string) {
    && |password| >= 8
    && (exists i :: 0 <= i < |password| && IsUpper(password[i]))
    && (exists i :: 0 <= i < |password| && IsLower(password[i]))
    && (exists i :: 0 <= i < |password| && IsDigit(password[i]))
  }

  /** `validatePassword(password)`: the checks in order length, upper case,
      lower case, digit; the first that fails gives the message. */
  function ValidatePassword(password: string): (r: PasswordCheck)
    ensures r.valid <==> StrongPassword(password)
    ensures r.message.None? <==> r.valid
    ensures r.message == Some(PasswordLengthMsg) <==> |password| < 8
    ensures r.message == Some(PasswordUppercaseMsg) <==>
              |password| >= 8 && !ContainsWhere(password, IsUpper)
    ensures r.message == Some(PasswordLowercaseMsg) <==>
              |password| >= 8 && ContainsWhere(password, IsUpper) && !ContainsWhere(password, IsLower)
    ensures r.message == Some(PasswordDigitMsg) <==>
              |password| >= 8 && ContainsWhere(password, IsUpper) && ContainsWhere(password, IsLower)
              && !ContainsWhere(password, IsDigit)
  {
    assert PasswordLengthMsg[14] != PasswordUppercaseMsg[14];
    assert PasswordLengthMsg[14] != PasswordLowercaseMsg[14];
    assert PasswordLengthMsg[14] != PasswordDigitMsg[14];
    assert PasswordUppercaseMsg[35] != PasswordLowercaseMsg[35];
    assert PasswordUppercaseMsg[35] != PasswordDigitMsg[35];
    assert PasswordLowercaseMsg[35] != PasswordDigitMsg[35];
    if |password| < 8 then PasswordCheck(false, Some(PasswordLengthMsg))
    else if !ContainsWhere(password, IsUpper) then PasswordCheck(false, Some(PasswordUppercaseMsg))
    else if !ContainsWhere(password, IsLower) then PasswordCheck(false, Some(PasswordLowercaseMsg))
    else if !ContainsWhere(password, IsDigit) then PasswordCheck(false, Some(PasswordDigitMsg))
    else PasswordCheck(true, None)
  }

  // ---------------------------------------------------------------------------
  // validateEventForm
  // ---------------------------------------------------------------------------

  const NameRequiredMsg := "Event name is required"
  const DescriptionRequiredMsg := "Description is required"
  const DateRequiredMsg := "Event date is required"
  const DateInPastMsg := "Event date cannot be in the past"
  const TimeRequiredMsg := "Event time is required"
  const VenueRequiredMsg := "Venue is required"

  /** `!s || s.trim().length === 0`: the text is missing or blank. */
  predicate Blank(s: string) {
    s == [] || |Trim(s)| == 0
  }

  /** Blank text is text made of whitespace only. */
  lemma BlankIsWhitespaceOnly(s: string)
    ensures Blank(s) <==> AllWhitespace(s)
  {
    TrimEmptyIffBlank(s);
  }

  /** The text fields of the event form. */
  datatype EventFormData = EventFormData(
    name: string, description: string, eventDate: string, eventTime: string, venue: string)

  /** The `errors` record of the event form: the message set for each field,
      if any. */
  datatype EventFormErrors = EventFormErrors(
    name: Option<string>, description: Option<string>, eventDate: Option<string>,
    eventTime: Option<string>, venue: Option<string>)
  {
    /** `Object.keys(errors).length === 0` */
    predicate Empty() {
      name.None? && description.None? && eventDate.None? && eventTime.None? && venue.None?
    }
  }

  /** `validateEventForm(data)`: the name, description and venue must not be
      blank, the date must be given and, when it parses, not before the start
      of today, and the time must be given. `parsedDate` is `new
      Date(data.eventDate)` and `todayStart` today's local midnight. */
  method ValidateEventForm(data: EventFormData, parsedDate: Option<int>, todayStart: int)
    returns (valid: bool, errors: EventFormErrors)
    ensures errors.name == if AllWhitespace(data.name) then Some(NameRequiredMsg) else None
    ensures errors.description == if AllWhitespace(data.description) then Some(DescriptionRequiredMsg) else None
    ensures errors.eventDate == Some(DateRequiredMsg) <==> data.eventDate == []
    ensures errors.eventDate == Some(DateInPastMsg) <==>
              data.eventDate != [] && parsedDate.Some? && parsedDate.value < todayStart
    ensures errors.eventDate.None? <==> data.eventDate != [] && (parsedDate.None? || parsedDate.value >= todayStart)
    ensures errors.eventTime == if data.eventTime == [] then Some(TimeRequiredMsg) else None
    ensures errors.venue == if AllWhitespace(data.venue) then Some(VenueRequiredMsg) else None
    ensures valid <==> errors.Empty()
    ensures valid <==>
              && !AllWhitespace(data.name) && !AllWhitespace(data.description) && !AllWhitespace(data.venue)
              && data.eventDate != [] && (parsedDate.None? || parsedDate.value >= todayStart)
              && data.eventTime != []
  {
    assert DateRequiredMsg[11] != DateInPastMsg[11];
    BlankIsWhitespaceOnly(data.name);
    BlankIsWhitespaceOnly(data.description);
    BlankIsWhitespaceOnly(data.venue);
    errors := EventFormErrors(None, None, None, None, None);
    if Blank(data.name) {
      errors := errors.(name := Some(NameRequiredMsg));
    }
    if Blank(data.description) {
      errors := errors.(description := Some(DescriptionRequiredMsg));
    }
    if data.eventDate == [] {
      errors := errors.(eventDate := Some(DateRequiredMsg));
    } else if parsedDate.Some? && parsedDate.value < todayStart {
      errors := errors.(eventDate := Some(DateInPastMsg));
    }
    if data.eventTime == [] {
      errors := errors.(eventTime := Some(TimeRequiredMsg));
    }
    if Blank(data.venue) {
      errors := errors.(venue := Some(VenueRequiredMsg));
    }
    valid := errors.Empty();
  }

  // ---------------------------------------------------------------------------
  // validateCheckoutForm
  // ---------------------------------------------------------------------------

  const CardNumberMsg := "Invalid card number"
  const CardHolderMsg := "Card holder name is required"
  const ExpiryFormatMsg := "Invalid expiry date (MM/YY)"
  const ExpiryMonthMsg := "Invalid month"
  const CardExpiredMsg := "Card has expired"
  const CvvMsg := "Invalid CVV"

  datatype CheckoutData = CheckoutData(cardNumber: string, cardHolder: string, expiryDate: string, cvv: string)

  /** `s.replace(/\s/g, '')`: every whitespace character deleted, the others
      kept in order. */
  function RemoveWhitespace(s: string): (r: string)
    ensures forall i :: 0 <= i < |r| ==> !IsWhitespace(r[i])
    ensures forall c :: !IsWhitespace(c) ==> multiset(r)[c] == multiset(s)[c]
    ensures IsSubsequence(r, s)
  {
    if s == [] then []
    else
      var init := s[..|s| - 1];
      var last := s[|s| - 1];
      assert s == init + [last];
      var r := RemoveWhitespace(init);
      if IsWhitespace(last) then
        SubsequenceExtend(r, init, last);
        r
      else
        SubsequenceAppend(r, init, last);
        r + [last]
  }

  lemma SubsequenceAppend<T>(a: seq<T>, b: seq<T>, x: T)
    requires IsSubsequence(a, b)
    ensures IsSubsequence(a + [x], b + [x])
  {
    var a', b' := a + [x], b + [x];
    assert a'[..|a'| - 1] == a && b'[..|b'| - 1] == b;
  }

  /** A card number is sixteen digits once its whitespace is deleted. */
  predicate CardNumberOk(cardNumber: string) {
    var digits := RemoveWhitespace(cardNumber);
    |digits| == 16 && AllDigits(digits)
  }

  /** `/^\d{2}\/\d{2}$/` */
  predicate ExpiryShape(s: string) {
    |s| == 5 && IsDigit(s[0]) && IsDigit(s[1]) && s[2] == '/' && IsDigit(s[3]) && IsDigit(s[4])
  }

  /** The message for the expiry field, if any: the format, then the month,
      then whether the card's month has passed. `currentYear` is the year
      modulo 100 and `currentMonth` runs from 1 to 12. */
  function ExpiryError(expiryDate: string, currentYear: int, currentMonth: int): Option<string> {
    if !ExpiryShape(expiryDate) then Some(ExpiryFormatMsg)
    else
      var month := TwoDigitValue(expiryDate[0], expiryDate[1]);
      var year := TwoDigitValue(expiryDate[3], expiryDate[4]);
      if month < 1 || month > 12 then Some(ExpiryMonthMsg)
      else if year < currentYear || (year == currentYear && month < currentMonth) then Some(CardExpiredMsg)
      else None
  }

  /** An expiry date in the right shape with a real month passes exactly when
      its month, counted from year 0 of the century, is not before the
      current one: a card is good through its expiry month. */
  lemma ExpiryAcceptedThroughItsMonth(expiryDate: string, currentYear: int, currentMonth: int)
    requires ExpiryShape(expiryDate) && 1 <= currentMonth <= 12
    ensures var month := TwoDigitValue(expiryDate[0], expiryDate[1]);
            var year := TwoDigitValue(expiryDate[3], expiryDate[4]);
            && (ExpiryError(expiryDate, currentYear, currentMonth) == Some(ExpiryMonthMsg) <==> !(1 <= month <= 12))
            && (1 <= month <= 12 ==>
                  (ExpiryError(expiryDate, currentYear, currentMonth).None? <==>
                   year * 12 + month >= currentYear * 12 + currentMonth))
  {
    var month := TwoDigitValue(expiryDate[0], expiryDate[1]);
    var year := TwoDigitValue(expiryDate[3], expiryDate[4]);
    assert ExpiryMonthMsg[0] != CardExpiredMsg[0];
    if 1 <= month <= 12 && year < currentYear {
      assert year * 12 + month <= (currentYear - 1) * 12 + 12;
    }
    if 1 <= month <= 12 && year > currentYear {
      assert year * 12 + month >= (currentYear + 1) * 12 + 1;
    }
  }

  /** `/^\d{3,4}$/` */
  predicate CvvOk(cvv: string) {
    3 <= |cvv| <= 4 && AllDigits(cvv)
  }

  /** The `errors` record of the checkout form. */
  datatype CheckoutErrors = CheckoutErrors(
    cardNumber: Option<string>, cardHolder: Option<string>, expiryDate: Option<string>, cvv: Option<string>)
  {
    /** `Object.keys(errors).length === 0` */
    predicate Empty() {
      cardNumber.None? && cardHolder.None? && expiryDate.None? && cvv.None?
    }
  }

  /** `validateCheckoutForm(data)`: one message per faulty field. The clock
      gives the current year (in full) and month (1 to 12). */
  method ValidateCheckoutForm(data: CheckoutData, currentYear: nat, currentMonth: int)
    returns (valid: bool, errors: CheckoutErrors)
    ensures errors.cardNumber == if CardNumberOk(data.cardNumber) then None else Some(CardNumberMsg)
    ensures errors.cardHolder == if AllWhitespace(data.cardHolder) then Some(CardHolderMsg) else None
    ensures errors.expiryDate == ExpiryError(data.expiryDate, currentYear % 100, currentMonth)
    ensures errors.cvv == if CvvOk(data.cvv) then None else Some(CvvMsg)
    ensures valid <==> errors.Empty()
    ensures valid <==>
              && CardNumberOk(data.cardNumber) && !AllWhitespace(data.cardHolder)
              && ExpiryError(data.expiryDate, currentYear % 100, currentMonth).None? && CvvOk(data.cvv)
  {
    BlankIsWhitespaceOnly(data.cardHolder);
    errors := CheckoutErrors(None, None, None, None);
    if data.cardNumber == [] || !CardNumberOk(data.cardNumber) {
      errors := errors.(cardNumber := Some(CardNumberMsg));
    }
    if Blank(data.cardHolder) {
      errors := errors.(cardHolder := Some(CardHolderMsg));
    }
    var expiry := data.expiryDate;
    if expiry == [] || !ExpiryShape(expiry) {
      errors := errors.(expiryDate := Some(ExpiryFormatMsg));
    } else {
      var month := TwoDigitValue(expiry[0], expiry[1]);
      var year := TwoDigitValue(expiry[3], expiry[4]);
      var yy := currentYear % 100;
      if month < 1 || month > 12 {
        errors := errors.(expiryDate := Some(ExpiryMonthMsg));
      } else if year < yy || (year == yy && month < currentMonth) {
        errors := errors.(expiryDate := Some(CardExpiredMsg));
      }
    }
    if data.cvv == [] || !CvvOk(data.cvv) {
      errors := errors.(cvv := Some(CvvMsg));
    }
    valid := errors.Empty();
  }
}
