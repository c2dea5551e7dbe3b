/**
 * The records of the EventZen backend (Event, Attendee, User), the request
 * bodies the controllers accept, the validation attributes on both, and the
 * outcome of a controller action.
 *
 * Timestamps are integers (seconds on the server's UTC clock); a budget is an
 * integer number of hundredths, which is what a `decimal(10,2)` column holds.
 */
module Models {
  import opened Text

  datatype Option<+T> = None | Some(value: T)

  /** The responses the controllers produce, one constructor per status code. */
  datatype Outcome<+T> =
    | Ok(value: T)        // 200 with a body
    | Created(value: T)   // 201 with the created record
    | NoContent           // 204
    | BadRequest          // 400
    | Unauthorized        // 401
    | Forbidden           // 403
    | NotFound            // 404
    | StorageFailure      // 500: the store refused the write

  /** A stored event. `description` is nullable in the model class. */
  datatype Event = Event(
    id: int,
    title: string,
    description: Option<string>,
    startDate: int,
    endDate: int,
    location: string,
    budget: int,
    organizerId: string,
    createdAt: int,
    updatedAt: int)

  /** A stored attendee registration; `phone` is nullable. */
  datatype Attendee = Attendee(
    id: int,
    name: string,
    email: string,
    phone: Option<string>,
    eventId: int,
    createdAt: int,
    updatedAt: int)

  /** An identity-store user, reduced to what the controllers read and write. */
  datatype User = User(
    id: string,
    email: string,
    userName: string,
    firstName: string,
    lastName: string,
    passwordHash: string)

  /** The claim types a token carries. */
  datatype ClaimType = Sub | EmailClaim | Jti | NameIdentifier

  datatype Claim = Claim(claimType: ClaimType, value: string)

  /**
   * The bearer handler renames the registered "sub" claim to NameIdentifier
   * when it reads a token; the other types keep their meaning.
   */
  function InboundType(t: ClaimType): ClaimType
  {
    if t == Sub then NameIdentifier else t
  }

  /** Largest magnitude, in hundredths, of a `decimal(10,2)` value: 99999999.99. */
  const MaxBudgetHundredths: int := 9_999_999_999

  /** `[Required]` on a string: present and not white space only. */
  predicate Required(s: Option<string>)
  {
    s.Some? && !IsBlank(s.value)
  }

  /** `[StringLength(n)]`: an absent value passes, a present one has at most `n` characters. */
  predicate MaxLength(s: Option<string>, n: nat)
  {
    s.None? || |s.value| <= n
  }

  /**
   * `[EmailAddress]`: exactly one '@', and it is neither the first nor the last
   * character. An absent value passes (`[Required]` rejects it separately).
   */
  predicate ValidEmail(s: Option<string>)
  {
    s.None? ||
    exists k :: 0 <= k < |s.value| && AtSignAt(s.value, k) && 0 < k < |s.value| - 1
  }

  /** `s` has its one and only '@' at index `k`. */
  predicate AtSignAt(s: string, k: int)
    requires 0 <= k < |s|
  {
    s[k] == '@' && forall j :: 0 <= j < |s| && j != k ==> s[j] != '@'
  }

  predicate IsDigit(c: char)
  {
    '0' <= c <= '9'
  }

  /**
   * `[Phone]`: an absent value passes; a present one contains a digit and
   * otherwise only digits, white space and the characters `+-.()`.
   */
  predicate ValidPhone(s: Option<string>)
  {
    s.None? ||
    ((exists i :: 0 <= i < |s.value| && IsDigit(s.value[i])) &&
     forall i :: 0 <= i < |s.value| ==> PhoneChar(s.value[i]))
  }

  predicate PhoneChar(c: char)
  {
    IsDigit(c) || IsWhiteSpace(c) || c in "+-.()"
  }

  /** The value constraints declared on the Event model class. */
  predicate WellFormedEvent(e: Event)
  {
    && Required(Some(e.title)) && |e.title| <= 100
    && MaxLength(e.description, 500)
    && Required(Some(e.location)) && |e.location| <= 100
    && -MaxBudgetHundredths <= e.budget <= MaxBudgetHundredths
    && e.organizerId != ""
  }

  /**
   * What the MySQL columns themselves enforce for an event row: the declared
   * string lengths and the `decimal(10,2)` range (strict mode refuses the
   * insert otherwise).
   */
  predicate EventFitsColumns(e: Event)
  {
    && |e.title| <= 100
    && MaxLength(e.description, 500)
    && |e.location| <= 100
    && -MaxBudgetHundredths <= e.budget <= MaxBudgetHundredths
  }

  /** What the MySQL columns enforce for an attendee row: the name's length. */
  predicate AttendeeFitsColumns(a: Attendee)
  {
    |a.name| <= 100
  }

  /**
   * What the MySQL columns enforce for a user row: the `[StringLength(50)]`
   * names, and the 256 characters the identity schema gives the e-mail and the
   * user name (and their upper-cased copies, which have the same length).
   */
  predicate UserFitsColumns(u: User)
  {
    && |u.firstName| <= 50
    && |u.lastName| <= 50
    && |u.email| <= 256
    && |u.userName| <= 256
  }

  /**
   * The body of POST and PUT on events (`CreateEventDto` and `UpdateEventDto`
   * declare the same fields and rules). A string the client left out is `None`.
   */
  datatype EventDto = EventDto(
    title: Option<string>,
    description: Option<string>,
    startDate: int,
    endDate: int,
    location: Option<string>,
    budget: int)

  /** Model validation of an event body: three required strings and `[Range(0, ...)]` on the budget. */
  predicate ValidEventDto(d: EventDto)
  {
    Required(d.title) && Required(d.description) && Required(d.location) && d.budget >= 0
  }

  /** The body of POST api/attendees/register. */
  datatype CreateAttendeeDto = CreateAttendeeDto(
    name: Option<string>,
    email: Option<string>,
    phone: Option<string>,
    eventId: int)

  /** The body of PUT api/attendees/{id}. */
  datatype UpdateAttendeeDto = UpdateAttendeeDto(
    name: Option<string>,
    email: Option<string>,
    phone: Option<string>)

  const IntMaxValue: int := 0x7FFF_FFFF

  /** Model validation of a registration: name, e-mail, phone and `[Range(1, int.MaxValue)]` on the event id. */
  predicate ValidCreateAttendeeDto(d: CreateAttendeeDto)
  {
    && Required(d.name) && MaxLength(d.name, 100)
    && Required(d.email) && ValidEmail(d.email)
    && ValidPhone(d.phone)
    && 1 <= d.eventId <= IntMaxValue
  }

  predicate ValidUpdateAttendeeDto(d: UpdateAttendeeDto)
  {
    && Required(d.name) && MaxLength(d.name, 100)
    && Required(d.email) && ValidEmail(d.email)
    && ValidPhone(d.phone)
  }

  /** The e-mail normalisation applied before storing an attendee: lower-case, then trim. */
  function NormalizeEmail(s: string): (r: string)
    ensures |r| <= |s|
    ensures r == [] || (!IsWhiteSpace(r[0]) && !IsWhiteSpace(r[|r| - 1]))
    ensures forall i :: 0 <= i < |r| ==> !('A' <= r[i] <= 'Z')
  {
    LowerTrim(s);
    LowerIdempotent(Trim(s));
    Trim(Lower(s))
  }

  /** `phone?.Trim()`: an absent phone stays absent. */
  function TrimPhone(p: Option<string>): (r: Option<string>)
    ensures r.None? <==> p.None?
    ensures r.Some? ==> |r.value| <= |p.value|
  {
    if p.Some? then Some(Trim(p.value)) else None
  }

  /** Normalising an already normalised e-mail changes nothing. */
  lemma {:induction false} NormalizeEmailIdempotent(s: string)
    ensures NormalizeEmail(NormalizeEmail(s)) == NormalizeEmail(s)
  {
    var l := Lower(s);
    LowerIdempotent(s);
    LowerTrim(l);
    TrimIdempotent(l);
  }

  /** A name that passes `[Required]` and `[StringLength(100)]` still does once trimmed. */
  lemma {:induction false} TrimmedNameStaysValid(name: Option<string>)
    requires Required(name) && MaxLength(name, 100)
    ensures Required(Some(Trim(name.value))) && |Trim(name.value)| <= 100
  {
    var t := Trim(name.value);
    assert t != [] && !IsWhiteSpace(t[0]);
  }

  /**
   * A phone that passes `[Phone]` still does once trimmed: every character
   * trimming keeps was a phone character, and a digit is not white space, so
   * the digit that made the phone valid is kept.
   */
  lemma {:induction false} TrimPhoneKeepsValid(p: Option<string>)
    requires ValidPhone(p)
    ensures ValidPhone(TrimPhone(p))
  {
    if p.Some? {
      var s := p.value;
      var d :| 0 <= d < |s| && IsDigit(s[d]);
      TrimKeepsNonWhiteSpace(s, d);
      TrimKeepsProperty(s, PhoneChar);
    }
  }

  /**
   * The e-mail is validated before it is normalised, so a valid one can be
   * stored invalid: " @x" has its only '@' at index 1, but "@x" starts with it.
   */
  lemma NormalizedEmailCanBeInvalid()
    ensures ValidEmail(Some(" @x")) && NormalizeEmail(" @x") == "@x" && !ValidEmail(Some("@x"))
  {
    var s := " @x";
    assert AtSignAt(s, 1);
    assert Lower(s) == s by {
      assert forall i :: 0 <= i < |s| ==> LowerChar(s[i]) == s[i];
    }
    assert SkipLeading(s, 0) == 1 by {
      assert IsWhiteSpace(s[0]) && !IsWhiteSpace(s[1]);
    }
    assert SkipTrailing(s, 3, 1) == 3 by {
      assert !IsWhiteSpace(s[2]);
    }
    assert s[1..3] == "@x";
  }
}
