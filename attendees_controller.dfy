/**
 * The attendees API (api/attendees). Reading, changing and deleting
 * registrations is for the organizer of their event; anyone else is refused
 * with Forbidden, which, unlike the events API, does not hide whether the
 * record exists. Registering is open to every caller, signed in or not.
 */
module AttendeesController {
  import opened Text
  import opened Models
  import opened Ordering
  import opened Store

  /** Whether the caller organises the event `eventId`; an anonymous caller organises nothing. */
  function IsUserEventOrganizer(db: Database, eventId: int, userId: string): (r: bool)
    reads db
    requires db.Valid()
    ensures r <==> (userId != "" &&
      exists k :: k in db.events && db.events[k].id == eventId && db.events[k].organizerId == userId)
  {
    if userId != "" && eventId in db.events && db.events[eventId].organizerId == userId then
      true
    else
      assert forall k :: k in db.events ==> db.EventRow(k);
      false
  }

  /** The attendee row a valid registration describes, before the store gives it an id. */
  function NewAttendee(dto: CreateAttendeeDto, now: int): Attendee
    requires ValidCreateAttendeeDto(dto)
  {
    Attendee(0, Trim(dto.name.value), NormalizeEmail(dto.email.value), TrimPhone(dto.phone),
             dto.eventId, now, now)
  }

  /** The attendee `a` with name, e-mail and phone taken from the body, stamped at `now`. */
  function UpdatedAttendee(a: Attendee, dto: UpdateAttendeeDto, now: int): Attendee
    requires ValidUpdateAttendeeDto(dto)
  {
    a.(name := Trim(dto.name.value), email := NormalizeEmail(dto.email.value),
       phone := TrimPhone(dto.phone), updatedAt := now)
  }

  /**
   * GET api/attendees/event/{eventId}: a non-positive id is a bad request; a
   * caller who does not organise the event is forbidden, also when the event
   * does not exist; the organizer gets every attendee of the event, once each.
   */
  method GetEventAttendees(db: Database, eventId: int, userId: string) returns (r: Outcome<seq<Attendee>>)
    requires db.Valid()
    ensures eventId <= 0 ==> r == BadRequest
    ensures eventId > 0 && !IsUserEventOrganizer(db, eventId, userId) ==> r == Forbidden
    ensures eventId > 0 && IsUserEventOrganizer(db, eventId, userId) ==> r.Ok?
    ensures r.Ok? ==> forall a :: a in r.value <==>
      (exists k :: k in db.attendees && db.attendees[k] == a) && a.eventId == eventId
    ensures r.Ok? ==> forall i, j :: 0 <= i < j < |r.value| ==> r.value[i].id != r.value[j].id
  {
    if eventId <= 0 {
      return BadRequest;
    }
    if !IsUserEventOrganizer(db, eventId, userId) {
      return Forbidden;
    }
    var rows := db.attendees;
    var ofEvent := set k | k in rows && rows[k].eventId == eventId;
    var unranked := (a: Attendee) => 0;
    var keys := KeysInOrder(rows, ofEvent, unranked);
    var list := RowsAt(rows, keys);
    RowsInOrderAreSelected(rows, ofEvent, unranked);
    forall i, j | 0 <= i < j < |list|
      ensures list[i].id != list[j].id
    {
      assert db.AttendeeRow(keys[i]) && db.AttendeeRow(keys[j]);
    }
    r := Ok(list);
  }

  /**
   * GET api/attendees/{id}: a missing attendee is not found before anything
   * else; then a caller who does not organise its event is forbidden.
   */
  method GetAttendee(db: Database, id: int, userId: string) returns (r: Outcome<Attendee>)
    requires db.Valid()
    ensures id !in db.attendees ==> r == NotFound
    ensures id in db.attendees && !IsUserEventOrganizer(db, db.attendees[id].eventId, userId) ==> r == Forbidden
    ensures id in db.attendees && IsUserEventOrganizer(db, db.attendees[id].eventId, userId) ==> r.Ok?
    ensures r.Ok? ==> id in db.attendees && r.value == db.attendees[id] && r.value.id == id
  {
    if id !in db.attendees {
      return NotFound;
    }
    var attendee := db.attendees[id];
    if !IsUserEventOrganizer(db, attendee.eventId, userId) {
      return Forbidden;
    }
    assert db.AttendeeRow(id);
    r := Ok(attendee);
  }

  /**
   * POST api/attendees/register: an invalid body is a bad request. Whoever the
   * caller is, the registration is then stored with its name trimmed, its
   * e-mail lower-cased and trimmed and its phone trimmed; the store refuses it
   * when the event does not exist. No clause mentions the caller: every
   * caller, anonymous or not, organizer or not, gets the same outcome.
   */
  method CreateAttendee(db: Database, dto: CreateAttendeeDto, userId: string, now: int) returns (r: Outcome<Attendee>)
    requires db.Valid()
    modifies db
    ensures db.Valid()
    ensures db.users == old(db.users) && db.events == old(db.events)
    ensures !ValidCreateAttendeeDto(dto) ==> r == BadRequest
    ensures ValidCreateAttendeeDto(dto) ==> (r.Created? <==> dto.eventId in old(db.events))
    ensures ValidCreateAttendeeDto(dto) && dto.eventId !in old(db.events) ==> r == StorageFailure
    ensures !r.Created? ==> r in {BadRequest, StorageFailure} && unchanged(db)
    ensures r.Created? ==>
      && r.value.id >= 1 && r.value.id !in old(db.attendees)
      && db.attendees == old(db.attendees)[r.value.id := r.value]
      && r.value.name == Trim(dto.name.value)
      && r.value.email == NormalizeEmail(dto.email.value)
      && r.value.phone == TrimPhone(dto.phone)
      && r.value.eventId == dto.eventId
      && r.value.createdAt == now && r.value.updatedAt == now
    ensures r.Created? ==> Required(Some(r.value.name)) && |r.value.name| <= 100 && ValidPhone(r.value.phone)
  {
    if !ValidCreateAttendeeDto(dto) {
      return BadRequest;
    }
    TrimmedNameStaysValid(dto.name);
    TrimPhoneKeepsValid(dto.phone);
    var saved := db.AddAttendee(NewAttendee(dto, now));
    if saved.None? {
      return StorageFailure;
    }
    r := Created(saved.value);
  }

  /**
   * PUT api/attendees/{id}: an invalid body is a bad request; a missing
   * attendee is not found; a caller who does not organise its event is
   * forbidden. Otherwise only name, e-mail, phone and the update time change.
   */
  method UpdateAttendee(db: Database, id: int, dto: UpdateAttendeeDto, userId: string, now: int) returns (r: Outcome<Attendee>)
    requires db.Valid()
    modifies db
    ensures db.Valid()
    ensures db.users == old(db.users) && db.events == old(db.events)
    ensures !ValidUpdateAttendeeDto(dto) ==> r == BadRequest
    ensures ValidUpdateAttendeeDto(dto) && id !in old(db.attendees) ==> r == NotFound
    ensures ValidUpdateAttendeeDto(dto) && id in old(db.attendees) ==>
      (r == NoContent <==> old(IsUserEventOrganizer(db, db.attendees[id].eventId, userId)))
    ensures (&& ValidUpdateAttendeeDto(dto) && id in old(db.attendees)
             && !old(IsUserEventOrganizer(db, db.attendees[id].eventId, userId))) ==> r == Forbidden
    ensures r != NoContent ==> r in {BadRequest, NotFound, Forbidden} && unchanged(db)
    ensures r == NoContent ==>
      && id in old(db.attendees) && id in db.attendees
      && db.attendees == old(db.attendees)[id := db.attendees[id]]
      && db.attendees[id].name == Trim(dto.name.value)
      && db.attendees[id].email == NormalizeEmail(dto.email.value)
      && db.attendees[id].phone == TrimPhone(dto.phone)
      && db.attendees[id].updatedAt == now
      && db.attendees[id].id == id
      && db.attendees[id].eventId == old(db.attendees[id]).eventId
      && db.attendees[id].createdAt == old(db.attendees[id]).createdAt
    ensures r == NoContent ==> Required(Some(db.attendees[id].name)) && ValidPhone(db.attendees[id].phone)
  {
    if !ValidUpdateAttendeeDto(dto) {
      return BadRequest;
    }
    if id !in db.attendees {
      return NotFound;
    }
    var attendee := db.attendees[id];
    if !IsUserEventOrganizer(db, attendee.eventId, userId) {
      return Forbidden;
    }
    assert db.AttendeeRow(id);
    TrimmedNameStaysValid(dto.name);
    TrimPhoneKeepsValid(dto.phone);
    db.ReplaceAttendee(UpdatedAttendee(attendee, dto, now));
    r := NoContent;
  }

  /**
   * DELETE api/attendees/{id}: a missing attendee is not found; a caller who
   * does not organise its event is forbidden; otherwise the row is deleted.
   */
  method DeleteAttendee(db: Database, id: int, userId: string) returns (r: Outcome<Attendee>)
    requires db.Valid()
    modifies db
    ensures db.Valid()
    ensures db.users == old(db.users) && db.events == old(db.events)
    ensures id !in old(db.attendees) ==> r == NotFound
    ensures id in old(db.attendees) ==>
      (r == NoContent <==> old(IsUserEventOrganizer(db, db.attendees[id].eventId, userId)))
    ensures id in old(db.attendees) && !old(IsUserEventOrganizer(db, db.attendees[id].eventId, userId)) ==> r == Forbidden
    ensures r != NoContent ==> r in {NotFound, Forbidden} && unchanged(db)
    ensures r == NoContent ==> db.attendees == old(db.attendees) - {id}
  {
    if id !in db.attendees {
      return NotFound;
    }
    if !IsUserEventOrganizer(db, db.attendees[id].eventId, userId) {
      return Forbidden;
    }
    db.RemoveAttendee(id);
    r := NoContent;
  }
}
