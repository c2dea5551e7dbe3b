/**
 * The events API (api/events). The whole controller requires authentication:
 * a request that does not carry a valid bearer token is answered 401 before
 * any action runs, and nothing changes. `authenticated` says whether the token
 * was valid. An action that runs reads the caller's id from the token's
 * NameIdentifier claim ("" when there is none, see `GetCurrentUserId`) and only
 * ever shows or changes events that caller organises: someone else's event is
 * reported as not found, exactly like a missing one.
 */
module EventsController {
  import opened Models
  import opened Ordering
  import opened Store

  /** The caller's id: the value of the first NameIdentifier claim, or "" if there is none. */
  function GetCurrentUserId(claims: seq<Claim>): (r: string)
    ensures (forall i :: 0 <= i < |claims| ==> InboundType(claims[i].claimType) != NameIdentifier) ==> r == ""
    ensures forall i :: (0 <= i < |claims| && InboundType(claims[i].claimType) == NameIdentifier
      && (forall j :: 0 <= j < i ==> InboundType(claims[j].claimType) != NameIdentifier)) ==> r == claims[i].value
  {
    if claims == [] then ""
    else if InboundType(claims[0].claimType) == NameIdentifier then claims[0].value
    else GetCurrentUserId(claims[1..])
  }

  /** Whether `userId` is a registered user. */
  function UserExists(db: Database, userId: string): (r: bool)
    reads db
    requires db.Valid()
    ensures r <==> exists u :: u in db.users && db.users[u].id == userId
  {
    userId in db.users
  }

  /** The event with id `eventId` if `userId` organises it: the ownership-scoped lookup. */
  function GetUserEvent(db: Database, eventId: int, userId: string): (r: Option<Event>)
    reads db
    requires db.Valid()
    ensures r.Some? <==> exists k :: k in db.events && db.events[k].id == eventId && db.events[k].organizerId == userId
    ensures r.Some? ==> exists k :: k in db.events && db.events[k] == r.value
    ensures r.Some? ==> r.value.id == eventId && r.value.organizerId == userId
  {
    if eventId in db.events && db.events[eventId].organizerId == userId then
      Some(db.events[eventId])
    else
      assert forall k :: k in db.events ==> db.EventRow(k);
      None
  }

  /** The new event row a valid body describes, before the store gives it an id. */
  function NewEvent(dto: EventDto, organizerId: string, now: int): Event
    requires ValidEventDto(dto)
  {
    Event(0, dto.title.value, dto.description, dto.startDate, dto.endDate,
          dto.location.value, dto.budget, organizerId, now, now)
  }

  /** The event `e` with the six fields a body may change replaced, stamped at `now`. */
  function UpdatedEvent(e: Event, dto: EventDto, now: int): Event
    requires ValidEventDto(dto)
  {
    e.(title := dto.title.value, description := dto.description,
       startDate := dto.startDate, endDate := dto.endDate,
       location := dto.location.value, budget := dto.budget, updatedAt := now)
  }

  /**
   * GET api/events: the caller's events, each exactly once, latest start first.
   * The order of events that start together is not specified.
   */
  method GetUserEvents(db: Database, authenticated: bool, userId: string) returns (r: Outcome<seq<Event>>)
    requires db.Valid()
    ensures !authenticated ==> r == Unauthorized
    ensures authenticated ==> r.Ok?
    ensures r.Ok? ==> forall e :: e in r.value <==> (exists k :: k in db.events && db.events[k] == e) && e.organizerId == userId
    ensures r.Ok? ==> forall i, j :: 0 <= i < j < |r.value| ==> r.value[i].id != r.value[j].id
    ensures r.Ok? ==> forall i, j :: 0 <= i < j < |r.value| ==> r.value[i].startDate >= r.value[j].startDate
  {
    if !authenticated {
      return Unauthorized;
    }
    var rows := db.events;
    var owned := set k | k in rows && rows[k].organizerId == userId;
    var byStart := (e: Event) => e.startDate;
    var keys := KeysInOrder(rows, owned, byStart);
    var list := RowsAt(rows, keys);
    RowsInOrderAreSelected(rows, owned, byStart);
    forall i, j | 0 <= i < j < |list|
      ensures list[i].id != list[j].id
    {
      assert db.EventRow(keys[i]) && db.EventRow(keys[j]);
    }
    r := Ok(list);
  }

  /**
   * GET api/events/{id}: an anonymous caller is unauthorized; a non-positive
   * id is a bad request; otherwise the caller's event or not found.
   */
  method GetEvent(db: Database, id: int, authenticated: bool, userId: string) returns (r: Outcome<Event>)
    requires db.Valid()
    ensures !authenticated ==> r == Unauthorized
    ensures authenticated && id <= 0 ==> r == BadRequest
    ensures authenticated && id > 0 ==> (r.Ok? <==> exists k :: k in db.events && db.events[k].id == id && db.events[k].organizerId == userId)
    ensures authenticated && id > 0 && !r.Ok? ==> r == NotFound
    ensures r.Ok? ==> (exists k :: k in db.events && db.events[k] == r.value) && r.value.id == id && r.value.organizerId == userId
  {
    if !authenticated {
      return Unauthorized;
    }
    if id <= 0 {
      return BadRequest;
    }
    var found := GetUserEvent(db, id, userId);
    if found.None? {
      return NotFound;
    }
    r := Ok(found.value);
  }

  /**
   * POST api/events: an anonymous caller is unauthorized, an invalid body is a
   * bad request and a caller who is not a user is unauthorized. Otherwise the event is stored under a fresh id with
   * the caller as organizer, unless the store refuses a value too large for its
   * column.
   */
  method CreateEvent(db: Database, dto: EventDto, authenticated: bool, userId: string, now: int) returns (r: Outcome<Event>)
    requires db.Valid()
    modifies db
    ensures db.Valid()
    ensures db.users == old(db.users) && db.attendees == old(db.attendees)
    ensures !authenticated ==> r == Unauthorized && unchanged(db)
    ensures authenticated && !ValidEventDto(dto) ==> r == BadRequest
    ensures authenticated && ValidEventDto(dto) && userId !in old(db.users) ==> r == Unauthorized
    ensures authenticated && ValidEventDto(dto) && userId in old(db.users) ==>
      (r.Created? <==> EventFitsColumns(NewEvent(dto, userId, now)))
    ensures (&& authenticated && ValidEventDto(dto) && userId in old(db.users)
             && !EventFitsColumns(NewEvent(dto, userId, now))) ==> r == StorageFailure
    ensures !r.Created? ==> r in {Unauthorized, BadRequest, StorageFailure} && unchanged(db)
    ensures r.Created? ==>
      && r.value.id >= 1 && r.value.id !in old(db.events)
      && db.events == old(db.events)[r.value.id := r.value]
      && r.value.organizerId == userId
      && Some(r.value.title) == dto.title && r.value.description == dto.description
      && Some(r.value.location) == dto.location && r.value.budget == dto.budget
      && r.value.startDate == dto.startDate && r.value.endDate == dto.endDate
      && r.value.createdAt == now && r.value.updatedAt == now
    ensures r.Created? ==> GetUserEvent(db, r.value.id, userId) == Some(r.value)
  {
    if !authenticated {
      return Unauthorized;
    }
    if !ValidEventDto(dto) {
      return BadRequest;
    }
    if !UserExists(db, userId) {
      return Unauthorized;
    }
    var saved := db.AddEvent(NewEvent(dto, userId, now));
    if saved.None? {
      return StorageFailure;
    }
    r := Created(saved.value);
  }

  /**
   * PUT api/events/{id}: an anonymous caller is unauthorized; an invalid body
   * is a bad request; an event the caller
   * does not organise is not found. Otherwise the six fields of the body and
   * the update time are written, and id, organizer and creation time are kept.
   */
  method UpdateEvent(db: Database, id: int, dto: EventDto, authenticated: bool, userId: string, now: int) returns (r: Outcome<Event>)
    requires db.Valid()
    modifies db
    ensures db.Valid()
    ensures db.users == old(db.users) && db.attendees == old(db.attendees)
    ensures !authenticated ==> r == Unauthorized
    ensures authenticated && !ValidEventDto(dto) ==> r == BadRequest
    ensures authenticated && ValidEventDto(dto) && old(GetUserEvent(db, id, userId)).None? ==> r == NotFound
    ensures authenticated && ValidEventDto(dto) && old(GetUserEvent(db, id, userId)).Some? ==>
      (r.Ok? <==> EventFitsColumns(UpdatedEvent(old(db.events[id]), dto, now)))
    ensures (&& authenticated && ValidEventDto(dto) && old(GetUserEvent(db, id, userId)).Some?
             && !EventFitsColumns(UpdatedEvent(old(db.events[id]), dto, now))) ==> r == StorageFailure
    ensures !r.Ok? ==> r in {Unauthorized, BadRequest, NotFound, StorageFailure} && unchanged(db)
    ensures r.Ok? ==>
      && id in old(db.events) && old(db.events[id]).organizerId == userId
      && db.events == old(db.events)[id := r.value]
      && r.value.id == id && r.value.organizerId == userId
      && r.value.createdAt == old(db.events[id]).createdAt
      && Some(r.value.title) == dto.title && r.value.description == dto.description
      && Some(r.value.location) == dto.location && r.value.budget == dto.budget
      && r.value.startDate == dto.startDate && r.value.endDate == dto.endDate
      && r.value.updatedAt == now
  {
    if !authenticated {
      return Unauthorized;
    }
    if !ValidEventDto(dto) {
      return BadRequest;
    }
    var existing := GetUserEvent(db, id, userId);
    if existing.None? {
      return NotFound;
    }
    var changed := UpdatedEvent(existing.value, dto, now);
    var ok := db.ReplaceEvent(changed);
    if !ok {
      return StorageFailure;
    }
    r := Ok(changed);
  }

  /**
   * DELETE api/events/{id}: an anonymous caller is unauthorized; an event the
   * caller does not organise is not found; otherwise it is deleted together
   * with its attendees. After an authenticated call the caller no longer finds
   * it, so a second delete is not found.
   */
  method DeleteEvent(db: Database, id: int, authenticated: bool, userId: string) returns (r: Outcome<Event>)
    requires db.Valid()
    modifies db
    ensures db.Valid()
    ensures db.users == old(db.users)
    ensures !authenticated ==> r == Unauthorized && unchanged(db)
    ensures authenticated && old(GetUserEvent(db, id, userId)).None? ==> r == NotFound && unchanged(db)
    ensures authenticated && old(GetUserEvent(db, id, userId)).Some? ==>
      && r == NoContent
      && db.events == old(db.events) - {id}
      && db.attendees == WithoutEvent(old(db.attendees), id)
    ensures authenticated ==> GetUserEvent(db, id, userId).None?
  {
    if !authenticated {
      return Unauthorized;
    }
    var existing := GetUserEvent(db, id, userId);
    if existing.None? {
      return NotFound;
    }
    db.RemoveEvent(id);
    r := NoContent;
  }
}
