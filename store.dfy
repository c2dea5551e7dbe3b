/**
 * The application's database context: users, events and attendees, with the
 * relationships the context configures (an event's organizer is a user; an
 * attendee's event is an event, and deleting an event deletes its attendees)
 * and the limits the MySQL columns impose. Row ids are identity columns: each
 * insert takes the next unused number, starting from 1.
 */
module Store {
  import opened Text
  import opened Models

  /** Every attendee row points at an event row. */
  ghost predicate AttendeeKeysHold(events: map<int, Event>, attendees: map<int, Attendee>)
  {
    forall k :: k in attendees ==> attendees[k].eventId in events
  }

  /** The attendee rows left once the event `eventId` is deleted with a cascade. */
  function WithoutEvent(attendees: map<int, Attendee>, eventId: int): (r: map<int, Attendee>)
    ensures r.Keys <= attendees.Keys
    ensures forall k :: k in r ==> r[k] == attendees[k]
  {
    map k | k in attendees && attendees[k].eventId != eventId :: attendees[k]
  }

  /** The cascade removes exactly the attendees of the deleted event and keeps every other row. */
  lemma {:induction false} CascadeRemovesExactlyItsAttendees(attendees: map<int, Attendee>, eventId: int)
    ensures forall k :: k in WithoutEvent(attendees, eventId) ==> WithoutEvent(attendees, eventId)[k].eventId != eventId
    ensures forall k :: k in attendees && attendees[k].eventId != eventId ==> k in WithoutEvent(attendees, eventId)
  {
  }

  /** After the cascade no attendee row points at the deleted event, so the foreign key still holds. */
  lemma {:induction false} CascadeKeepsForeignKey(events: map<int, Event>, attendees: map<int, Attendee>, eventId: int)
    requires AttendeeKeysHold(events, attendees)
    ensures AttendeeKeysHold(events - {eventId}, WithoutEvent(attendees, eventId))
  {
  }

  class Database {
    /** Users by id (the identity tables, reduced to what the controllers use). */
    var users: map<string, User>
    /** Event rows by primary key. */
    var events: map<int, Event>
    /** Attendee rows by primary key. */
    var attendees: map<int, Attendee>
    /** The identity counters of the two tables. */
    var nextEventId: int
    var nextAttendeeId: int

    ghost predicate UsersValid()
      reads this
    {
      && "" !in users
      && (forall u :: u in users ==> users[u].id == u)
      && (forall u, v :: u in users && v in users && Upper(users[u].email) == Upper(users[v].email) ==> u == v)
    }

    ghost predicate EventRow(k: int)
      reads this
      requires k in events
    {
      && 1 <= k < nextEventId
      && events[k].id == k
      && events[k].organizerId in users
      && WellFormedEvent(events[k])
    }

    ghost predicate AttendeeRow(k: int)
      reads this
      requires k in attendees
    {
      && 1 <= k < nextAttendeeId
      && attendees[k].id == k
      && attendees[k].eventId in events
      && Required(Some(attendees[k].name)) && AttendeeFitsColumns(attendees[k])
      && ValidPhone(attendees[k].phone)
    }

    /** The store's invariant: ids match keys, and both foreign keys hold. */
    ghost predicate Valid()
      reads this
    {
      && UsersValid()
      && 1 <= nextEventId && 1 <= nextAttendeeId
      && (forall k :: k in events ==> EventRow(k))
      && (forall k :: k in attendees ==> AttendeeRow(k))
    }

    constructor ()
      ensures Valid()
      ensures users == map[] && events == map[] && attendees == map[]
    {
      users, events, attendees := map[], map[], map[];
      nextEventId, nextAttendeeId := 1, 1;
    }

    /**
     * Inserts a user whose id is new and whose e-mail no user has yet. The
     * insert fails, and nothing changes, when a value does not fit its column.
     */
    method AddUser(u: User) returns (ok: bool)
      requires Valid()
      requires u.id != "" && u.id !in users
      requires forall v :: v in users ==> Upper(users[v].email) != Upper(u.email)
      modifies this
      ensures Valid()
      ensures ok <==> UserFitsColumns(u)
      ensures ok ==> users == old(users)[u.id := u] && events == old(events) && attendees == old(attendees)
      ensures !ok ==> unchanged(this)
    {
      ok := UserFitsColumns(u);
      if ok {
        users := users[u.id := u];
      }
    }

    /**
     * Inserts an event row under the next identity value. The insert fails, and
     * nothing changes, when the organizer is not a user or a value does not fit
     * its column.
     */
    method AddEvent(e: Event) returns (saved: Option<Event>)
      requires Valid()
      requires Required(Some(e.title)) && Required(Some(e.location)) && e.organizerId != ""
      modifies this
      ensures Valid()
      ensures saved.Some? <==> e.organizerId in old(users) && EventFitsColumns(e)
      ensures saved.None? ==> unchanged(this)
      ensures saved.Some? ==>
        && saved.value == e.(id := saved.value.id)
        && saved.value.id >= 1 && saved.value.id !in old(events)
        && events == old(events)[saved.value.id := saved.value]
        && users == old(users) && attendees == old(attendees)
    {
      if e.organizerId in users && EventFitsColumns(e) {
        var id := nextEventId;
        var row := e.(id := id);
        events := events[id := row];
        nextEventId := nextEventId + 1;
        saved := Some(row);
      } else {
        saved := None;
      }
    }

    /** Writes back a changed event row; its key and organizer stay as they are. */
    method ReplaceEvent(e: Event) returns (ok: bool)
      requires Valid()
      requires e.id in events && e.organizerId == events[e.id].organizerId
      requires Required(Some(e.title)) && Required(Some(e.location))
      modifies this
      ensures Valid()
      ensures ok <==> EventFitsColumns(e)
      ensures ok ==> events == old(events)[e.id := e] && users == old(users) && attendees == old(attendees)
      ensures !ok ==> unchanged(this)
    {
      ok := EventFitsColumns(e);
      if ok {
        events := events[e.id := e];
      }
    }

    /** Deletes an event row; the cascade deletes the attendee rows that point at it. */
    method RemoveEvent(id: int)
      requires Valid()
      requires id in events
      modifies this
      ensures Valid()
      ensures events == old(events) - {id}
      ensures attendees == WithoutEvent(old(attendees), id)
      ensures users == old(users)
    {
      CascadeKeepsForeignKey(events, attendees, id);
      events := events - {id};
      attendees := WithoutEvent(attendees, id);
    }

    /**
     * Inserts an attendee row under the next identity value. The insert fails,
     * and nothing changes, when its event does not exist (the foreign key) or
     * the name does not fit its column.
     */
    method AddAttendee(a: Attendee) returns (saved: Option<Attendee>)
      requires Valid()
      requires Required(Some(a.name)) && ValidPhone(a.phone)
      modifies this
      ensures Valid()
      ensures saved.Some? <==> a.eventId in old(events) && AttendeeFitsColumns(a)
      ensures saved.None? ==> unchanged(this)
      ensures saved.Some? ==>
        && saved.value == a.(id := saved.value.id)
        && saved.value.id >= 1 && saved.value.id !in old(attendees)
        && attendees == old(attendees)[saved.value.id := saved.value]
        && users == old(users) && events == old(events)
    {
      if a.eventId in events && AttendeeFitsColumns(a) {
        var id := nextAttendeeId;
        var row := a.(id := id);
        attendees := attendees[id := row];
        nextAttendeeId := nextAttendeeId + 1;
        saved := Some(row);
      } else {
        saved := None;
      }
    }

    /** Writes back a changed attendee row; its key and event stay as they are. */
    method ReplaceAttendee(a: Attendee)
      requires Valid()
      requires a.id in attendees && a.eventId == attendees[a.id].eventId
      requires Required(Some(a.name)) && AttendeeFitsColumns(a) && ValidPhone(a.phone)
      modifies this
      ensures Valid()
      ensures attendees == old(attendees)[a.id := a]
      ensures users == old(users) && events == old(events)
    {
      attendees := attendees[a.id := a];
    }

    /** Deletes an attendee row. */
    method RemoveAttendee(id: int)
      requires Valid()
      requires id in attendees
      modifies this
      ensures Valid()
      ensures attendees == old(attendees) - {id}
      ensures users == old(users) && events == old(events)
    {
      attendees := attendees - {id};
    }
  }
}
