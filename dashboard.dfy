/**
 * The organizer's dashboard: the list of the caller's events as the events
 * API returned it, shown through an "all / upcoming / past" filter, and
 * shortened locally once a delete the user confirmed has gone through.
 * Dates are whole seconds; `now` is the moment the list is filtered.
 */
module Dashboard {

  /** The part of an event the dashboard works with. */
  datatype EventCard = EventCard(id: int, title: string, startDate: int)

  /** `s` is `t` with some elements left out and the others in their order. */
  predicate SubsequenceOf<T(==,!new)>(s: seq<T>, t: seq<T>)
    decreases |t|
  {
    if t == [] then s == []
    else (s != [] && s[0] == t[0] && SubsequenceOf(s[1..], t[1..])) || SubsequenceOf(s, t[1..])
  }

  /** The elements of `s` that `keep` accepts, in their order: an array's `filter`. */
  function Where<T(==,!new)>(s: seq<T>, keep: T -> bool): (r: seq<T>)
    ensures forall x :: x in r <==> x in s && keep(x)
    ensures |r| <= |s|
    ensures SubsequenceOf(r, s)
  {
    if s == [] then []
    else if keep(s[0]) then [s[0]] + Where(s[1..], keep)
    else Where(s[1..], keep)
  }

  /** Whether the card `e` is shown under `filter` at time `now`. */
  predicate Shown(filter: string, now: int, e: EventCard)
  {
    if filter == "upcoming" then e.startDate >= now
    else if filter == "past" then e.startDate < now
    else true
  }

  /** The filter as a function, so that every use of a filter value names the same one. */
  function Keep(filter: string, now: int): EventCard -> bool
  {
    e => Shown(filter, now, e)
  }

  /** A filter that accepts every element keeps the sequence as it is. */
  lemma {:induction false} WhereKeepsAll<T(!new)>(s: seq<T>, keep: T -> bool)
    requires forall i :: 0 <= i < |s| ==> keep(s[i])
    ensures Where(s, keep) == s
  {
    if s != [] {
      WhereKeepsAll(s[1..], keep);
      assert [s[0]] + s[1..] == s;
    }
  }

  /** The events the dashboard shows under `filter` at time `now`. */
  function FilteredEvents(events: seq<EventCard>, filter: string, now: int): (r: seq<EventCard>)
    ensures filter == "upcoming" ==> forall e :: e in r <==> e in events && e.startDate >= now
    ensures filter == "past" ==> forall e :: e in r <==> e in events && e.startDate < now
    ensures filter != "upcoming" && filter != "past" ==> r == events
    ensures SubsequenceOf(r, events)
  {
    if filter != "upcoming" && filter != "past" then
      WhereKeepsAll(events, Keep(filter, now));
      Where(events, Keep(filter, now))
    else
      Where(events, Keep(filter, now))
  }

  /** Two complementary filters split a sequence: each element lands in exactly one part. */
  lemma {:induction false} WhereSplits<T(!new)>(s: seq<T>, p: T -> bool, q: T -> bool)
    requires forall x :: q(x) == !p(x)
    ensures multiset(Where(s, p)) + multiset(Where(s, q)) == multiset(s)
  {
    if s != [] {
      var t := s[1..];
      WhereSplits(t, p, q);
      assert s == [s[0]] + t;
      if p(s[0]) {
        assert Where(s, p) == [s[0]] + Where(t, p) && Where(s, q) == Where(t, q);
      } else {
        assert Where(s, q) == [s[0]] + Where(t, q) && Where(s, p) == Where(t, p);
      }
    }
  }

  /** "upcoming" and "past" never show the same event, and between them show every event. */
  lemma {:induction false} UpcomingAndPastPartition(events: seq<EventCard>, now: int)
    ensures forall e :: !(e in FilteredEvents(events, "upcoming", now) && e in FilteredEvents(events, "past", now))
    ensures multiset(FilteredEvents(events, "upcoming", now)) + multiset(FilteredEvents(events, "past", now)) == multiset(events)
    ensures |FilteredEvents(events, "upcoming", now)| + |FilteredEvents(events, "past", now)| == |events|
  {
    WhereSplits(events, Keep("upcoming", now), Keep("past", now));
    assert |multiset(FilteredEvents(events, "upcoming", now)) + multiset(FilteredEvents(events, "past", now))| == |multiset(events)|;
  }

  /** The list once the event `eventId` has been deleted: every card with that id goes, the rest stay in order. */
  function AfterDelete(events: seq<EventCard>, eventId: int): (r: seq<EventCard>)
    ensures forall e :: e in r <==> e in events && e.id != eventId
    ensures SubsequenceOf(r, events)
    ensures (forall i :: 0 <= i < |events| ==> events[i].id != eventId) ==> r == events
  {
    var keep := (e: EventCard) => e.id != eventId;
    if forall i :: 0 <= i < |events| ==> events[i].id != eventId then
      WhereKeepsAll(events, keep);
      Where(events, keep)
    else
      Where(events, keep)
  }

  /** Applying two filters in either order gives the same list. */
  lemma {:induction false} WhereCommutes<T(!new)>(s: seq<T>, p: T -> bool, q: T -> bool)
    ensures Where(Where(s, p), q) == Where(Where(s, q), p)
  {
    if s != [] {
      WhereCommutes(s[1..], p, q);
      var t := s[1..];
      if p(s[0]) {
        assert Where(s, p) == [s[0]] + Where(t, p);
        assert Where(s, p)[1..] == Where(t, p);
      }
      if q(s[0]) {
        assert Where(s, q) == [s[0]] + Where(t, q);
        assert Where(s, q)[1..] == Where(t, q);
      }
    }
  }

  /** Deleting an event and then filtering shows what filtering and then deleting shows. */
  lemma {:induction false} DeleteThenFilter(events: seq<EventCard>, eventId: int, filter: string, now: int)
    ensures FilteredEvents(AfterDelete(events, eventId), filter, now)
         == AfterDelete(FilteredEvents(events, filter, now), eventId)
  {
    WhereCommutes(events, (e: EventCard) => e.id != eventId, Keep(filter, now));
  }

  /** Deleting the same event twice leaves the list as the first delete did. */
  lemma {:induction false} AfterDeleteIdempotent(events: seq<EventCard>, eventId: int)
    ensures AfterDelete(AfterDelete(events, eventId), eventId) == AfterDelete(events, eventId)
  {
    var once := AfterDelete(events, eventId);
    assert forall i :: 0 <= i < |once| ==> once[i] in once;
  }

  /** The dashboard's state: the fetched events and the chosen filter. */
  class DashboardState {
    var events: seq<EventCard>
    var filter: string

    constructor (fetched: seq<EventCard>)
      ensures events == fetched && filter == "all"
    {
      events := fetched;
      filter := "all";
    }

    /** What the page lists at time `now`. */
    function Visible(now: int): (r: seq<EventCard>)
      reads this
      ensures SubsequenceOf(r, events)
    {
      FilteredEvents(events, filter, now)
    }

    /** A click on one of the filter buttons. */
    method SetFilter(f: string)
      modifies this
      ensures filter == f && events == old(events)
    {
      filter := f;
    }

    /**
     * The delete button: nothing happens unless the user confirms and the
     * request succeeds; then every card with that id leaves the list.
     */
    method HandleDelete(eventId: int, confirmed: bool, deleteSucceeded: bool)
      modifies this
      ensures filter == old(filter)
      ensures confirmed && deleteSucceeded ==> events == AfterDelete(old(events), eventId)
      ensures !(confirmed && deleteSucceeded) ==> events == old(events)
      ensures forall e :: e in events ==> e in old(events)
      ensures confirmed && deleteSucceeded ==> forall e :: e in events ==> e.id != eventId
    {
      if !confirmed {
        return;
      }
      if deleteSucceeded {
        events := AfterDelete(events, eventId);
      }
    }
  }
}
