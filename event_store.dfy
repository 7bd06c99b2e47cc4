/**
 * The event store (src/stores/eventStore.ts): the status rule of
 * `updateEventStatus`, the local RSVP record kept beside the database, and the
 * store's own countdown.  Database calls are replaced by their outcome, passed
 * in as a failure flag or as the rows returned; the clock is a parameter.
 */
module EventStore {
  import opened Wrappers
  import Collections
  import Countdown

  datatype EventStatus = Upcoming | Ongoing | Ended | Cancelled

  datatype RsvpStatus = Going | Maybe | NotGoing

  /** The columns of an event row that the store logic reads; dates in milliseconds. */
  datatype Event = Event(id: string, startDate: int, endDate: int, status: EventStatus)

  /** The columns of an `event_rsvps` row that the store logic reads. */
  datatype RsvpRow = RsvpRow(eventId: string, status: RsvpStatus)

  /** One `update({ status }).eq('id', id)` issued by `updateEventStatus`. */
  datatype StatusWrite = StatusWrite(id: string, status: EventStatus)

  // ---------------------------------------------------------------- updateEventStatus

  /**
   * The status `updateEventStatus` computes for an event at time `now`: a cancelled
   * event keeps its status; otherwise it is upcoming before the start, ongoing from
   * the start to the end inclusive, and ended after the end.
   */
  function NextStatus(e: Event, now: int): (s: EventStatus)
    ensures e.status == Cancelled ==> s == Cancelled
    ensures e.status != Cancelled ==> s != Cancelled
    ensures e.status != Cancelled && now < e.startDate ==> s == Upcoming
    ensures e.status != Cancelled && e.startDate <= now <= e.endDate ==> s == Ongoing
    ensures e.status != Cancelled && now >= e.startDate && now > e.endDate ==> s == Ended
  {
    if e.status == Cancelled then e.status
    else if now < e.startDate then Upcoming
    else if now >= e.startDate && now <= e.endDate then Ongoing
    else if now > e.endDate then Ended
    else e.status
  }

  /** The writes one pass issues, in the order of `events`: one per event whose status changes. */
  function StatusWrites(events: seq<Event>, now: int): seq<StatusWrite> {
    if |events| == 0 then []
    else
      var e := events[|events| - 1];
      StatusWrites(events[..|events| - 1], now)
      + (if NextStatus(e, now) != e.status then [StatusWrite(e.id, NextStatus(e, now))] else [])
  }

  /** A write is issued exactly for the events whose computed status differs from the stored one. */
  lemma {:induction false} StatusWritesExact(events: seq<Event>, now: int)
    ensures forall w :: w in StatusWrites(events, now) ==>
              exists i :: 0 <= i < |events| && events[i].id == w.id && w.status == NextStatus(events[i], now) != events[i].status
    ensures forall i :: 0 <= i < |events| && NextStatus(events[i], now) != events[i].status ==>
              StatusWrite(events[i].id, NextStatus(events[i], now)) in StatusWrites(events, now)
    ensures forall w :: w in StatusWrites(events, now) ==> w.status != Cancelled
  {
    if |events| > 0 {
      var init := events[..|events| - 1];
      StatusWritesExact(init, now);
      forall w | w in StatusWrites(init, now)
        ensures exists i :: 0 <= i < |events| && events[i].id == w.id && w.status == NextStatus(events[i], now) != events[i].status
      {
        var i :| 0 <= i < |init| && init[i].id == w.id && w.status == NextStatus(init[i], now) != init[i].status;
        assert events[i] == init[i];
      }
      forall i | 0 <= i < |events| && NextStatus(events[i], now) != events[i].status
        ensures StatusWrite(events[i].id, NextStatus(events[i], now)) in StatusWrites(events, now)
      {
        if i < |init| {
          assert events[i] == init[i];
        }
      }
    }
  }

  /** Running the rule again on its own result changes nothing: the rule is idempotent for a fixed `now`. */
  lemma NextStatusIdempotent(e: Event, now: int)
    ensures NextStatus(e.(status := NextStatus(e, now)), now) == NextStatus(e, now)
  {
  }

  /** The events with every write applied. */
  function Refreshed(events: seq<Event>, now: int): seq<Event> {
    seq(|events|, i requires 0 <= i < |events| => events[i].(status := NextStatus(events[i], now)))
  }

  /** Once the writes of a pass are applied, a second pass at the same time issues none. */
  lemma {:induction false} SecondPassWritesNothing(events: seq<Event>, now: int)
    ensures StatusWrites(Refreshed(events, now), now) == []
  {
    if |events| > 0 {
      var init := events[..|events| - 1];
      SecondPassWritesNothing(init, now);
      assert Refreshed(events, now)[..|events| - 1] == Refreshed(init, now);
      NextStatusIdempotent(events[|events| - 1], now);
    }
  }

  // ---------------------------------------------------------------- getCountdown

  /** What the store's `getCountdown` returns (no total). */
  datatype Remaining = Remaining(days: int, hours: int, minutes: int, seconds: int, isExpired: bool)

  /**
   * `getCountdown`: expired, with zeros, only once the event date is strictly in the
   * past; otherwise the floor/mod split of the distance in milliseconds.
   */
  function GetCountdown(eventDate: int, now: int): (r: Remaining)
    ensures r.isExpired <==> eventDate - now < 0
    ensures r.isExpired ==> r == Remaining(0, 0, 0, 0, true)
    ensures !r.isExpired ==> r.days >= 0 && 0 <= r.hours < 24 && 0 <= r.minutes < 60 && 0 <= r.seconds < 60
    ensures !r.isExpired ==> r.days * 86400 + r.hours * 3600 + r.minutes * 60 + r.seconds == (eventDate - now) / 1000
  {
    var distance := eventDate - now;
    if distance < 0 then Remaining(0, 0, 0, 0, true)
    else
      Countdown.Decompose(distance);
      Remaining(
        distance / Countdown.MsPerDay,
        (distance % Countdown.MsPerDay) / Countdown.MsPerHour,
        (distance % Countdown.MsPerHour) / Countdown.MsPerMinute,
        (distance % Countdown.MsPerMinute) / Countdown.MsPerSecond,
        false)
  }

  /**
   * The store's countdown and the hook's `calculateTimeLeft` agree everywhere except
   * at the target instant itself, where the hook reports expired and the store not.
   */
  lemma CountdownsDisagreeOnlyAtZero(target: int, now: int)
    ensures var a := GetCountdown(target, now);
            var b := Countdown.CalculateTimeLeft(target, now);
            (target != now ==> a == Remaining(b.days, b.hours, b.minutes, b.seconds, b.isExpired))
            && (target == now ==> a == Remaining(0, 0, 0, 0, false) && b.isExpired)
  {
  }

  // ---------------------------------------------------------------- RSVPs

  /** The `(event id, status)` assignments of `fetchUserRSVPs`' `forEach`, in row order. */
  function RsvpAssignments(rows: seq<RsvpRow>): seq<(string, RsvpStatus)> {
    seq(|rows|, i requires 0 <= i < |rows| => (rows[i].eventId, rows[i].status))
  }

  /**
   * The record `fetchUserRSVPs` builds: one entry per event id in the rows, holding
   * the status of the last row for that event.
   */
  method CollectRsvps(rows: seq<RsvpRow>) returns (rsvps: map<string, RsvpStatus>)
    ensures rsvps == Collections.LastWins(RsvpAssignments(rows))
    ensures rsvps.Keys == set i | 0 <= i < |rows| :: rows[i].eventId
    ensures forall i :: 0 <= i < |rows| && (forall j :: i < j < |rows| ==> rows[j].eventId != rows[i].eventId) ==>
              rsvps[rows[i].eventId] == rows[i].status
  {
    ghost var pairs := RsvpAssignments(rows);
    rsvps := map[];
    var k := 0;
    while k < |rows|
      invariant 0 <= k <= |rows|
      invariant rsvps == Collections.LastWins(pairs[..k])
    {
      assert pairs[..k + 1][..k] == pairs[..k];
      rsvps := rsvps[rows[k].eventId := rows[k].status];
      k := k + 1;
    }
    assert pairs[..|rows|] == pairs;
    assert (set i | 0 <= i < |pairs| :: pairs[i].0) == (set i | 0 <= i < |rows| :: rows[i].eventId) by {
      forall i | 0 <= i < |rows| ensures pairs[i].0 == rows[i].eventId { }
    }
    forall i | 0 <= i < |rows| && (forall j :: i < j < |rows| ==> rows[j].eventId != rows[i].eventId)
      ensures rsvps[rows[i].eventId] == rows[i].status
    {
      Collections.LastWinsAt(pairs, i);
    }
  }

  /** The store state this model keeps: the loaded events, the caller's RSVPs and the event categories. */
  class EventStore {
    var events: seq<Event>
    var userRSVPs: map<string, RsvpStatus>
    var categories: seq<Option<string>>

    constructor ()
      ensures events == [] && userRSVPs == map[] && categories == []
    {
      events := [];
      userRSVPs := map[];
      categories := [];
    }

    /**
     * `updateEventStatus` at time `now`: the writes it issues, one per loaded event
     * whose status changes.  The loaded `events` themselves are not updated.
     */
    method UpdateEventStatus(now: int) returns (writes: seq<StatusWrite>)
      ensures writes == StatusWrites(events, now)
    {
      writes := [];
      var k := 0;
      while k < |events|
        invariant 0 <= k <= |events|
        invariant writes == StatusWrites(events[..k], now)
      {
        var event := events[k];
        var newStatus := event.status;
        assert events[..k + 1][..k] == events[..k];
        if event.status != Cancelled {
          if now < event.startDate {
            newStatus := Upcoming;
          } else if now >= event.startDate && now <= event.endDate {
            newStatus := Ongoing;
          } else if now > event.endDate {
            newStatus := Ended;
          }
          if newStatus != event.status {
            writes := writes + [StatusWrite(event.id, newStatus)];
          }
        }
        k := k + 1;
      }
      assert events[..|events|] == events;
    }

    /**
     * `fetchUserRSVPs`: on a failed query the record is left alone; otherwise it is
     * replaced by the record built from the returned rows (none when `data` is null).
     */
    method FetchUserRsvps(failed: bool, data: Option<seq<RsvpRow>>)
      modifies this`userRSVPs
      ensures failed ==> userRSVPs == old(userRSVPs)
      ensures !failed ==> userRSVPs == Collections.LastWins(RsvpAssignments(data.GetOr([])))
    {
      if failed {
        return;
      }
      var rsvps := CollectRsvps(data.GetOr([]));
      userRSVPs := rsvps;
    }

    /**
     * `rsvpToEvent`: when the upsert succeeds the event's entry is set to `status` and
     * every other entry is kept; when it fails nothing changes.  The result is true
     * only when the upsert and the count refresh both succeed.
     */
    method RsvpToEvent(eventId: string, status: RsvpStatus, upsertFailed: bool, rpcThrows: bool) returns (ok: bool)
      modifies this`userRSVPs
      ensures ok <==> !upsertFailed && !rpcThrows
      ensures upsertFailed ==> userRSVPs == old(userRSVPs)
      ensures !upsertFailed ==> userRSVPs == old(userRSVPs)[eventId := status]
      ensures !upsertFailed ==> forall k :: k in old(userRSVPs) && k != eventId ==> k in userRSVPs && userRSVPs[k] == old(userRSVPs)[k]
    {
      if upsertFailed {
        return false;
      }
      userRSVPs := userRSVPs[eventId := status];
      if rpcThrows {
        return false;
      }
      return true;
    }

    /**
     * `cancelRSVP`: when the delete succeeds only the event's entry is removed; when it
     * fails nothing changes.  The result is true only when the delete and the count
     * refresh both succeed.
     */
    method CancelRsvp(eventId: string, deleteFailed: bool, rpcThrows: bool) returns (ok: bool)
      modifies this`userRSVPs
      ensures ok <==> !deleteFailed && !rpcThrows
      ensures deleteFailed ==> userRSVPs == old(userRSVPs)
      ensures !deleteFailed ==> userRSVPs == old(userRSVPs) - {eventId}
    {
      if deleteFailed {
        return false;
      }
      var newRsvps := userRSVPs;
      newRsvps := newRsvps - {eventId};
      userRSVPs := newRsvps;
      if rpcThrows {
        return false;
      }
      return true;
    }

    /** `getRSVPStatus`: `None` (null) exactly when the record has no entry for the event. */
    function GetRsvpStatus(eventId: string): (r: Option<RsvpStatus>)
      reads this
      ensures r.None? <==> eventId !in userRSVPs
      ensures r.Some? ==> r.value == userRSVPs[eventId]
    {
      if eventId in userRSVPs then Some(userRSVPs[eventId]) else None
    }

    /**
     * `fetchCategories`: on success the distinct categories of the rows, in order of
     * first appearance, where a row whose category is null contributes `None`; on
     * failure nothing changes.
     */
    method FetchCategories(failed: bool, data: Option<seq<Option<string>>>)
      modifies this`categories
      ensures failed ==> categories == old(categories)
      ensures !failed ==> categories == Collections.Dedup(data.GetOr([]))
    {
      if !failed {
        categories := Collections.Dedup(data.GetOr([]));
      }
    }
  }
}
