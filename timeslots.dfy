/**
 * The time-slot table behind the `/timeslots` routes: admin-created
 * bookable windows, the overlap guard on creation, the public
 * "available" listing, lookup by start instant, booking and deletion.
 *
 * Instants are non-negative integers counting milliseconds. The table is
 * kept in insertion order. A query without `orderBy` has no guaranteed
 * order; where one must pick a single row (`findFirst`), the model picks
 * the earliest-inserted match, which is one admissible answer.
 */
module TimeSlots {
  import opened Common

  datatype SlotStatus = Available | Booked

  datatype TimeSlot = TimeSlot(id: nat, startTime: nat, endTime: nat, isVisible: bool, status: SlotStatus)

  /** The body of `POST /`: the raw instants as sent, and the flags to store. */
  datatype SlotRequest = SlotRequest(startTime: nat, endTime: nat, isVisible: bool, status: SlotStatus)

  /** `Conflict` is the 400 answer naming the clashing slot; `Created` the stored slot. */
  datatype CreateResult = Conflict(clash: TimeSlot) | Created(slot: TimeSlot)

  /** The `startTime` query parameter of `GET /byId`, after `new Date(...)`. */
  datatype StartQuery = Absent | Unparsable | At(instant: nat)

  datatype LookupResult = MissingStartTime | InvalidStartTime | NoSlotAt | Found(slot: TimeSlot)

  const MillisPerSecond: nat := 1000

  // ---------------------------------------------------------------------
  // The overlap guard

  /** Half-open windows [s.startTime, s.endTime) and [startTime, endTime) share an instant. */
  predicate Overlaps(s: TimeSlot, startTime: nat, endTime: nat)
  {
    s.startTime < endTime && startTime < s.endTime
  }

  /**
   * The `where` clause of the overlap `findFirst`, as written: the same
   * conjunction listed twice under OR, and a NOT list excluding slots that
   * start where the new one ends or end where it starts. The NOT list is
   * redundant: the clause is exactly the half-open overlap test.
   */
  predicate MatchesOverlapQuery(s: TimeSlot, startTime: nat, endTime: nat)
    ensures MatchesOverlapQuery(s, startTime, endTime) <==> Overlaps(s, startTime, endTime)
    ensures s.endTime == startTime || s.startTime == endTime ==> !MatchesOverlapQuery(s, startTime, endTime)
  {
    var clause := s.startTime < endTime && s.endTime > startTime;
    (clause || clause) && !(s.startTime == endTime) && !(s.endTime == startTime)
  }

  /** The position of the earliest-inserted slot the overlap query matches, if any. */
  function FirstConflict(slots: seq<TimeSlot>, startTime: nat, endTime: nat): (r: Option<nat>)
    ensures r.Some? ==> r.value < |slots| && Overlaps(slots[r.value], startTime, endTime)
    ensures r.Some? ==> forall j :: 0 <= j < r.value ==> !Overlaps(slots[j], startTime, endTime)
    ensures r.None? <==> forall j :: 0 <= j < |slots| ==> !Overlaps(slots[j], startTime, endTime)
  {
    if slots == [] then None
    else if MatchesOverlapQuery(slots[0], startTime, endTime) then Some(0)
    else match FirstConflict(slots[1..], startTime, endTime)
      case None => None
      case Some(k) => Some(k + 1)
  }

  /** `setMilliseconds(0)`: drops the sub-second part of an instant. */
  function Truncate(t: nat): (r: nat)
    ensures r <= t && t - r < MillisPerSecond
    ensures r % MillisPerSecond == 0
    ensures t % MillisPerSecond == 0 ==> r == t
  {
    t - t % MillisPerSecond
  }

  /** A whole-second bound below `t` stays below `t` after truncation. */
  lemma TruncateKeepsSecondBound(e: nat, t: nat)
    requires e % MillisPerSecond == 0 && e <= t
    ensures e <= Truncate(t)
  {
    assert e == (e / MillisPerSecond) * MillisPerSecond;
    assert t == (t / MillisPerSecond) * MillisPerSecond + t % MillisPerSecond;
  }

  lemma TruncateIdempotent(t: nat)
    ensures Truncate(Truncate(t)) == Truncate(t)
  {
  }

  /** The slot `POST /` stores under `id`: truncated instants, flags as given. */
  function NewSlot(id: nat, req: SlotRequest): (s: TimeSlot)
    ensures s.id == id && s.isVisible == req.isVisible && s.status == req.status
    ensures s.startTime <= req.startTime && req.startTime - s.startTime < MillisPerSecond
    ensures s.endTime <= req.endTime && req.endTime - s.endTime < MillisPerSecond
    ensures s.startTime % MillisPerSecond == 0 && s.endTime % MillisPerSecond == 0
  {
    TimeSlot(id, Truncate(req.startTime), Truncate(req.endTime), req.isVisible, req.status)
  }

  // ---------------------------------------------------------------------
  // Table invariants

  ghost predicate UniqueIds(slots: seq<TimeSlot>)
  {
    forall i, j :: 0 <= i < |slots| && 0 <= j < |slots| && i != j ==> slots[i].id != slots[j].id
  }

  ghost predicate SecondAligned(slots: seq<TimeSlot>)
  {
    forall i :: 0 <= i < |slots| ==> slots[i].startTime % MillisPerSecond == 0 && slots[i].endTime % MillisPerSecond == 0
  }

  /** No two stored slots share an instant. */
  ghost predicate Disjoint(slots: seq<TimeSlot>)
  {
    forall i, j :: 0 <= i < |slots| && 0 <= j < |slots| && i != j ==> !Overlaps(slots[i], slots[j].startTime, slots[j].endTime)
  }

  /**
   * The guard runs on the raw request instants, while the stored instants are
   * truncated. On a table of whole-second slots this is still sound: a request
   * that passes the guard is stored without overlapping anything.
   */
  lemma {:induction false} CreateKeepsDisjoint(slots: seq<TimeSlot>, id: nat, req: SlotRequest)
    requires Disjoint(slots) && SecondAligned(slots)
    requires FirstConflict(slots, req.startTime, req.endTime).None?
    ensures Disjoint(slots + [NewSlot(id, req)]) && SecondAligned(slots + [NewSlot(id, req)])
  {
    var n := NewSlot(id, req);
    var t := slots + [n];
    forall i | 0 <= i < |slots|
      ensures !Overlaps(slots[i], n.startTime, n.endTime)
    {
      var s := slots[i];
      assert !Overlaps(s, req.startTime, req.endTime);
      if s.endTime <= req.startTime {
        TruncateKeepsSecondBound(s.endTime, req.startTime);
      }
    }
    forall i, j | 0 <= i < |t| && 0 <= j < |t| && i != j
      ensures !Overlaps(t[i], t[j].startTime, t[j].endTime)
    {
      if i == |slots| {
        assert !Overlaps(slots[j], n.startTime, n.endTime);
      } else if j == |slots| {
        assert !Overlaps(slots[i], n.startTime, n.endTime);
      } else {
        assert t[i] == slots[i] && t[j] == slots[j];
      }
    }
  }

  // ---------------------------------------------------------------------
  // Queries

  predicate StartLe(a: TimeSlot, b: TimeSlot)
  {
    a.startTime <= b.startTime
  }

  lemma StartLeTotalPreorder()
    ensures TotalPreorder(StartLe)
  {
  }

  /** `GET /`: every slot, ascending by start. */
  function ListAll(slots: seq<TimeSlot>): (r: seq<TimeSlot>)
  {
    SortBy(slots, StartLe)
  }

  lemma ListAllSpec(slots: seq<TimeSlot>)
    ensures multiset(ListAll(slots)) == multiset(slots)
    ensures forall i, j :: 0 <= i < j < |ListAll(slots)| ==> ListAll(slots)[i].startTime <= ListAll(slots)[j].startTime
  {
    StartLeTotalPreorder();
    SortBySorted(slots, StartLe);
  }

  /** The `where` clause of `GET /available`. */
  predicate Open(s: TimeSlot, now: nat)
  {
    s.status == Available && s.isVisible && s.startTime >= now
  }

  /** `GET /available`: the open slots from `now` on, ascending by start. */
  function AvailableSlots(slots: seq<TimeSlot>, now: nat): seq<TimeSlot>
  {
    SortBy(Filter(slots, (s: TimeSlot) => Open(s, now)), StartLe)
  }

  lemma AvailableSlotsSpec(slots: seq<TimeSlot>, now: nat)
    ensures forall s :: s in AvailableSlots(slots, now) <==> s in slots && s.status == Available && s.isVisible && s.startTime >= now
    ensures forall s :: multiset(AvailableSlots(slots, now))[s] == if Open(s, now) then multiset(slots)[s] else 0
    ensures forall i, j :: 0 <= i < j < |AvailableSlots(slots, now)| ==>
      AvailableSlots(slots, now)[i].startTime <= AvailableSlots(slots, now)[j].startTime
  {
    var open := Filter(slots, (s: TimeSlot) => Open(s, now));
    var r := AvailableSlots(slots, now);
    assert multiset(r) == multiset(open);
    forall s ensures s in r <==> s in open {
      assert s in r <==> s in multiset(r);
      assert s in open <==> s in multiset(open);
    }
    StartLeTotalPreorder();
    SortBySorted(open, StartLe);
  }

  /** `GET /byId`: the first slot starting exactly at the requested instant. */
  function FindByStart(slots: seq<TimeSlot>, q: StartQuery): (r: LookupResult)
    ensures r == MissingStartTime <==> q.Absent?
    ensures r == InvalidStartTime <==> q.Unparsable?
    ensures r.Found? ==> q.At? && r.slot in slots && r.slot.startTime == q.instant
    ensures r == NoSlotAt <==> q.At? && forall s :: s in slots ==> s.startTime != q.instant
  {
    match q
    case Absent => MissingStartTime
    case Unparsable => InvalidStartTime
    case At(t) =>
      var found := Filter(slots, (s: TimeSlot) => s.startTime == t);
      if found == [] then NoSlotAt else Found(found[0])
  }

  // ---------------------------------------------------------------------
  // Booking and deletion, on the table as a value

  /** The position of the slot with id `id`, if any (`findUnique`). */
  function IndexOfId(slots: seq<TimeSlot>, id: nat): (r: Option<nat>)
    ensures r.Some? ==> r.value < |slots| && slots[r.value].id == id
    ensures r.None? <==> forall s :: s in slots ==> s.id != id
  {
    if slots == [] then None
    else if slots[0].id == id then Some(0)
    else match IndexOfId(slots[1..], id)
      case None => None
      case Some(k) => Some(k + 1)
  }

  /** The update of `PUT /book/:id`: hidden and booked, whatever the previous status. */
  function Book(s: TimeSlot): TimeSlot
  {
    s.(isVisible := false, status := Booked)
  }

  /** The table after booking every slot with id `id` (at most one when ids are unique). */
  function BookIn(slots: seq<TimeSlot>, id: nat): (r: seq<TimeSlot>)
    ensures |r| == |slots|
    ensures forall i :: 0 <= i < |slots| ==>
      r[i].id == slots[i].id && r[i].startTime == slots[i].startTime && r[i].endTime == slots[i].endTime
    ensures forall i :: 0 <= i < |slots| && slots[i].id == id ==> !r[i].isVisible && r[i].status == Booked
    ensures forall i :: 0 <= i < |slots| && slots[i].id != id ==> r[i] == slots[i]
  {
    if slots == [] then []
    else [if slots[0].id == id then Book(slots[0]) else slots[0]] + BookIn(slots[1..], id)
  }

  lemma BookInIdempotent(slots: seq<TimeSlot>, id: nat)
    ensures BookIn(BookIn(slots, id), id) == BookIn(slots, id)
  {
    var once := BookIn(slots, id);
    var twice := BookIn(once, id);
    forall i | 0 <= i < |slots| ensures twice[i] == once[i] {
      if slots[i].id == id {
        assert twice[i] == once[i].(isVisible := false, status := Booked);
      }
    }
  }

  lemma BookInKeepsInvariants(slots: seq<TimeSlot>, id: nat)
    ensures UniqueIds(slots) ==> UniqueIds(BookIn(slots, id))
    ensures SecondAligned(slots) ==> SecondAligned(BookIn(slots, id))
    ensures Disjoint(slots) ==> Disjoint(BookIn(slots, id))
  {
  }

  /** With unique ids, booking the slot at `i` in place is booking by its id. */
  lemma {:induction false} BookAtIndex(slots: seq<TimeSlot>, i: nat)
    requires UniqueIds(slots) && i < |slots|
    ensures slots[i := Book(slots[i])] == BookIn(slots, slots[i].id)
  {
    var r := BookIn(slots, slots[i].id);
    forall k | 0 <= k < |slots| ensures slots[i := Book(slots[i])][k] == r[k] {
      if k == i {
        assert r[k] == r[k].(isVisible := false, status := Booked);
      }
    }
  }

  /** The table after deleting every slot with id `id`, order kept. */
  function RemoveId(slots: seq<TimeSlot>, id: nat): (r: seq<TimeSlot>)
    ensures forall s :: s in r <==> s in slots && s.id != id
  {
    if slots == [] then []
    else
      assert slots == [slots[0]] + slots[1..];
      (if slots[0].id == id then [] else [slots[0]]) + RemoveId(slots[1..], id)
  }

  /** With unique ids, cutting out position `i` is deleting by its id: exactly one slot goes. */
  lemma RemoveAtIndex(slots: seq<TimeSlot>, i: nat)
    requires UniqueIds(slots) && i < |slots|
    ensures slots[..i] + slots[i+1..] == RemoveId(slots, slots[i].id)
    ensures |RemoveId(slots, slots[i].id)| == |slots| - 1
    ensures multiset(RemoveId(slots, slots[i].id)) == multiset(slots) - multiset{slots[i]}
  {
    CutIsRemoveId(slots, i);
    assert slots == slots[..i] + [slots[i]] + slots[i+1..];
    assert multiset(slots) == multiset(slots[..i]) + multiset{slots[i]} + multiset(slots[i+1..]);
  }

  lemma CutIsRemoveId(slots: seq<TimeSlot>, i: nat)
    requires UniqueIds(slots) && i < |slots|
    ensures slots[..i] + slots[i+1..] == RemoveId(slots, slots[i].id)
  {
    OthersHaveOtherIds(slots, i);
    assert slots == slots[..i] + ([slots[i]] + slots[i+1..]);
    RemoveOnly(slots[..i], slots[i], slots[i+1..]);
  }

  /** Deleting the id of `x` from `before + [x] + after`, where only `x` carries it. */
  lemma RemoveOnly(before: seq<TimeSlot>, x: TimeSlot, after: seq<TimeSlot>)
    requires forall s :: s in before ==> s.id != x.id
    requires forall s :: s in after ==> s.id != x.id
    ensures RemoveId(before + ([x] + after), x.id) == before + after
  {
    RemoveIdAbsent(before, x.id);
    RemoveIdAbsent(after, x.id);
    assert ([x] + after)[0] == x && ([x] + after)[1..] == after;
    assert RemoveId([x] + after, x.id) == after;
    RemoveIdAppend(before, [x] + after, x.id);
  }

  /** With unique ids, no slot before or after position `i` carries its id. */
  lemma OthersHaveOtherIds(slots: seq<TimeSlot>, i: nat)
    requires UniqueIds(slots) && i < |slots|
    ensures forall s :: s in slots[..i] ==> s.id != slots[i].id
    ensures forall s :: s in slots[i+1..] ==> s.id != slots[i].id
  {
    forall s | s in slots[..i] ensures s.id != slots[i].id {
      var k :| 0 <= k < i && slots[..i][k] == s;
      assert slots[k] == s;
    }
    forall s | s in slots[i+1..] ensures s.id != slots[i].id {
      var k :| 0 <= k < |slots| - i - 1 && slots[i+1..][k] == s;
      assert slots[i + 1 + k] == s;
    }
  }

  lemma {:induction false} RemoveIdAppend(a: seq<TimeSlot>, b: seq<TimeSlot>, id: nat)
    ensures RemoveId(a + b, id) == RemoveId(a, id) + RemoveId(b, id)
  {
    if a == [] {
      assert a + b == b;
    } else {
      var head := if a[0].id == id then [] else [a[0]];
      assert (a + b)[0] == a[0] && (a + b)[1..] == a[1..] + b;
      calc {
        RemoveId(a + b, id);
        head + RemoveId(a[1..] + b, id);
        { RemoveIdAppend(a[1..], b, id); }
        head + (RemoveId(a[1..], id) + RemoveId(b, id));
        (head + RemoveId(a[1..], id)) + RemoveId(b, id);
        RemoveId(a, id) + RemoveId(b, id);
      }
    }
  }

  lemma {:induction false} RemoveIdAbsent(a: seq<TimeSlot>, id: nat)
    requires forall s :: s in a ==> s.id != id
    ensures RemoveId(a, id) == a
  {
    if a != [] {
      RemoveIdAbsent(a[1..], id);
      assert a == [a[0]] + a[1..];
    }
  }

  lemma RemoveIdKeepsInvariants(slots: seq<TimeSlot>, i: nat)
    requires i < |slots|
    ensures UniqueIds(slots) ==> UniqueIds(slots[..i] + slots[i+1..])
    ensures SecondAligned(slots) ==> SecondAligned(slots[..i] + slots[i+1..])
    ensures Disjoint(slots) ==> Disjoint(slots[..i] + slots[i+1..])
  {
    var r := slots[..i] + slots[i+1..];
    assert forall k :: 0 <= k < |r| ==> r[k] == slots[if k < i then k else k + 1];
  }

  // ---------------------------------------------------------------------
  // The table, updated in place by the routes

  class SlotTable {
    var slots: seq<TimeSlot>
    var nextId: nat

    /** Ids are unique and below the next one to hand out; slots are whole-second and pairwise disjoint. */
    ghost predicate Valid()
      reads this
    {
      && UniqueIds(slots)
      && (forall s :: s in slots ==> s.id < nextId)
      && SecondAligned(slots)
      && Disjoint(slots)
    }

    constructor ()
      ensures Valid() && slots == [] && nextId == 0
    {
      slots := [];
      nextId := 0;
    }

    /** `POST /`: the overlap guard on the raw instants, then storage of the truncated slot. */
    method Create(req: SlotRequest) returns (r: CreateResult)
      requires Valid()
      modifies this
      ensures Valid()
      ensures match FirstConflict(old(slots), req.startTime, req.endTime)
        case Some(i) => r == Conflict(old(slots)[i]) && slots == old(slots) && nextId == old(nextId)
        case None => r == Created(NewSlot(old(nextId), req)) && slots == old(slots) + [r.slot] && nextId == old(nextId) + 1
    {
      var clash := FirstConflict(slots, req.startTime, req.endTime);
      if clash.Some? {
        return Conflict(slots[clash.value]);
      }
      var slot := NewSlot(nextId, req);
      CreateKeepsDisjoint(slots, nextId, req);
      slots := slots + [slot];
      nextId := nextId + 1;
      r := Created(slot);
    }

    /** `PUT /book/:id`: the booked slot, or None (404) with the table unchanged. */
    method BookSlot(id: nat) returns (r: Option<TimeSlot>)
      requires Valid()
      modifies this
      ensures Valid() && nextId == old(nextId)
      ensures slots == BookIn(old(slots), id)
      ensures r.None? <==> forall s :: s in old(slots) ==> s.id != id
      ensures r.None? ==> slots == old(slots)
      ensures r.Some? ==> r.value in slots && r.value.id == id && !r.value.isVisible && r.value.status == Booked
    {
      var i := IndexOfId(slots, id);
      if i.None? {
        assert BookIn(slots, id) == slots;
        return None;
      }
      BookAtIndex(slots, i.value);
      BookInKeepsInvariants(slots, id);
      slots := slots[i.value := Book(slots[i.value])];
      r := Some(slots[i.value]);
    }

    /** `DELETE /:id`: true when the slot existed and is gone; false (404) with the table unchanged. */
    method DeleteSlot(id: nat) returns (deleted: bool)
      requires Valid()
      modifies this
      ensures Valid() && nextId == old(nextId)
      ensures slots == RemoveId(old(slots), id)
      ensures deleted <==> exists s :: s in old(slots) && s.id == id
      ensures deleted ==> |slots| == |old(slots)| - 1
      ensures !deleted ==> slots == old(slots)
    {
      var i := IndexOfId(slots, id);
      if i.None? {
        RemoveIdAbsent(slots, id);
        return false;
      }
      RemoveAtIndex(slots, i.value);
      RemoveIdKeepsInvariants(slots, i.value);
      slots := slots[..i.value] + slots[i.value + 1..];
      deleted := true;
    }
  }
}
