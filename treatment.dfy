/** Daily tracking of the treatments prescribed to a room stay: marking a treatment as done
    on a calendar day, or taking that mark back.

    An assignment lists the treatment services chosen for one stay; each service keeps the
    list of days on which it was given, and that list is updated in place. Instants are
    milliseconds; two instants fall on the same day when they give the same local calendar
    day, computed with the fixed offset `offset` of the local time zone from UTC. */
module Treatment {
  import opened Wrappers
  import Seqs

  type Id = string

  const MsPerDay: int := 86400000

  /** One mark: when the treatment was given, by whom, and when the mark was recorded. */
  datatype Tracking = Tracking(date: int, workerId: Id, createdAt: int)

  /** The local calendar day of an instant, as `toDateString()` distinguishes days. */
  function CalendarDay(ms: int, offset: int): int {
    (ms + offset) / MsPerDay
  }

  predicate SameDay(a: int, b: int, offset: int) {
    CalendarDay(a, offset) == CalendarDay(b, offset)
  }

  /** Two instants less than a day apart within one calendar day are on the same day, and
      instants a whole day apart never are. */
  lemma SameDayMeansWithinADay(a: int, b: int, offset: int)
    ensures SameDay(a, b, offset) ==> -MsPerDay < a - b < MsPerDay
    ensures SameDay(a, a + MsPerDay, offset) == false
  {
    var da, db := (a + offset) / MsPerDay, (b + offset) / MsPerDay;
    assert da * MsPerDay <= a + offset < da * MsPerDay + MsPerDay;
    assert db * MsPerDay <= b + offset < db * MsPerDay + MsPerDay;
    assert (a + MsPerDay + offset) / MsPerDay == da + 1;
  }

  /** `dailyTracking.findIndex(...)`: the first mark on the day of `date`. */
  function DayIndex(tracking: seq<Tracking>, date: int, offset: int): (r: Option<nat>)
    ensures r.Some? ==> r.value < |tracking| && SameDay(tracking[r.value].date, date, offset)
    ensures r.Some? ==> forall k :: 0 <= k < r.value ==> !SameDay(tracking[k].date, date, offset)
    ensures r.None? <==> forall k :: 0 <= k < |tracking| ==> !SameDay(tracking[k].date, date, offset)
  {
    Seqs.FirstIndex(tracking, (t: Tracking) => SameDay(t.date, date, offset))
  }

  predicate MarkedOn(tracking: seq<Tracking>, date: int, offset: int) {
    exists k :: 0 <= k < |tracking| && SameDay(tracking[k].date, date, offset)
  }

  /** At most one mark per calendar day. */
  predicate OneMarkPerDay(tracking: seq<Tracking>, offset: int) {
    forall i, j :: 0 <= i < j < |tracking| ==> !SameDay(tracking[i].date, tracking[j].date, offset)
  }

  /** The marks after marking the day of `date` as done: a new mark at the end, unless the
      day already has one. */
  function Mark(tracking: seq<Tracking>, date: int, workerId: Id, now: int, offset: int): seq<Tracking> {
    if DayIndex(tracking, date, offset).Some? then tracking else tracking + [Tracking(date, workerId, now)]
  }

  /** The marks after taking back the mark of the day of `date`, if there is one. */
  function Unmark(tracking: seq<Tracking>, date: int, offset: int): seq<Tracking> {
    match DayIndex(tracking, date, offset)
    case None => tracking
    case Some(k) => tracking[..k] + tracking[k + 1..]
  }

  /** After marking, the day is marked, and it was marked before or one mark was added. */
  lemma MarkMarksTheDay(tracking: seq<Tracking>, date: int, workerId: Id, now: int, offset: int)
    ensures var m := Mark(tracking, date, workerId, now, offset);
      && MarkedOn(m, date, offset)
      && (MarkedOn(tracking, date, offset) ==> m == tracking)
      && (!MarkedOn(tracking, date, offset) ==> m == tracking + [Tracking(date, workerId, now)])
  {
    var m := Mark(tracking, date, workerId, now, offset);
    if DayIndex(tracking, date, offset).None? {
      assert SameDay(m[|tracking|].date, date, offset);
    }
  }

  /** Marking the same day twice is marking it once. */
  lemma MarkIsIdempotent(tracking: seq<Tracking>, date: int, w1: Id, w2: Id, t1: int, t2: int, offset: int)
    ensures Mark(Mark(tracking, date, w1, t1, offset), date, w2, t2, offset) == Mark(tracking, date, w1, t1, offset)
  {
    MarkMarksTheDay(tracking, date, w1, t1, offset);
  }

  /** Taking back a mark that was just made restores the marks. */
  lemma UnmarkUndoesMark(tracking: seq<Tracking>, date: int, workerId: Id, now: int, offset: int)
    requires !MarkedOn(tracking, date, offset)
    ensures Unmark(Mark(tracking, date, workerId, now, offset), date, offset) == tracking
  {
    var m := tracking + [Tracking(date, workerId, now)];
    assert SameDay(m[|tracking|].date, date, offset);
    assert DayIndex(m, date, offset) == Some(|tracking|);
    assert m[..|tracking|] == tracking;
  }

  /** Marking keeps at most one mark per day. */
  lemma MarkKeepsOneMarkPerDay(tracking: seq<Tracking>, date: int, workerId: Id, now: int, offset: int)
    requires OneMarkPerDay(tracking, offset)
    ensures OneMarkPerDay(Mark(tracking, date, workerId, now, offset), offset)
  {
  }

  /** Removing the element at `k` shifts the later ones down by one. */
  lemma RemovedAt(tracking: seq<Tracking>, k: nat, i: nat)
    requires k < |tracking| && i < |tracking| - 1
    ensures (tracking[..k] + tracking[k + 1..])[i] == tracking[if i < k then i else i + 1]
  {
  }

  /** Taking a mark back keeps at most one mark per day, and then the day is no longer marked. */
  lemma UnmarkClearsTheDay(tracking: seq<Tracking>, date: int, offset: int)
    requires OneMarkPerDay(tracking, offset)
    ensures OneMarkPerDay(Unmark(tracking, date, offset), offset)
    ensures !MarkedOn(Unmark(tracking, date, offset), date, offset)
    ensures |Unmark(tracking, date, offset)| == |tracking| - (if MarkedOn(tracking, date, offset) then 1 else 0)
  {
    match DayIndex(tracking, date, offset)
    case None =>
    case Some(k) =>
      var u := tracking[..k] + tracking[k + 1..];
      forall i, j | 0 <= i < j < |u|
        ensures !SameDay(u[i].date, u[j].date, offset)
      {
        RemovedAt(tracking, k, i);
        RemovedAt(tracking, k, j);
      }
      forall i | 0 <= i < |u|
        ensures !SameDay(u[i].date, date, offset)
      {
        RemovedAt(tracking, k, i);
        if i < k {
          assert !SameDay(tracking[i].date, tracking[k].date, offset);
        } else {
          assert !SameDay(tracking[k].date, tracking[i + 1].date, offset);
        }
      }
  }

  /** One chosen treatment of a stay, whose marks are updated in place. */
  class TreatmentService {
    const serviceId: Id
    var dailyTracking: seq<Tracking>

    constructor (serviceId: Id, dailyTracking: seq<Tracking>)
      ensures this.serviceId == serviceId && this.dailyTracking == dailyTracking
    {
      this.serviceId := serviceId;
      this.dailyTracking := dailyTracking;
    }
  }

  /** The treatments chosen for one stay. */
  class Assignment {
    const roomStoryId: Id
    const services: seq<TreatmentService>

    constructor (roomStoryId: Id, services: seq<TreatmentService>)
      ensures this.roomStoryId == roomStoryId && this.services == services
    {
      this.roomStoryId := roomStoryId;
      this.services := services;
    }
  }

  datatype MarkOutcome = NoAssignment | NoService | Added | AlreadyMarked | Removed | NothingToRemove | NotSaved

  /** What marking or unmarking a found service answers, decided from its marks before the
      call: a day that has a mark is taken back or reported as already marked, a day without
      one is marked when the date and worker are valid. */
  function MarkDecision(tracking: seq<Tracking>, date: Option<int>, workerId: Option<Id>, remove: bool, offset: int): (r: MarkOutcome)
    ensures r !in {NoAssignment, NoService}
    ensures r in {Removed, AlreadyMarked} <==> date.Some? && MarkedOn(tracking, date.value, offset)
    ensures remove <==> r in {Removed, NothingToRemove}
  {
    var marked := date.Some? && MarkedOn(tracking, date.value, offset);
    if remove then (if marked then Removed else NothingToRemove)
    else if marked then AlreadyMarked
    else if date.None? || workerId.None? then NotSaved
    else Added
  }

  /** `ChoosedRoomServices.findOne({roomStoryId})`. */
  function FindAssignment(assignments: seq<Assignment>, roomStoryId: Id): (r: Option<nat>)
    ensures r.Some? ==> r.value < |assignments| && assignments[r.value].roomStoryId == roomStoryId
    ensures r.None? ==> forall k :: 0 <= k < |assignments| ==> assignments[k].roomStoryId != roomStoryId
  {
    Seqs.FirstIndex(assignments, (a: Assignment) => a.roomStoryId == roomStoryId)
  }

  /** `services.find(...)` by service id. */
  function FindService(services: seq<TreatmentService>, serviceId: Id): (r: Option<nat>)
    ensures r.Some? ==> r.value < |services| && services[r.value].serviceId == serviceId
    ensures r.None? ==> forall k :: 0 <= k < |services| ==> services[k].serviceId != serviceId
  {
    Seqs.FirstIndex(services, (s: TreatmentService) => s.serviceId == serviceId)
  }

  /** Every service object of every assignment. */
  function AllServices(assignments: seq<Assignment>): set<TreatmentService> {
    set a, s | a in assignments && s in a.services :: s
  }

  /** `markTreatmentDone`: finds the stay's assignment and the chosen service, then either
      takes back the mark of the day of `date` (`remove`) or marks that day. `date` is `None`
      for a date that does not parse; a mark without a valid date or worker is not saved.
      Only the chosen service's marks can change. */
  method MarkTreatmentDone(
    assignments: seq<Assignment>, roomStoryId: Id, serviceId: Id, date: Option<int>,
    workerId: Option<Id>, remove: bool, now: int, offset: int)
    returns (outcome: MarkOutcome)
    modifies AllServices(assignments)
    ensures outcome == NoAssignment <==> FindAssignment(assignments, roomStoryId).None?
    ensures var a := FindAssignment(assignments, roomStoryId);
      outcome == NoService <==> a.Some? && FindService(assignments[a.value].services, serviceId).None?
    ensures var a := FindAssignment(assignments, roomStoryId);
      a.Some? ==> var services := assignments[a.value].services;
      var k := FindService(services, serviceId);
      k.Some? ==> outcome == MarkDecision(old(services[k.value].dailyTracking), date, workerId, remove, offset)
    ensures outcome in {NoAssignment, NoService, AlreadyMarked, NothingToRemove, NotSaved} ==>
      forall s :: s in AllServices(assignments) ==> s.dailyTracking == old(s.dailyTracking)
    ensures outcome in {Added, AlreadyMarked, Removed, NothingToRemove, NotSaved} ==>
      var a := FindAssignment(assignments, roomStoryId);
      a.Some? && var services := assignments[a.value].services;
      var k := FindService(services, serviceId);
      k.Some? && var s := services[k.value];
      && (forall t :: t in AllServices(assignments) && t != s ==> t.dailyTracking == old(t.dailyTracking))
      && (remove <==> outcome in {Removed, NothingToRemove})
      && (outcome == Removed ==>
            date.Some? && MarkedOn(old(s.dailyTracking), date.value, offset)
            && s.dailyTracking == Unmark(old(s.dailyTracking), date.value, offset))
      && (outcome == NothingToRemove ==> date.None? || !MarkedOn(old(s.dailyTracking), date.value, offset))
      && (outcome == Added ==>
            date.Some? && workerId.Some? && !MarkedOn(old(s.dailyTracking), date.value, offset)
            && s.dailyTracking == Mark(old(s.dailyTracking), date.value, workerId.value, now, offset))
      && (outcome == AlreadyMarked ==> date.Some? && MarkedOn(old(s.dailyTracking), date.value, offset))
      && (outcome == NotSaved ==> !remove && (date.None? || workerId.None?))
  {
    var a := FindAssignment(assignments, roomStoryId);
    if a.None? {
      return NoAssignment;
    }
    var assignment := assignments[a.value];
    var k := FindService(assignment.services, serviceId);
    if k.None? {
      return NoService;
    }
    var service := assignment.services[k.value];
    assert assignment in assignments && service in assignment.services;
    assert service in AllServices(assignments);
    var existing := if date.Some? then DayIndex(service.dailyTracking, date.value, offset) else None;
    if remove {
      if existing.Some? {
        service.dailyTracking := service.dailyTracking[..existing.value] + service.dailyTracking[existing.value + 1..];
        outcome := Removed;
      } else {
        outcome := NothingToRemove;
      }
    } else if existing.None? {
      if date.None? || workerId.None? {
        // the new mark fails the document's validation and nothing is saved
        return NotSaved;
      }
      service.dailyTracking := service.dailyTracking + [Tracking(date.value, workerId.value, now)];
      outcome := Added;
    } else {
      outcome := AlreadyMarked;
    }
  }
}
