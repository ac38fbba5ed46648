/** Hospital rooms and room stays: creating and closing rooms, admitting a patient to a room,
    discharging a stay, and spreading a payment over the stay's unpaid days.

    Document ids are strings. The room collection is a map from id to room; the stay
    ("room story") collection is a sequence in collection order, so that `findOne` is the
    first match. The wall clock, the calendar and fresh ids are parameters: `today` is the
    number of the current calendar day, `now` the current instant. */
module Rooms {
  import opened Wrappers
  import Seqs

  type Id = string

  datatype Category = Luxury | Standard | Econom

  datatype Room = Room(
    roomNumber: int,
    floor: int,
    usersNumber: int,
    pricePerDay: int,
    category: Category,
    capacity: seq<Id>,   // ids of the stays occupying the room's places
    closeRoom: bool)

  /** One day of a stay: its number (from 1), its calendar day, what has been recorded as
      paid for it, and whether it is paid in full. */
  datatype PaidDay = PaidDay(day: nat, date: int, price: int, isPaid: bool)

  datatype Payment = Payment(amount: int, paymentType: string, date: int)

  /** A patient's stay in a room. */
  datatype RoomStory = RoomStory(
    id: Id,
    patientId: Id,
    roomId: Id,
    doctorId: Option<Id>,
    startDay: int,
    endDay: Option<int>,
    paidDays: seq<PaidDay>,
    payments: seq<Payment>,
    active: bool,
    createdAt: int)

  /** An income entry of the expense ledger created for a room payment. */
  datatype Expense = Expense(amount: int, paymentType: string, relevantId: Id)

  datatype RoomError =
    | RoomNumberTaken
    | RoomNotFound
    | PatientIdMissing
    | TreatingDaysMissing
    | InvalidId
    | PatientNotFound
    | DoctorNotFound
    | ActiveInOtherRoom(otherRoom: Id)
    | RoomFull
    | NotInRoom
    | NoActiveStory
    | PaymentIncomplete
    | UnregisteredModel

  predicate IsHexDigit(c: char) {
    '0' <= c <= '9' || 'a' <= c <= 'f' || 'A' <= c <= 'F'
  }

  /** `ObjectId.isValid` on a string: 24 hexadecimal characters. */
  predicate ObjectIdValid(s: string) {
    |s| == 24 && forall i :: 0 <= i < |s| ==> IsHexDigit(s[i])
  }

  // ---------------------------------------------------------------------------
  // Rooms
  // ---------------------------------------------------------------------------

  /** No two rooms share a number (the `unique` index on `roomNumber`). */
  predicate UniqueNumbers(rooms: map<Id, Room>) {
    forall a, b :: a in rooms && b in rooms && a != b ==> rooms[a].roomNumber != rooms[b].roomNumber
  }

  predicate NumberTaken(rooms: map<Id, Room>, roomNumber: int) {
    exists id :: id in rooms && rooms[id].roomNumber == roomNumber
  }

  /** `createRoom`: refused when a room already has the number, otherwise the room is stored
      under a fresh id. */
  function CreateRoom(rooms: map<Id, Room>, newId: Id, room: Room): (r: Result<map<Id, Room>, RoomError>)
    requires newId !in rooms
    ensures r.Failure? <==> NumberTaken(rooms, room.roomNumber)
    ensures r.Failure? ==> r.error == RoomNumberTaken
    ensures r.Success? ==> r.value == rooms[newId := room] && newId in r.value
  {
    if NumberTaken(rooms, room.roomNumber) then Failure(RoomNumberTaken)
    else Success(rooms[newId := room])
  }

  /** Creating rooms keeps room numbers unique. */
  lemma CreateRoomKeepsNumbersUnique(rooms: map<Id, Room>, newId: Id, room: Room)
    requires newId !in rooms && UniqueNumbers(rooms)
    ensures CreateRoom(rooms, newId, room).Success? ==> UniqueNumbers(CreateRoom(rooms, newId, room).value)
  {
  }

  /** `closeRoom`: flips the room's closed flag. */
  function CloseRoom(rooms: map<Id, Room>, id: Id): (r: Result<map<Id, Room>, RoomError>)
    ensures id !in rooms <==> r == Failure(RoomNotFound)
    ensures r.Success? ==>
      && r.value.Keys == rooms.Keys
      && r.value[id].closeRoom == !rooms[id].closeRoom
      && r.value[id] == rooms[id].(closeRoom := r.value[id].closeRoom)
      && forall other :: other in rooms && other != id ==> r.value[other] == rooms[other]
  {
    if id !in rooms then Failure(RoomNotFound)
    else Success(rooms[id := rooms[id].(closeRoom := !rooms[id].closeRoom)])
  }

  /** Closing a room twice restores it. */
  lemma CloseRoomTwiceRestores(rooms: map<Id, Room>, id: Id)
    requires id in rooms
    ensures CloseRoom(CloseRoom(rooms, id).value, id) == Success(rooms)
  {
    var once := CloseRoom(rooms, id).value;
    assert once[id := once[id].(closeRoom := !once[id].closeRoom)] == rooms;
  }

  // ---------------------------------------------------------------------------
  // Invariants relating rooms and stays
  // ---------------------------------------------------------------------------

  /** Every place a room lists is an active stay in that room. */
  predicate RoomsAgreeWithStories(rooms: map<Id, Room>, stories: seq<RoomStory>) {
    forall rid, sid :: rid in rooms && sid in rooms[rid].capacity ==>
      exists i :: 0 <= i < |stories| && stories[i].id == sid && stories[i].roomId == rid && stories[i].active
  }

  /** No room lists more places than it has. */
  predicate WithinCapacity(rooms: map<Id, Room>) {
    forall rid :: rid in rooms ==> |rooms[rid].capacity| <= rooms[rid].usersNumber
  }

  /** All active stays of one patient are in the same room. */
  predicate ActiveInOneRoom(stories: seq<RoomStory>) {
    forall i, j ::
      (0 <= i < |stories| && 0 <= j < |stories| && stories[i].active && stories[j].active
       && stories[i].patientId == stories[j].patientId) ==> stories[i].roomId == stories[j].roomId
  }

  predicate StoryIdsUnique(stories: seq<RoomStory>) {
    forall i, j :: 0 <= i < j < |stories| ==> stories[i].id != stories[j].id
  }

  /** The invariant of the rooms and stays collections. */
  predicate Valid(rooms: map<Id, Room>, stories: seq<RoomStory>) {
    && RoomsAgreeWithStories(rooms, stories)
    && WithinCapacity(rooms)
    && ActiveInOneRoom(stories)
    && StoryIdsUnique(stories)
  }

  predicate IsStoryId(stories: seq<RoomStory>, id: Id) {
    exists i :: 0 <= i < |stories| && stories[i].id == id
  }

  predicate Listed(rooms: map<Id, Room>, id: Id) {
    exists rid :: rid in rooms && id in rooms[rid].capacity
  }

  // ---------------------------------------------------------------------------
  // Admission
  // ---------------------------------------------------------------------------

  /** `RoomStory.findOne({patientId, active: true, roomId: {$ne: roomId}})`. */
  function ActiveElsewhere(stories: seq<RoomStory>, patientId: Id, roomId: Id): (r: Option<RoomStory>)
    ensures r.Some? ==> r.value in stories && r.value.patientId == patientId && r.value.active && r.value.roomId != roomId
    ensures r.None? ==> forall i :: 0 <= i < |stories| && stories[i].patientId == patientId && stories[i].active ==>
      stories[i].roomId == roomId
  {
    match Seqs.FirstIndex(stories, (s: RoomStory) => s.patientId == patientId && s.active && s.roomId != roomId)
    case None => None
    case Some(i) => Some(stories[i])
  }

  /** The checks of `addPatientToRoom`, in the source's order; `""` is a missing id. */
  function AdmissionCheck(
    patients: set<Id>, admins: set<Id>, rooms: map<Id, Room>, stories: seq<RoomStory>,
    roomId: Id, patientId: Id, treatingDays: int, doctorId: Id): (r: Option<RoomError>)
    ensures patientId == "" ==> r == Some(PatientIdMissing)
    ensures patientId != "" && treatingDays < 1 ==> r == Some(TreatingDaysMissing)
    ensures r.None? <==>
      && patientId != "" && treatingDays >= 1 && ObjectIdValid(patientId)
      && patientId in patients && roomId in rooms
      && (doctorId != "" ==> doctorId in admins)
      && ActiveElsewhere(stories, patientId, roomId).None?
      && |rooms[roomId].capacity| < rooms[roomId].usersNumber
  {
    if patientId == "" then Some(PatientIdMissing)
    else if treatingDays < 1 then Some(TreatingDaysMissing)
    else if !ObjectIdValid(patientId) then Some(InvalidId)
    else if patientId !in patients then Some(PatientNotFound)
    else if roomId !in rooms then Some(RoomNotFound)
    else if doctorId != "" && doctorId !in admins then Some(DoctorNotFound)
    else if ActiveElsewhere(stories, patientId, roomId).Some? then
      Some(ActiveInOtherRoom(ActiveElsewhere(stories, patientId, roomId).value.roomId))
    else if |rooms[roomId].capacity| >= rooms[roomId].usersNumber then Some(RoomFull)
    else None
  }

  /** The checks of `addPatientToRoom` as the text reads: the doctor is looked up through a
      model named "Admins", while the staff model is registered as "Admin", so the lookup of a
      given doctor throws and the request ends as a server error, after the id checks and
      before the patient, room and doctor are examined. */
  function AdmissionCheckAsWritten(
    patients: set<Id>, admins: set<Id>, rooms: map<Id, Room>, stories: seq<RoomStory>,
    roomId: Id, patientId: Id, treatingDays: int, doctorId: Id): (r: Option<RoomError>)
    ensures doctorId == "" ==> r == AdmissionCheck(patients, admins, rooms, stories, roomId, patientId, treatingDays, "")
    ensures doctorId != "" ==> r.Some?
    ensures doctorId != "" ==>
      (r == Some(UnregisteredModel) <==> patientId != "" && treatingDays >= 1 && ObjectIdValid(patientId))
  {
    if patientId == "" then Some(PatientIdMissing)
    else if treatingDays < 1 then Some(TreatingDaysMissing)
    else if !ObjectIdValid(patientId) then Some(InvalidId)
    else if doctorId != "" then Some(UnregisteredModel)
    else AdmissionCheck(patients, admins, rooms, stories, roomId, patientId, treatingDays, doctorId)
  }

  /** An admission with a known doctor, which the intended check accepts, is refused as
      written. */
  lemma KnownDoctorRefusedAsWritten(
    patients: set<Id>, admins: set<Id>, rooms: map<Id, Room>, stories: seq<RoomStory>,
    roomId: Id, patientId: Id, treatingDays: int, doctorId: Id)
    requires doctorId != "" && AdmissionCheck(patients, admins, rooms, stories, roomId, patientId, treatingDays, doctorId).None?
    ensures doctorId in admins
    ensures AdmissionCheckAsWritten(patients, admins, rooms, stories, roomId, patientId, treatingDays, doctorId)
      == Some(UnregisteredModel)
  {
  }

  /** The unpaid days of a new stay: day `i + 1` falls on calendar day `today + i`. */
  method BuildPaidDays(treatingDays: nat, today: int) returns (days: seq<PaidDay>)
    ensures |days| == treatingDays
    ensures forall i :: 0 <= i < treatingDays ==> days[i] == PaidDay(i + 1, today + i, 0, false)
  {
    days := [];
    var i := 0;
    while i < treatingDays
      invariant 0 <= i <= treatingDays
      invariant |days| == i
      invariant forall k :: 0 <= k < i ==> days[k] == PaidDay(k + 1, today + k, 0, false)
    {
      days := days + [PaidDay(i + 1, today + i, 0, false)];
      i := i + 1;
    }
  }

  /** `addPatientToRoom`: after the checks, a new active stay with `treatingDays` unpaid days
      is appended and its id is added to the room's places. */
  method AddPatientToRoom(
    patients: set<Id>, admins: set<Id>, rooms: map<Id, Room>, stories: seq<RoomStory>,
    roomId: Id, patientId: Id, treatingDays: int, doctorId: Id, newStoryId: Id, today: int, now: int)
    returns (r: Result<RoomStory, RoomError>, rooms': map<Id, Room>, stories': seq<RoomStory>)
    requires !IsStoryId(stories, newStoryId) && !Listed(rooms, newStoryId)
    ensures var check := AdmissionCheck(patients, admins, rooms, stories, roomId, patientId, treatingDays, doctorId);
      && (check.Some? <==> r.Failure?)
      && (check.Some? ==> r.error == check.value && rooms' == rooms && stories' == stories)
    ensures r.Success? ==>
      && r.value.id == newStoryId && r.value.patientId == patientId && r.value.roomId == roomId
      && r.value.doctorId == (if doctorId == "" then None else Some(doctorId))
      && r.value.startDay == now && r.value.endDay.None? && r.value.createdAt == now
      && r.value.active && r.value.payments == []
      && |r.value.paidDays| == treatingDays
      && (forall i :: 0 <= i < treatingDays ==> r.value.paidDays[i] == PaidDay(i + 1, today + i, 0, false))
      && stories' == stories + [r.value]
      && rooms' == rooms[roomId := rooms[roomId].(capacity := rooms[roomId].capacity + [newStoryId])]
    ensures Valid(rooms, stories) ==> Valid(rooms', stories')
  {
    rooms', stories' := rooms, stories;
    var check := AdmissionCheck(patients, admins, rooms, stories, roomId, patientId, treatingDays, doctorId);
    if check.Some? {
      return Failure(check.value), rooms', stories';
    }
    var paidDays := BuildPaidDays(treatingDays, today);
    var story := RoomStory(newStoryId, patientId, roomId, if doctorId == "" then None else Some(doctorId),
                           now, None, paidDays, [], true, now);
    stories' := stories + [story];
    var room := rooms[roomId];
    rooms' := rooms[roomId := room.(capacity := room.capacity + [newStoryId])];
    r := Success(story);
    if Valid(rooms, stories) {
      AdmissionKeepsValid(rooms, stories, story, roomId);
    }
  }

  lemma AdmissionKeepsValid(rooms: map<Id, Room>, stories: seq<RoomStory>, story: RoomStory, roomId: Id)
    requires Valid(rooms, stories)
    requires roomId in rooms && |rooms[roomId].capacity| < rooms[roomId].usersNumber
    requires story.roomId == roomId && story.active && !IsStoryId(stories, story.id)
    requires ActiveElsewhere(stories, story.patientId, roomId).None?
    ensures Valid(rooms[roomId := rooms[roomId].(capacity := rooms[roomId].capacity + [story.id])], stories + [story])
  {
    var rooms' := rooms[roomId := rooms[roomId].(capacity := rooms[roomId].capacity + [story.id])];
    var stories' := stories + [story];
    forall rid, sid | rid in rooms' && sid in rooms'[rid].capacity
      ensures exists i :: 0 <= i < |stories'| && stories'[i].id == sid && stories'[i].roomId == rid && stories'[i].active
    {
      if rid == roomId && sid == story.id {
        assert stories'[|stories|] == story;
      } else {
        assert sid in rooms[rid].capacity;
        var i :| 0 <= i < |stories| && stories[i].id == sid && stories[i].roomId == rid && stories[i].active;
        assert stories'[i] == stories[i];
      }
    }
    forall i, j | 0 <= i < |stories'| && 0 <= j < |stories'| && stories'[i].active && stories'[j].active
        && stories'[i].patientId == stories'[j].patientId
      ensures stories'[i].roomId == stories'[j].roomId
    {
      if i < |stories| && j < |stories| {
        assert stories'[i] == stories[i] && stories'[j] == stories[j];
      } else if i < |stories| {
        assert stories'[i] == stories[i];
      } else if j < |stories| {
        assert stories'[j] == stories[j];
      }
    }
    forall i, j | 0 <= i < j < |stories'|
      ensures stories'[i].id != stories'[j].id
    {
      assert stories'[i] == stories[i];
      if j < |stories| {
        assert stories'[j] == stories[j];
      }
    }
  }

  /** A patient already active in a room may be admitted to that same room again: only
      other rooms are checked. */
  lemma ReadmissionToSameRoomPassesCheck(
    patients: set<Id>, admins: set<Id>, rooms: map<Id, Room>, stories: seq<RoomStory>,
    roomId: Id, patientId: Id, treatingDays: int)
    requires treatingDays >= 1 && ObjectIdValid(patientId) && patientId in patients
    requires roomId in rooms && |rooms[roomId].capacity| < rooms[roomId].usersNumber
    requires forall i :: 0 <= i < |stories| && stories[i].patientId == patientId && stories[i].active ==> stories[i].roomId == roomId
    ensures AdmissionCheck(patients, admins, rooms, stories, roomId, patientId, treatingDays, "").None?
  {
  }

  // ---------------------------------------------------------------------------
  // Discharge
  // ---------------------------------------------------------------------------

  /** `RoomStory.findOne({roomId, _id: storyId, active: true})`. */
  function ActiveStoryIndex(stories: seq<RoomStory>, roomId: Id, storyId: Id): (r: Option<nat>)
    ensures r.Some? ==>
      r.value < |stories| && stories[r.value].id == storyId && stories[r.value].roomId == roomId && stories[r.value].active
    ensures r.None? ==> forall i :: 0 <= i < |stories| ==>
      !(stories[i].id == storyId && stories[i].roomId == roomId && stories[i].active)
  {
    Seqs.FirstIndex(stories, (s: RoomStory) => s.id == storyId && s.roomId == roomId && s.active)
  }

  /** `removePatientFromRoom`: the request names the stay by its id. Refused for a malformed
      id, an unknown room, a stay the room does not list, or no matching active stay;
      otherwise the stay is closed at `now` and every occurrence of its id leaves the room, the other ids keeping their order. */
  function RemovePatientFromRoom(rooms: map<Id, Room>, stories: seq<RoomStory>, roomId: Id, storyId: Id, now: int)
    : (r: Result<(map<Id, Room>, seq<RoomStory>), RoomError>)
    ensures !ObjectIdValid(storyId) ==> r == Failure(InvalidId)
    ensures ObjectIdValid(storyId) && roomId !in rooms ==> r == Failure(RoomNotFound)
    ensures ObjectIdValid(storyId) && roomId in rooms && storyId !in rooms[roomId].capacity ==> r == Failure(NotInRoom)
    ensures r.Success? <==>
      ObjectIdValid(storyId) && roomId in rooms && storyId in rooms[roomId].capacity
      && ActiveStoryIndex(stories, roomId, storyId).Some?
    ensures r.Success? ==>
      var i := ActiveStoryIndex(stories, roomId, storyId).value;
      var (rooms', stories') := r.value;
      && stories' == stories[i := stories[i].(active := false, endDay := Some(now))]
      && rooms'.Keys == rooms.Keys
      && storyId !in rooms'[roomId].capacity
      && multiset(rooms'[roomId].capacity) == multiset(rooms[roomId].capacity)[storyId := 0]
      && Seqs.IsSubsequence(rooms'[roomId].capacity, rooms[roomId].capacity)
      && rooms'[roomId] == rooms[roomId].(capacity := rooms'[roomId].capacity)
      && (forall other :: other in rooms && other != roomId ==> rooms'[other] == rooms[other])
  {
    if !ObjectIdValid(storyId) then Failure(InvalidId)
    else if roomId !in rooms then Failure(RoomNotFound)
    else if storyId !in rooms[roomId].capacity then Failure(NotInRoom)
    else
      match ActiveStoryIndex(stories, roomId, storyId)
      case None => Failure(NoActiveStory)
      case Some(i) =>
        Seqs.RemoveAllMultiset(rooms[roomId].capacity, storyId);
        Seqs.RemoveAllKeepsOrder(rooms[roomId].capacity, storyId);
        var room := rooms[roomId];
        Success((rooms[roomId := room.(capacity := Seqs.RemoveAll(room.capacity, storyId))],
                 stories[i := stories[i].(active := false, endDay := Some(now))]))
  }

  /** Discharge keeps the collections consistent, and frees a place in the room. */
  lemma RemoveKeepsValid(rooms: map<Id, Room>, stories: seq<RoomStory>, roomId: Id, storyId: Id, now: int)
    requires Valid(rooms, stories)
    requires RemovePatientFromRoom(rooms, stories, roomId, storyId, now).Success?
    ensures var (rooms', stories') := RemovePatientFromRoom(rooms, stories, roomId, storyId, now).value;
      Valid(rooms', stories') && |rooms'[roomId].capacity| < |rooms[roomId].capacity|
  {
    var j := ActiveStoryIndex(stories, roomId, storyId).value;
    var (rooms', stories') := RemovePatientFromRoom(rooms, stories, roomId, storyId, now).value;
    forall sid | sid in rooms'[roomId].capacity
      ensures sid in rooms[roomId].capacity
    {
      assert sid in multiset(rooms'[roomId].capacity);
    }
    RemoveKeepsAgreement(rooms, stories, roomId, storyId, j, Some(now), rooms', stories');
    var cap := rooms[roomId].capacity;
    Seqs.RemoveAllMultiset(cap, storyId);
    assert storyId in multiset(cap);
    assert |multiset(rooms'[roomId].capacity)| < |multiset(cap)|;
    forall rid | rid in rooms'
      ensures |rooms'[rid].capacity| <= rooms'[rid].usersNumber
    {
      if rid != roomId {
        assert rooms'[rid] == rooms[rid];
      }
    }
    DeactivateKeepsOneRoom(stories, j, stories'[j]);
  }

  lemma RemoveKeepsAgreement(
    rooms: map<Id, Room>, stories: seq<RoomStory>, roomId: Id, storyId: Id, j: nat,
    endDay: Option<int>, rooms': map<Id, Room>, stories': seq<RoomStory>)
    requires RoomsAgreeWithStories(rooms, stories) && StoryIdsUnique(stories)
    requires j < |stories| && stories[j].id == storyId && stories[j].roomId == roomId
    requires stories' == stories[j := stories[j].(active := false, endDay := endDay)]
    requires roomId in rooms && rooms'.Keys == rooms.Keys && storyId !in rooms'[roomId].capacity
    requires forall sid :: sid in rooms'[roomId].capacity ==> sid in rooms[roomId].capacity
    requires forall other :: other in rooms && other != roomId ==> rooms'[other] == rooms[other]
    ensures RoomsAgreeWithStories(rooms', stories') && StoryIdsUnique(stories')
  {
    forall rid, sid | rid in rooms' && sid in rooms'[rid].capacity
      ensures exists i :: 0 <= i < |stories'| && stories'[i].id == sid && stories'[i].roomId == rid && stories'[i].active
    {
      assert sid in rooms[rid].capacity;
      var i :| 0 <= i < |stories| && stories[i].id == sid && stories[i].roomId == rid && stories[i].active;
      assert i != j;
      assert stories'[i] == stories[i];
    }
    forall a, b | 0 <= a < b < |stories'|
      ensures stories'[a].id != stories'[b].id
    {
      assert stories'[a].id == stories[a].id && stories'[b].id == stories[b].id;
    }
  }

  /** Closing or updating a stay without moving it keeps each patient's active stays in one room. */
  lemma DeactivateKeepsOneRoom(stories: seq<RoomStory>, j: nat, s: RoomStory)
    requires ActiveInOneRoom(stories) && j < |stories|
    requires s.patientId == stories[j].patientId && s.roomId == stories[j].roomId
    requires s.active ==> stories[j].active
    ensures ActiveInOneRoom(stories[j := s])
  {
    var stories' := stories[j := s];
    forall a, b | 0 <= a < |stories'| && 0 <= b < |stories'| && stories'[a].active && stories'[b].active
        && stories'[a].patientId == stories'[b].patientId
      ensures stories'[a].roomId == stories'[b].roomId
    {
      assert stories[a].active && stories[b].active;
      assert stories'[a].roomId == stories[a].roomId && stories'[b].roomId == stories[b].roomId;
    }
  }

  // ---------------------------------------------------------------------------
  // Payment
  // ---------------------------------------------------------------------------

  /** The outcome of spreading a payment over the days of a stay. */
  datatype Allocation = Allocation(days: seq<PaidDay>, remaining: int)

  /** One turn of the payment loop: the day as it is left, the money left, and whether the
      loop stops there. */
  datatype DayStep = DayStep(day: PaidDay, remaining: int, stop: bool)

  /** The body of the payment loop of `payForRoom`, as written: a paid day is skipped; an
      unpaid day is set to the full price and marked paid when the money covers it; otherwise
      it is set to what is left and the loop stops; with nothing left the loop stops. */
  function PayDay(d: PaidDay, remaining: int, price: int): (s: DayStep)
    ensures s.day.day == d.day && s.day.date == d.date
    ensures d.isPaid ==> s == DayStep(d, remaining, false)
    ensures !d.isPaid && !s.stop ==> s.day.isPaid && s.day.price == price && s.remaining == remaining - price
    ensures s.stop ==> !d.isPaid && !s.day.isPaid && s.remaining == if remaining > 0 then 0 else remaining
  {
    if d.isPaid then DayStep(d, remaining, false)
    else if remaining >= price then DayStep(d.(price := price, isPaid := true), remaining - price, false)
    else if remaining > 0 then DayStep(d.(price := remaining, isPaid := false), 0, true)
    else DayStep(d, remaining, true)
  }

  /** The whole payment loop over the days, in order, as written. */
  function Allocate(days: seq<PaidDay>, remaining: int, price: int): (a: Allocation)
    ensures |a.days| == |days|
  {
    if days == [] then Allocation(days, remaining)
    else
      var s := PayDay(days[0], remaining, price);
      if s.stop then Allocation([s.day] + days[1..], s.remaining)
      else
        var rest := Allocate(days[1..], s.remaining, price);
        Allocation([s.day] + rest.days, rest.remaining)
  }

  /** What the payment loop leaves alone and what it leaves over: day numbers and dates
      never change, paid days are untouched, money is left only once every day is paid, with
      a positive price and no money nothing changes, and the leftover never exceeds the amount. */
  lemma {:induction false} AllocateShape(days: seq<PaidDay>, remaining: int, price: int)
    ensures var a := Allocate(days, remaining, price);
      && (forall i :: 0 <= i < |days| ==> a.days[i].day == days[i].day && a.days[i].date == days[i].date)
      && (forall i :: 0 <= i < |days| && days[i].isPaid ==> a.days[i] == days[i])
      && (a.remaining > 0 ==> forall i :: 0 <= i < |days| ==> a.days[i].isPaid)
      && (price > 0 && remaining <= 0 ==> a == Allocation(days, remaining))
      && (price >= 0 && remaining >= 0 ==> 0 <= a.remaining <= remaining)
  {
    if days != [] {
      var s := PayDay(days[0], remaining, price);
      var a := Allocate(days, remaining, price);
      if !s.stop {
        AllocateShape(days[1..], s.remaining, price);
        var rest := Allocate(days[1..], s.remaining, price);
        forall i | 1 <= i < |days|
          ensures a.days[i] == rest.days[i - 1] && days[i] == days[1..][i - 1]
        {
        }
      } else {
        forall i | 1 <= i < |days|
          ensures a.days[i] == days[i]
        {
        }
      }
    }
  }

  /** The loop as written pays the days in order: a day changes only when every day before
      it ends up paid. */
  lemma {:induction false} AllocateInOrder(days: seq<PaidDay>, remaining: int, price: int, i: nat, j: nat)
    requires j < i < |days| && Allocate(days, remaining, price).days[i] != days[i]
    ensures Allocate(days, remaining, price).days[j].isPaid
  {
    var s := PayDay(days[0], remaining, price);
    var a := Allocate(days, remaining, price);
    if !s.stop {
      var rest := Allocate(days[1..], s.remaining, price);
      assert a.days[i] == rest.days[i - 1] && days[i] == days[1..][i - 1];
      if j > 0 {
        AllocateInOrder(days[1..], s.remaining, price, i - 1, j - 1);
        assert a.days[j] == rest.days[j - 1];
      } else {
        assert a.days[0] == s.day;
      }
    }
  }

  /** A day the loop as written changes but leaves unpaid is the last day it touches: it
      holds the whole rest of the money, less than the price, and every later day is as it
      was. */
  lemma {:induction false} AllocateStopsAtPartialDay(days: seq<PaidDay>, remaining: int, price: int, i: nat)
    requires i < |days|
    requires var a := Allocate(days, remaining, price); a.days[i] != days[i] && !a.days[i].isPaid
    ensures var a := Allocate(days, remaining, price);
      && 0 < a.days[i].price < price && a.remaining == 0
      && forall j :: i < j < |days| ==> a.days[j] == days[j]
  {
    var s := PayDay(days[0], remaining, price);
    var a := Allocate(days, remaining, price);
    if s.stop {
      forall j | 0 < j < |days|
        ensures a.days[j] == days[j]
      {
      }
    } else {
      var rest := Allocate(days[1..], s.remaining, price);
      assert a.days[i] == rest.days[i - 1] && days[i] == days[1..][i - 1];
      AllocateStopsAtPartialDay(days[1..], s.remaining, price, i - 1);
      forall j | i < j < |days|
        ensures a.days[j] == days[j]
      {
        assert a.days[j] == rest.days[j - 1] && days[j] == days[1..][j - 1];
      }
    }
  }

  /** At most one day is left partly paid by one run of the loop as written. */
  lemma OnePartialDayPerPayment(days: seq<PaidDay>, remaining: int, price: int, i: nat, j: nat)
    requires i < |days| && j < |days|
    requires var a := Allocate(days, remaining, price);
      && a.days[i] != days[i] && !a.days[i].isPaid
      && a.days[j] != days[j] && !a.days[j].isPaid
    ensures i == j
  {
    if i < j {
      AllocateStopsAtPartialDay(days, remaining, price, i);
    } else if j < i {
      AllocateStopsAtPartialDay(days, remaining, price, j);
    }
  }

  /** The sum of the prices recorded on the days. */
  function SumPrices(days: seq<PaidDay>): int {
    if days == [] then 0 else days[0].price + SumPrices(days[1..])
  }

  /** Every unpaid day still has nothing recorded: the state a stay is admitted in. */
  predicate NoPartialDays(days: seq<PaidDay>) {
    forall i :: 0 <= i < |days| && !days[i].isPaid ==> days[i].price == 0
  }

  lemma NoPartialDaysTail(days: seq<PaidDay>)
    requires days != [] && NoPartialDays(days)
    ensures NoPartialDays(days[1..])
  {
    forall i | 0 <= i < |days[1..]| && !days[1..][i].isPaid
      ensures days[1..][i].price == 0
    {
      assert days[1..][i] == days[i + 1];
    }
  }

  /** On days with no partial payment recorded, the amount consumed by the loop is exactly
      what it adds to the recorded prices. */
  lemma {:induction false} AllocateCreditsFreshDays(days: seq<PaidDay>, remaining: int, price: int)
    requires NoPartialDays(days)
    ensures var a := Allocate(days, remaining, price); SumPrices(a.days) == SumPrices(days) + remaining - a.remaining
  {
    if days != [] {
      var s := PayDay(days[0], remaining, price);
      var a := Allocate(days, remaining, price);
      if !s.stop {
        NoPartialDaysTail(days);
        AllocateCreditsFreshDays(days[1..], s.remaining, price);
        assert a.days[1..] == Allocate(days[1..], s.remaining, price).days;
      } else {
        assert a.days[1..] == days[1..];
      }
      assert SumPrices(a.days) == a.days[0].price + SumPrices(a.days[1..]);
    }
  }

  /** Two payments of 50 on a fresh one-day stay at 100 a day: the second payment overwrites
      the first, and the day stays unpaid with 50 recorded although 100 was paid. */
  lemma SecondPartialPaymentIsLost(date: int)
    ensures var first := Allocate([PaidDay(1, date, 0, false)], 50, 100);
      var second := Allocate(first.days, 50, 100);
      && first.remaining == 0 && second.remaining == 0
      && second.days == [PaidDay(1, date, 50, false)]
      && SumPrices(second.days) == 50
  {
  }

  /** The loop body crediting each unpaid day with what it still lacks, so that a partly
      paid day is topped up rather than overwritten. */
  function PayDayTopUp(d: PaidDay, remaining: int, price: int): (s: DayStep)
    ensures s.day.day == d.day && s.day.date == d.date
    ensures d.isPaid ==> s == DayStep(d, remaining, false)
    ensures !d.isPaid && !s.stop ==> s.day.isPaid && s.day.price == price && s.remaining == remaining - (price - d.price)
    ensures s.stop ==> !d.isPaid && !s.day.isPaid && s.remaining == if remaining > 0 then 0 else remaining
  {
    var need := price - d.price;
    if d.isPaid then DayStep(d, remaining, false)
    else if remaining >= need then DayStep(d.(price := price, isPaid := true), remaining - need, false)
    else if remaining > 0 then DayStep(d.(price := d.price + remaining, isPaid := false), 0, true)
    else DayStep(d, remaining, true)
  }

  /** The payment loop with top-ups. */
  function AllocateTopUp(days: seq<PaidDay>, remaining: int, price: int): (a: Allocation)
    ensures |a.days| == |days|
  {
    if days == [] then Allocation(days, remaining)
    else
      var s := PayDayTopUp(days[0], remaining, price);
      if s.stop then Allocation([s.day] + days[1..], s.remaining)
      else
        var rest := AllocateTopUp(days[1..], s.remaining, price);
        Allocation([s.day] + rest.days, rest.remaining)
  }

  /** Every unpaid day still lacks part of the price. */
  predicate Lacking(days: seq<PaidDay>, price: int) {
    forall i :: 0 <= i < |days| && !days[i].isPaid ==> days[i].price < price
  }

  /** What the top-up loop leaves alone and what it leaves over: day numbers and dates never
      change, paid days are untouched, a day it marks paid holds the full price, money is left
      only once every day is paid, without money nothing changes, and the leftover never
      exceeds the amount. */
  lemma {:induction false} TopUpShape(days: seq<PaidDay>, remaining: int, price: int)
    ensures var a := AllocateTopUp(days, remaining, price);
      && (forall i :: 0 <= i < |days| ==> a.days[i].day == days[i].day && a.days[i].date == days[i].date)
      && (forall i :: 0 <= i < |days| && days[i].isPaid ==> a.days[i] == days[i])
      && (forall i :: 0 <= i < |days| && !days[i].isPaid && a.days[i].isPaid ==> a.days[i].price == price)
      && (a.remaining > 0 ==> forall i :: 0 <= i < |days| ==> a.days[i].isPaid)
      && (Lacking(days, price) && remaining <= 0 ==> a == Allocation(days, remaining))
      && (Lacking(days, price) && remaining >= 0 ==> 0 <= a.remaining <= remaining)
  {
    if days != [] {
      var s := PayDayTopUp(days[0], remaining, price);
      var a := AllocateTopUp(days, remaining, price);
      if !s.stop {
        if Lacking(days, price) {
          forall i | 0 <= i < |days[1..]| && !days[1..][i].isPaid
            ensures days[1..][i].price < price
          {
            assert days[1..][i] == days[i + 1];
          }
        }
        TopUpShape(days[1..], s.remaining, price);
        var rest := AllocateTopUp(days[1..], s.remaining, price);
        forall i | 1 <= i < |days|
          ensures a.days[i] == rest.days[i - 1] && days[i] == days[1..][i - 1]
        {
        }
      } else {
        forall i | 1 <= i < |days|
          ensures a.days[i] == days[i]
        {
        }
      }
    }
  }

  /** The days are paid in order: a day changes only when every day before it ends up paid. */
  lemma {:induction false} TopUpInOrder(days: seq<PaidDay>, remaining: int, price: int, i: nat, j: nat)
    requires j < i < |days| && AllocateTopUp(days, remaining, price).days[i] != days[i]
    ensures AllocateTopUp(days, remaining, price).days[j].isPaid
  {
    var s := PayDayTopUp(days[0], remaining, price);
    var a := AllocateTopUp(days, remaining, price);
    if !s.stop {
      var rest := AllocateTopUp(days[1..], s.remaining, price);
      assert a.days[i] == rest.days[i - 1] && days[i] == days[1..][i - 1];
      if j > 0 {
        TopUpInOrder(days[1..], s.remaining, price, i - 1, j - 1);
        assert a.days[j] == rest.days[j - 1];
      } else {
        assert a.days[0] == s.day;
      }
    }
  }

  /** A day the top-up loop changes but leaves unpaid is the last day it touches: it gains the
      whole rest of the money and still lacks part of the price, and every later day is as it
      was. */
  lemma {:induction false} TopUpStopsAtPartialDay(days: seq<PaidDay>, remaining: int, price: int, i: nat)
    requires i < |days|
    requires var a := AllocateTopUp(days, remaining, price); a.days[i] != days[i] && !a.days[i].isPaid
    ensures var a := AllocateTopUp(days, remaining, price);
      && days[i].price < a.days[i].price < price && a.remaining == 0
      && forall j :: i < j < |days| ==> a.days[j] == days[j]
  {
    var s := PayDayTopUp(days[0], remaining, price);
    var a := AllocateTopUp(days, remaining, price);
    if s.stop {
      forall j | 0 < j < |days|
        ensures a.days[j] == days[j]
      {
      }
    } else {
      var rest := AllocateTopUp(days[1..], s.remaining, price);
      assert a.days[i] == rest.days[i - 1] && days[i] == days[1..][i - 1];
      TopUpStopsAtPartialDay(days[1..], s.remaining, price, i - 1);
      forall j | i < j < |days|
        ensures a.days[j] == days[j]
      {
        assert a.days[j] == rest.days[j - 1] && days[j] == days[1..][j - 1];
      }
    }
  }

  /** At most one day is left partly paid by one run of the top-up loop. */
  lemma TopUpOnePartialDay(days: seq<PaidDay>, remaining: int, price: int, i: nat, j: nat)
    requires i < |days| && j < |days|
    requires var a := AllocateTopUp(days, remaining, price);
      && a.days[i] != days[i] && !a.days[i].isPaid
      && a.days[j] != days[j] && !a.days[j].isPaid
    ensures i == j
  {
    if i < j {
      TopUpStopsAtPartialDay(days, remaining, price, i);
    } else if j < i {
      TopUpStopsAtPartialDay(days, remaining, price, j);
    }
  }

  /** With top-ups, every amount consumed is added to the recorded prices, whatever the days hold. */
  lemma {:induction false} TopUpCreditsEveryPayment(days: seq<PaidDay>, remaining: int, price: int)
    ensures var a := AllocateTopUp(days, remaining, price); SumPrices(a.days) == SumPrices(days) + remaining - a.remaining
  {
    if days != [] {
      var s := PayDayTopUp(days[0], remaining, price);
      var a := AllocateTopUp(days, remaining, price);
      if !s.stop {
        TopUpCreditsEveryPayment(days[1..], s.remaining, price);
        assert a.days[1..] == AllocateTopUp(days[1..], s.remaining, price).days;
      } else {
        assert a.days[1..] == days[1..];
      }
      assert SumPrices(a.days) == a.days[0].price + SumPrices(a.days[1..]);
    }
  }

  /** On fresh days the top-up loop behaves exactly like the loop as written. */
  lemma {:induction false} TopUpAgreesOnFreshDays(days: seq<PaidDay>, remaining: int, price: int)
    requires NoPartialDays(days)
    ensures AllocateTopUp(days, remaining, price) == Allocate(days, remaining, price)
  {
    if days != [] {
      NoPartialDaysTail(days);
      TopUpAgreesOnFreshDays(days[1..], PayDay(days[0], remaining, price).remaining, price);
    }
  }

  /** With top-ups the two payments of 50 pay the day in full. */
  lemma TwoHalfPaymentsPayTheDay(date: int)
    ensures var first := AllocateTopUp([PaidDay(1, date, 0, false)], 50, 100);
      var second := AllocateTopUp(first.days, 50, 100);
      second.days == [PaidDay(1, date, 100, true)] && second.remaining == 0
  {
  }

  /** The loop of `payForRoom` on the stay's days, in place, with the top-up step. */
  method SpreadPayment(a: array<PaidDay>, amount: int, price: int) returns (remaining: int)
    modifies a
    ensures a[..] == AllocateTopUp(old(a[..]), amount, price).days
    ensures remaining == AllocateTopUp(old(a[..]), amount, price).remaining
  {
    ghost var orig := a[..];
    remaining := amount;
    var i := 0;
    assert a[..0] == [] && orig[0..] == orig;
    assert [] + AllocateTopUp(orig, amount, price).days == AllocateTopUp(orig, amount, price).days;
    while i < a.Length
      invariant 0 <= i <= a.Length == |orig|
      invariant a[i..] == orig[i..]
      invariant AllocateTopUp(orig, amount, price) == Resume(a[..i], orig[i..], remaining, price)
    {
      ghost var done, rest := a[..i], orig[i..];
      assert rest[0] == a[i];
      assert rest[1..] == orig[i + 1..];
      ResumeStep(done, rest, remaining, price);
      var step := PayDayTopUp(a[i], remaining, price);
      a[i] := step.day;
      remaining := step.remaining;
      assert a[..i + 1] == done + [step.day];
      assert a[i + 1..] == orig[i + 1..];
      if step.stop {
        assert a[..] == a[..i + 1] + a[i + 1..];
        return;
      }
      i := i + 1;
    }
    assert a[..] == a[..i] && orig[i..] == [];
    assert a[..i] + [] == a[..i];
  }

  /** The allocation of the whole stay once the days in `done` have been handled and the
      loop resumes on `rest` with `remaining` left. */
  function Resume(done: seq<PaidDay>, rest: seq<PaidDay>, remaining: int, price: int): Allocation {
    var tail := AllocateTopUp(rest, remaining, price);
    Allocation(done + tail.days, tail.remaining)
  }

  /** One turn of the payment loop, in terms of `Resume`. */
  lemma ResumeStep(done: seq<PaidDay>, rest: seq<PaidDay>, remaining: int, price: int)
    requires rest != []
    ensures var s := PayDayTopUp(rest[0], remaining, price);
      Resume(done, rest, remaining, price)
        == if s.stop then Allocation(done + [s.day] + rest[1..], s.remaining)
           else Resume(done + [s.day], rest[1..], s.remaining, price)
  {
    var s := PayDayTopUp(rest[0], remaining, price);
    var t := AllocateTopUp(rest[1..], s.remaining, price);
    assert done + ([s.day] + t.days) == (done + [s.day]) + t.days;
    assert done + ([s.day] + rest[1..]) == done + [s.day] + rest[1..];
  }

  /** `RoomStory.findOne({patientId, active: true})`. */
  function ActiveStayOf(stories: seq<RoomStory>, patientId: Id): (r: Option<nat>)
    ensures r.Some? ==> r.value < |stories| && stories[r.value].patientId == patientId && stories[r.value].active
    ensures r.None? ==> forall i :: 0 <= i < |stories| ==> !(stories[i].patientId == patientId && stories[i].active)
  {
    Seqs.FirstIndex(stories, (s: RoomStory) => s.patientId == patientId && s.active)
  }

  /** `payForRoom`: refused without a patient id or with a zero amount, without an active
      stay, or when the stay's room is gone. Otherwise the amount is spread over the stay's
      days at the room's price (topping up a partly paid day, where the code overwrites it), the payment is appended to the stay and an income entry is
      appended to the expense ledger; no other stay changes. */
  method PayForRoom(
    rooms: map<Id, Room>, stories: seq<RoomStory>, expenses: seq<Expense>,
    patientId: Id, amount: int, paymentType: string, now: int)
    returns (r: Result<RoomStory, RoomError>, stories': seq<RoomStory>, expenses': seq<Expense>)
    ensures patientId == "" || amount == 0 ==> r == Failure(PaymentIncomplete)
    ensures patientId != "" && amount != 0 && ActiveStayOf(stories, patientId).None? ==> r == Failure(NoActiveStory)
    ensures r.Failure? ==> stories' == stories && expenses' == expenses
    ensures r.Success? <==>
      patientId != "" && amount != 0 && ActiveStayOf(stories, patientId).Some?
      && stories[ActiveStayOf(stories, patientId).value].roomId in rooms
    ensures r.Success? ==>
      var i := ActiveStayOf(stories, patientId).value;
      var stay := stories[i];
      var a := AllocateTopUp(stay.paidDays, amount, rooms[stay.roomId].pricePerDay);
      && r.value == stay.(paidDays := a.days, payments := stay.payments + [Payment(amount, paymentType, now)])
      && stories' == stories[i := r.value]
      && expenses' == expenses + [Expense(amount, paymentType, stay.id)]
    ensures Valid(rooms, stories) ==> Valid(rooms, stories')
  {
    stories', expenses' := stories, expenses;
    if patientId == "" || amount == 0 {
      return Failure(PaymentIncomplete), stories', expenses';
    }
    var found := ActiveStayOf(stories, patientId);
    if found.None? {
      return Failure(NoActiveStory), stories', expenses';
    }
    var stay := stories[found.value];
    if stay.roomId !in rooms {
      return Failure(RoomNotFound), stories', expenses';
    }
    var days := new PaidDay[|stay.paidDays|](k requires 0 <= k < |stay.paidDays| => stay.paidDays[k]);
    assert days[..] == stay.paidDays;
    var left := SpreadPayment(days, amount, rooms[stay.roomId].pricePerDay);
    var updated := stay.(paidDays := days[..], payments := stay.payments + [Payment(amount, paymentType, now)]);
    stories' := stories[found.value := updated];
    expenses' := expenses + [Expense(amount, paymentType, stay.id)];
    r := Success(updated);
    if Valid(rooms, stories) {
      SameStaysKeepValid(rooms, stories, found.value, updated);
    }
  }

  /** Replacing a stay by one with the same id, patient, room and activity keeps the invariant. */
  lemma SameStaysKeepValid(rooms: map<Id, Room>, stories: seq<RoomStory>, i: nat, s: RoomStory)
    requires Valid(rooms, stories) && i < |stories|
    requires s.id == stories[i].id && s.patientId == stories[i].patientId
    requires s.roomId == stories[i].roomId && s.active == stories[i].active
    ensures Valid(rooms, stories[i := s])
  {
    var stories' := stories[i := s];
    assert RoomsAgreeWithStories(rooms, stories);
    forall rid, sid | rid in rooms && sid in rooms[rid].capacity
      ensures exists j :: 0 <= j < |stories'| && stories'[j].id == sid && stories'[j].roomId == rid && stories'[j].active
    {
      var j :| 0 <= j < |stories| && stories[j].id == sid && stories[j].roomId == rid && stories[j].active;
      assert stories'[j].id == stories[j].id && stories'[j].roomId == rid && stories'[j].active;
    }
    forall a, b | 0 <= a < b < |stories'|
      ensures stories'[a].id != stories'[b].id
    {
      assert stories'[a].id == stories[a].id && stories'[b].id == stories[b].id;
    }
    DeactivateKeepsOneRoom(stories, i, s);
  }
}
