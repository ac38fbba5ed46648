/** The doctors' daily report of the dashboard: for every doctor, the room stays opened under
    them today and in total, the admission fees these represent, and the doctor's own share. */
module Dashboard {
  import opened Wrappers
  import Seqs
  import Rooms

  type Id = string

  datatype Role = AdminRole | Director | Doctor

  /** The staff fields the report reads. The fee, pay type and percentage are optional: a
      missing one, like a zero, counts as 0 wherever `|| 0` is applied. */
  datatype Staff = Staff(
    id: Id,
    firstName: string,
    lastName: string,
    role: Role,
    specialization: string,
    salaryPerMonth: Option<int>,
    admissionPrice: Option<int>,
    salaryType: Option<string>,
    percentageFromAdmissions: Option<int>)

  datatype ReportRow = ReportRow(
    id: Id,
    firstName: string,
    lastName: string,
    specialization: string,
    percent: int,
    salary: int,
    today: nat,
    todayPrice: int,
    totalPrice: int,
    clientLength: nat,
    ownPrice: int)

  /** `x || 0` on an optional number. */
  function OrZero(x: Option<int>): int {
    if x.Some? then x.value else 0
  }

  /** `Math.round(x / 100)` for an integer `x`: halves round up. */
  function RoundHundredth(x: int): (r: int)
    ensures 100 * r - 50 <= x < 100 * r + 50
  {
    (x + 50) / 100
  }

  /** The rounding is to the nearest integer: no other integer is closer to `x / 100`. */
  lemma RoundHundredthIsNearest(x: int, n: int)
    ensures var r := RoundHundredth(x);
      (if 100 * r >= x then 100 * r - x else x - 100 * r) <= (if 100 * n >= x then 100 * n - x else x - 100 * n)
  {
  }

  function IsDoctor(s: Staff): bool {
    s.role == Doctor
  }

  function OfDoctor(doctorId: Id): Rooms.RoomStory -> bool {
    (s: Rooms.RoomStory) => s.doctorId == Some(doctorId)
  }

  /** A stay of the doctor opened within `[start, end]`, both ends included. */
  function OfDoctorWithin(doctorId: Id, start: int, end: int): Rooms.RoomStory -> bool {
    (s: Rooms.RoomStory) => s.doctorId == Some(doctorId) && start <= s.createdAt <= end
  }

  /** `stories.reduce((sum, s) => sum + fee, 0)`. */
  function SumOfFees(stories: seq<Rooms.RoomStory>, fee: int): int {
    if stories == [] then 0 else SumOfFees(stories[..|stories| - 1], fee) + fee
  }

  /** Summing the fee once per stay is multiplying it by the number of stays. */
  lemma {:induction false} SumOfFeesIsProduct(stories: seq<Rooms.RoomStory>, fee: int)
    ensures SumOfFees(stories, fee) == |stories| * fee
  {
    if stories != [] {
      SumOfFeesIsProduct(stories[..|stories| - 1], fee);
    }
  }

  /** The doctor's own share: a rounded percentage of all fees, or the monthly salary. */
  function OwnPrice(doc: Staff, totalPrice: int): int {
    if doc.salaryType == Some("percentage") then RoundHundredth(OrZero(doc.percentageFromAdmissions) * totalPrice)
    else OrZero(doc.salaryPerMonth)
  }

  /** One row of the report. */
  function RowFor(doc: Staff, stories: seq<Rooms.RoomStory>, start: int, end: int): ReportRow {
    var todayStories := Seqs.Filter(stories, OfDoctorWithin(doc.id, start, end));
    var allStories := Seqs.Filter(stories, OfDoctor(doc.id));
    var fee := OrZero(doc.admissionPrice);
    var totalPrice := SumOfFees(allStories, fee);
    ReportRow(doc.id, doc.firstName, doc.lastName, doc.specialization,
              OrZero(doc.percentageFromAdmissions), OrZero(doc.salaryPerMonth),
              |todayStories|, SumOfFees(todayStories, fee), totalPrice, |allStories|,
              OwnPrice(doc, totalPrice))
  }

  /** What a row says: the day's stays are among all the doctor's stays, each fee total is
      the count times the fee, and a percentage share is within half a unit of the exact
      percentage of all fees. */
  lemma RowFigures(doc: Staff, stories: seq<Rooms.RoomStory>, start: int, end: int)
    ensures var row := RowFor(doc, stories, start, end);
      var fee := OrZero(doc.admissionPrice);
      && row.today == Seqs.Count(stories, OfDoctorWithin(doc.id, start, end))
      && row.clientLength == Seqs.Count(stories, OfDoctor(doc.id))
      && row.today <= row.clientLength
      && row.todayPrice == row.today * fee
      && row.totalPrice == row.clientLength * fee
      && (doc.salaryType == Some("percentage") ==>
            100 * row.ownPrice - 50 <= row.percent * row.totalPrice < 100 * row.ownPrice + 50)
      && (doc.salaryType != Some("percentage") ==> row.ownPrice == row.salary)
  {
    var fee := OrZero(doc.admissionPrice);
    Seqs.CountMonotone(stories, OfDoctorWithin(doc.id, start, end), OfDoctor(doc.id));
    SumOfFeesIsProduct(Seqs.Filter(stories, OfDoctorWithin(doc.id, start, end)), fee);
    SumOfFeesIsProduct(Seqs.Filter(stories, OfDoctor(doc.id)), fee);
  }

  /** A doctor without fee gets no fee totals and, on a percentage, no share. */
  lemma NoFeeNoShare(doc: Staff, stories: seq<Rooms.RoomStory>, start: int, end: int)
    requires OrZero(doc.admissionPrice) == 0
    ensures var row := RowFor(doc, stories, start, end);
      row.todayPrice == 0 && row.totalPrice == 0 && (doc.salaryType == Some("percentage") ==> row.ownPrice == 0)
  {
    RowFigures(doc, stories, start, end);
  }

  /** `getDoctorsTodayReport`: one row per doctor, in the order of the staff collection. */
  method DoctorsTodayReport(staff: seq<Staff>, stories: seq<Rooms.RoomStory>, startOfDay: int, endOfDay: int)
    returns (report: seq<ReportRow>)
    ensures var doctors := Seqs.Filter(staff, IsDoctor);
      |report| == |doctors| == Seqs.Count(staff, IsDoctor)
      && forall i :: 0 <= i < |report| ==> report[i] == RowFor(doctors[i], stories, startOfDay, endOfDay)
  {
    var doctors := Seqs.Filter(staff, IsDoctor);
    report := [];
    var i := 0;
    while i < |doctors|
      invariant 0 <= i <= |doctors|
      invariant |report| == i
      invariant forall k :: 0 <= k < i ==> report[k] == RowFor(doctors[k], stories, startOfDay, endOfDay)
    {
      var row := RowFor(doctors[i], stories, startOfDay, endOfDay);
      report := report + [row];
      i := i + 1;
    }
  }
}
