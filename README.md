# qarshiMed clinic core, modelled in Dafny

qarshiMed is the back end of a clinic's management system. This project models the parts of it
that decide things:

- **Attendance** (`Attendance`, attendance.dfy): staff check in and check out by hand or with an
  NFC card. The model covers:
  - resolving a working schedule: the clinic default, overridden field by field by an enabled
    personal schedule;
  - the workday test;
  - classifying a check-in as present or late, against a grace period;
  - classifying a check-out as early leave, overtime or unchanged, against two thresholds;
  - the NFC three-way dispatch;
  - the daily summary.

  The ledger is a sequence of records. The model proves it keeps at most one record per employee
  and date, and that every record is internally consistent.
- **Rooms** (`Rooms`, rooms.dfy): inpatient rooms and stays ("room stories"). The model covers:
  - creating and closing rooms;
  - admitting a patient, which opens a stay with one unpaid day per treatment day and takes a
    place in the room;
  - discharging a patient;
  - spreading a payment over the unpaid days of a stay.

  The invariant `Valid` says four things:
  - every place a room lists belongs to an active stay in that room;
  - no room is over capacity;
  - a patient's active stays are all in one room;
  - stay ids are unique.
- **Treatment tracking** (`Treatment`, treatment.dfy): a stay's chosen treatment services each
  keep a list of the calendar days on which the treatment was given. A service object's list is
  updated in place. Marking a day adds at most one mark per day, and unmarking removes that mark.
- **Patient intake** (`PatientIntake`, patient_intake.dfy): the reception finds a patient by
  phone number or registers a new one. It then opens a visit with a doctor, numbered in that
  doctor's queue for the day.
- **Dashboard** (`Dashboard`, dashboard.dfy): the doctors' daily report. For each doctor it gives
  the stays opened today and in total, the admission fees these represent, and the doctor's own
  share.
- **Request validators** (`Schemas`, `PatientValidation`, `RoomValidation`, `ClinicValidation`):
  - `Schemas` evaluates the subset of JSON Schema that the three schemas use, the way Ajv 8
    evaluates it with `allErrors`, and lists the errors in Ajv's order. It then applies the
    schemas' `errorMessage` blocks as ajv-errors does: errors that no message replaces stay first,
    in their order, followed by the messages for keywords, for missing properties and for
    properties;
  - each validator states its rules directly on the request body and proves that the schema
    accepts exactly those bodies;
  - the middleware passes the request on, or rejects it naming the first error.

Collections that the database holds are values: a sequence in collection order, or a map from
id to document. Each operation returns the new collections, and a `findOne` query is the first
match in collection order. The current instant, the start of the local day, the weekday, fresh
ids and the local time-zone offset are parameters. Instants are integers of milliseconds.

Behaviours of the code that the model keeps as they are:

- **`bloodGroup: null` is refused.** The patient schema marks `bloodGroup` nullable, but its enum
  lists only the eight groups. Ajv applies `enum` to `null` as well, so `null` is rejected with
  an enum error (`PatientValidation.NullBloodGroupRefused`). A reading of the schema that
  accepts "a blood group or null" does not match the code; the model follows the code.
- **`createPatient` registers first.** A new patient is stored before the missing-doctor check,
  so a request that is refused still registers the patient. A form the patient store refuses (an
  empty or missing first name, last name, phone or year, or an empty address) ends the request
  before anything is written.
- **A bad clinic logo is reported first.** The clinic schema gives `logo` no custom message, so
  its type error is the only one ajv-errors keeps unreplaced. It then comes before every message
  error, and a body with a non-text logo is refused naming `logo`
  (`ClinicValidation.BadLogoReportedFirst`).
- **Queue numbers can repeat.** The queue number is one more than the visits still waiting, so
  it can repeat once a visit has been seen (`PatientIntake.QueueNumberCanRepeat`).
- **Same-room readmission passes.** Admission looks for active stays only in *other* rooms, so a
  patient already active in a room passes the checks for that same room
  (`Rooms.ReadmissionToSameRoomPassesCheck`).
- **Id validity.** `ObjectId.isValid` is modelled as "24 hexadecimal characters".
- **Root-level clinic errors.** The clinic validator names no field (the empty text) for an
  error about the body as a whole. The room validator names "Umumiy" for the same case.
- **Check-in date key.** The date key of an attendance record is the UTC calendar date, while
  scheduled times are set on the local day.

## Model

| member | source | states |
|---|---|---|
| Attendance.ResolveSchedule | controller/attendanceController.js:9-32 | An unknown clinic fails with ClinicNotFound, and only then. The thresholds always come from the clinic. Without an enabled override, the times and days are the clinic's. With one, each of start, end and work days is the override's value when non-empty, and the clinic's otherwise. |
| Attendance.EmptyOrDisabledOverrideIsClinicDefault | controller/attendanceController.js:16-24 | A disabled override, or an enabled one whose fields are all empty, resolves exactly as no override. |
| Attendance.FallbackIsFieldwise | controller/attendanceController.js:16-24 | Changing the override's start time changes neither the resolved end time, the work days nor the thresholds. |
| Attendance.IsWorkDay | controller/attendanceController.js:35-40 | True exactly when the weekday's English name is one of the schedule's work days. |
| Attendance.DigitRun | controller/attendanceController.js:82-84 | The length of the leading run of digits of the radix: every character in it is such a digit, and the next one is not. |
| Attendance.SkipSpace | controller/attendanceController.js:82-84 | Skipping white space never lengthens the text, and what is left does not start with white space. |
| Attendance.SpaceIsSkipped | controller/attendanceController.js:82-84 | Leading white space never changes what `parseInt` reads. |
| Attendance.MinusNegates | controller/attendanceController.js:82-84 | A minus sign before unsigned text negates the number read, and NaN stays NaN. |
| Attendance.TimeOfDay | controller/attendanceController.js:82-84 | A time of day exists only when the text contains a colon. |
| Attendance.TimeOfDayParts | controller/attendanceController.js:82-84 | When the colon is at k and both parts parse, the time is the hours part in hours plus the minutes part in minutes, whatever their signs. |
| Attendance.ParseInt | controller/attendanceController.js:82-84 | `parseInt` with no radix gives NaN exactly when no digit of the radix follows the leading white space, one optional sign and an optional `0x` prefix (which selects base 16). A negative result needs a minus sign. |
| Attendance.ClockTimeParses | controller/attendanceController.js:82-84 | A well-formed "HH:MM" denotes HH hours plus MM minutes after midnight. |
| Attendance.TwoDigitsParse | controller/attendanceController.js:82-84 | Two decimal digits parse as that two-digit number. |
| Attendance.ClockTimeScenarios | controller/attendanceController.js:82-84 | " 9:00" and "+9:00" are 09:00, "0x10:00" is 16:00, "-1:30" is half an hour before midnight, and "9" is an Invalid Date. |
| Attendance.LatenessCoversGrace | controller/attendanceController.js:87-97 | A late arrival is counted at least the grace period late. With a non-negative grace period, lateness is never negative. |
| Attendance.ArrivalIsFunctional | controller/attendanceController.js:87-97 | The check-in rule determines exactly one status and one lateness. |
| Attendance.ArrivalScenarios | controller/attendanceController.js:82-97 | With a 09:00 start and 15 minutes' grace, 09:10 is present with 0 minutes and 09:20 is late by 20 minutes. |
| Attendance.DepartureExclusive | controller/attendanceController.js:165-198 | Early leave and overtime are never both recorded. Whichever is recorded reaches its threshold. The status changes only to EarlyLeave or Overtime. |
| Attendance.OnTimeDepartureKeepsStatus | controller/attendanceController.js:184-198 | A check-out inside [end - early threshold, end + overtime threshold] keeps the check-in status and records neither early leave nor overtime. |
| Attendance.DepartureScenarios | controller/attendanceController.js:165-198 | With an 18:00 end and 30-minute thresholds, 17:20 is 40 minutes early and 18:45 is 45 minutes of overtime. |
| Attendance.TodayIndex | controller/attendanceController.js:69-72 | Returns the index of a record of that employee and date. None means no such record exists. |
| Attendance.EmployeeById | controller/attendanceController.js:48-55 | Returns an employee with that id. None means no employee has it. |
| Attendance.CheckIn | controller/attendanceController.js:43-132 | Each rejection comes in the source's order and leaves the ledger unchanged; when every earlier check passes and today's record already has a check-in, the refusal is AlreadyCheckedIn carrying that record. Success holds exactly when the check-in is permitted. The saved record has the scan as its check-in and a classification satisfying the arrival rule. It is appended, or it updates today's record without a check-in in place. The ledger invariant is preserved. |
| Attendance.CheckOut | controller/attendanceController.js:135-230 | NotCheckedIn is returned exactly when today has no check-in. AlreadyCheckedOut is returned exactly when today's record is complete. After those, a missing employee and then a missing clinic are refused. Success holds exactly when check-out is permitted (checked in, not checked out, employee and clinic known). On success only today's record changes: it gains the check-out and a classification satisfying the departure rule. The ledger invariant is preserved. |
| Attendance.DecideAction | controller/attendanceController.js:266-287 | Check in exactly when there is no record or no check-in. Check out exactly when there is a check-in without a check-out. Otherwise the day is complete. |
| Attendance.JsRemainder | controller/attendanceController.js:283 | JavaScript `%`: the remainder has the dividend's sign, is smaller than the divisor in magnitude, and differs from the dividend by a multiple of the divisor, which fixes its value. |
| Attendance.HoursAndMinutes | controller/attendanceController.js:283 | For a non-negative total, hours*60 + minutes recomposes the total with 0 <= minutes < 60. A negative total gives a floored hour and a negative minute part (-61 gives -2 and -1). |
| Attendance.ActiveCardHolder | controller/attendanceController.js:238-245 | Returns an active employee holding the card. None means no active employee holds it. |
| Attendance.NfcScan | controller/attendanceController.js:233-294 | Rejects an unregistered card, then an inactive clinic. Otherwise it does what DecideAction says. A completed day always succeeds, changes nothing and reports hours and minutes. A check-in succeeds exactly when check-in is permitted, and then records the arrival. A check-out succeeds exactly when check-out is permitted, and then records the departure. The scan never fails as "already checked in/out" or "not checked in". The ledger invariant is preserved. |
| Attendance.DailyReport | controller/attendanceController.js:306-312 | The total is the number of the day's records. Each of present, late, early leave and overtime is at most the total. |
| Attendance.SummaryWithinPresent | controller/attendanceController.js:306-312 | On a well-formed ledger, late, early-leave and overtime counts never exceed the present count. |
| Rooms.CreateRoom | controller/roomController.js:9-22 | Refused exactly when the number is taken. Otherwise the room is stored under the fresh id. |
| Rooms.CreateRoomKeepsNumbersUnique | controller/roomController.js:12-15 | Room numbers stay unique across creations. |
| Rooms.CloseRoom | controller/roomController.js:105-117 | An unknown id fails with RoomNotFound, and only then. Otherwise only that room's closed flag flips. |
| Rooms.CloseRoomTwiceRestores | controller/roomController.js:110 | Closing twice restores the rooms. |
| Rooms.ActiveElsewhere | controller/roomController.js:163-175 | Returns an active stay of the patient in another room. None means all the patient's active stays are in this room. |
| Rooms.AdmissionCheck | controller/roomController.js:125-182 | A missing patient id and a missing treatment-day count are reported first. No error exactly when every condition holds: valid and known patient, existing room, known doctor if given, no active stay elsewhere, a free place. This is the intended check (see Findings). |
| Rooms.AdmissionCheckAsWritten | controller/roomController.js:123-144 | As the text reads: without a doctor id it is the intended check. With one, it never admits, and it fails on the unregistered "Admins" model exactly when the id checks pass. |
| Rooms.KnownDoctorRefusedAsWritten | controller/roomController.js:144 | An admission with a known doctor that the intended check accepts is refused as written. |
| Rooms.BuildPaidDays | controller/roomController.js:185-194 | One unpaid day per treatment day. Day i+1 falls on calendar day today+i with nothing paid. |
| Rooms.AddPatientToRoom | controller/roomController.js:120-248 | Fails exactly when the check fails, changing nothing. Otherwise a new active stay with the given days is appended and its id is added to the room's places. `Valid` is preserved. |
| Rooms.AdmissionKeepsValid | controller/roomController.js:197-213 | Appending an admitted stay and its place keeps `Valid`. |
| Rooms.ReadmissionToSameRoomPassesCheck | controller/roomController.js:163-182 | A patient active only in the target room passes the admission check. |
| Rooms.ActiveStoryIndex | controller/roomController.js:322-332 | Returns the index of an active stay with that id in that room. None means there is none. |
| Rooms.RemovePatientFromRoom | controller/roomController.js:294-354 | Refusals come in the source's order. Success holds exactly when the id is valid, the room lists it and an active stay matches. On success the stay is closed at `now`, and every occurrence of its id leaves the room (multiset with that id removed). The other ids keep their order (a subsequence of the old places). Nothing else changes. |
| Rooms.RemoveKeepsValid | controller/roomController.js:322-339 | Discharge keeps `Valid` and frees a place. |
| Rooms.RemoveKeepsAgreement | controller/roomController.js:334-339 | Closing a stay while removing its id from the room keeps places backed by active stays and ids unique. |
| Rooms.DeactivateKeepsOneRoom | controller/roomController.js:334-335 | Deactivating or updating a stay in place keeps each patient's active stays in one room. |
| Rooms.PayDay | controller/roomController.js:379-393 | The loop body as written. A paid day is skipped. A day the money covers becomes paid at full price. Otherwise the loop stops with the day unpaid and the money used up. |
| Rooms.Allocate | controller/roomController.js:378-393 | The loop as written keeps the number of days. |
| Rooms.AllocateShape | controller/roomController.js:378-393 | Day numbers and dates never change. Paid days are untouched. A day newly paid holds the price. Leftover money means every day is paid. The leftover never exceeds the amount. |
| Rooms.AllocateCreditsFreshDays | controller/roomController.js:378-393 | On days without partial payments, the money consumed equals what is added to the recorded prices. |
| Rooms.AllocateInOrder | controller/roomController.js:378-393 | The loop as written pays days in order: a day changes only when every earlier day ends up paid. |
| Rooms.AllocateStopsAtPartialDay | controller/roomController.js:381-392 | A day the loop as written changes but leaves unpaid holds the rest of the money, which is positive and less than the price. No money is left and every later day is unchanged. |
| Rooms.OnePartialDayPerPayment | controller/roomController.js:381-392 | One run of the loop as written leaves at most one day partly paid. |
| Rooms.SecondPartialPaymentIsLost | controller/roomController.js:385-388 | Two payments of 50 on a one-day stay at 100 leave the day unpaid with 50 recorded. |
| Rooms.PayDayTopUp | controller/roomController.js:379-393 | The corrected body: an unpaid day is paid when the money covers what it still lacks, and that shortfall is consumed. |
| Rooms.AllocateTopUp | controller/roomController.js:378-393 | The corrected loop keeps the number of days. |
| Rooms.TopUpShape | controller/roomController.js:378-393 | With top-ups: dates and numbers are kept, paid days are untouched, newly paid days hold the price, leftover money means all days are paid. With no money, nothing changes. The leftover stays within the amount. |
| Rooms.TopUpInOrder | controller/roomController.js:378-393 | Days are paid in order: a day changes only when every earlier day ends up paid. |
| Rooms.TopUpStopsAtPartialDay | controller/roomController.js:381-392 | A day the top-up loop changes but leaves unpaid gains the rest of the money and still lacks part of the price. No money is left and every later day is unchanged. |
| Rooms.TopUpOnePartialDay | controller/roomController.js:381-392 | One run of the top-up loop leaves at most one day partly paid. |
| Rooms.TopUpCreditsEveryPayment | controller/roomController.js:378-393 | Every amount consumed is added to the recorded prices, whatever partial payments the days hold. |
| Rooms.TopUpAgreesOnFreshDays | controller/roomController.js:378-393 | On days without partial payments, the corrected loop equals the loop as written. |
| Rooms.TwoHalfPaymentsPayTheDay | controller/roomController.js:385-388 | With top-ups, two payments of 50 pay a one-day stay at 100 in full. |
| Rooms.SpreadPayment | controller/roomController.js:378-393 | The in-place loop over the array of days leaves exactly the corrected allocation and returns its leftover. |
| Rooms.ResumeStep | controller/roomController.js:378-393 | One turn of the loop advances the allocation of the whole stay consistently. |
| Rooms.ActiveStayOf | controller/roomController.js:364-369 | Returns the index of an active stay of the patient. None means there is none. |
| Rooms.PayForRoom | controller/roomController.js:356-431 | Refusals: no patient id or zero amount, no active stay, room gone. Each changes nothing. On success the stay's days are the allocation of the amount at the room's price. The payment is appended to the stay and an income entry to the ledger, and no other stay changes. `Valid` is preserved. |
| Rooms.SameStaysKeepValid | controller/roomController.js:396-400 | Replacing a stay by one with the same id, patient, room and activity keeps `Valid`. |
| Treatment.SameDayMeansWithinADay | controller/choosedRoomServicesController.js:84-87 | Two instants on the same calendar day are less than a day apart, and instants a day apart never share a day. |
| Treatment.DayIndex | controller/choosedRoomServicesController.js:84-87 | Returns the first mark on the day of the date. None means there is no mark on that day. |
| Treatment.MarkMarksTheDay | controller/choosedRoomServicesController.js:98-110 | After marking, the day is marked. The marks are unchanged when the day already had one, and otherwise grow by exactly the new mark. |
| Treatment.MarkIsIdempotent | controller/choosedRoomServicesController.js:98-110 | Marking the same day twice equals marking it once. |
| Treatment.UnmarkUndoesMark | controller/choosedRoomServicesController.js:89-110 | Taking back a fresh mark restores the marks. |
| Treatment.MarkKeepsOneMarkPerDay | controller/choosedRoomServicesController.js:98-110 | Marking keeps at most one mark per calendar day. |
| Treatment.UnmarkClearsTheDay | controller/choosedRoomServicesController.js:89-97 | Unmarking keeps at most one mark per day and leaves the day unmarked. It removes exactly one mark when the day had one. |
| Treatment.TreatmentService.constructor | model/choosedRoomServices.js:16-36 | A service starts with the given id and marks. |
| Treatment.Assignment.constructor | model/choosedRoomServices.js:3-16 | An assignment starts with the given stay and services. |
| Treatment.FindAssignment | controller/choosedRoomServicesController.js:67-75 | Returns an assignment of that stay. None means there is none. |
| Treatment.FindService | controller/choosedRoomServicesController.js:77-82 | Returns a chosen service with that id. None means there is none. |
| Treatment.MarkDecision | controller/choosedRoomServicesController.js:84-110 | Never a lookup failure. The answer is Removed or AlreadyMarked exactly when the date is valid and its day is marked. It is Removed or NothingToRemove exactly when removal was asked. |
| Treatment.MarkTreatmentDone | controller/choosedRoomServicesController.js:63-114 | NoAssignment is returned exactly when the stay has no assignment, and NoService exactly when the assignment lacks the service. Either changes nothing. Otherwise the outcome is MarkDecision on the service's marks before the call. Only the chosen service's marks may change. Removed takes back the day's mark. Added appends the new mark to a day that had none. AlreadyMarked, NothingToRemove and NotSaved change nothing. |
| PatientIntake.FindByPhone | controller/patientController.js:21 | Returns a patient with that phone. None means none has it. |
| PatientIntake.Registered | model/patientModel.js:3-13 | A stored patient has a non-empty first name, last name, year and address. The address defaults to "Namangan viloyati" when the form leaves it out. Id, phone, id number and gender come from the form. |
| PatientIntake.CreatePatient | controller/patientController.js:6-71 | PatientNotSaved is returned exactly when no patient has the phone and the form cannot be stored; then nothing is written. Otherwise the patient found by phone is reused, or the stored form is appended. The request is then refused, and the registration stays, exactly when the doctor id is missing, or is not an object id, or the visit store refuses the payment type (not karta or naqt) or an amount that is not a number. Success holds exactly when none of these happens. Otherwise the visit's number is one more than the visits waiting for that doctor today, and the visit is appended. Unique phones are preserved. |
| PatientIntake.NextInQueue | controller/patientController.js:44-51 | A waiting visit opened today adds one to that doctor's queue. |
| PatientIntake.OtherQueuesUnchanged | controller/patientController.js:44-48 | A visit for another doctor or another day leaves the queue as it was. |
| PatientIntake.QueueNumberCanRepeat | controller/patientController.js:44-51 | With visits 1 and 2 and the first seen, the next number is 2 again. |
| Dashboard.RoundHundredth | controller/dashboardController.js:45-52 | `Math.round(x / 100)`: the result is within half a unit of x/100. |
| Dashboard.RoundHundredthIsNearest | controller/dashboardController.js:45-52 | No integer is closer to x/100 than the rounded result. |
| Dashboard.SumOfFeesIsProduct | controller/dashboardController.js:35-42 | Summing a fee once per stay equals the number of stays times the fee. |
| Dashboard.RowFigures | controller/dashboardController.js:18-66 | Per doctor, the day's stays are counted among all the doctor's stays. Each fee total is the count times the fee. A percentage share is the rounded percentage of all fees, and otherwise the monthly salary. |
| Dashboard.NoFeeNoShare | controller/dashboardController.js:35-52 | A doctor without a fee has zero fee totals and a zero percentage share. |
| Dashboard.DoctorsTodayReport | controller/dashboardController.js:6-73 | One row per doctor, in staff order, each the doctor's row. |
| Schemas.FlattenEmpty | validation/patientValidation.js:2 | A concatenation of error lists is empty exactly when every list is. |
| Schemas.FlattenMember | validation/patientValidation.js:2 | An error of the concatenation comes from one of the lists. |
| Schemas.FlattenHas | validation/patientValidation.js:2 | An error of one of the lists is in the concatenation. |
| Schemas.NoErrorsIffValid | validation/patientValidation.js:119-122 | Ajv reports no error exactly when the value satisfies the schema. |
| Schemas.NoKeywordErrorsIffValid | validation/patientValidation.js:119-122 | The keywords report no error exactly when the value satisfies the schema. |
| Schemas.ReportedEmpty | validation/roomValidation.js:73-96 | ajv-errors reports something exactly when there was an error. |
| Schemas.NothingReported | validation/roomValidation.js:73-96 | Without errors, ajv-errors reports none. |
| Schemas.UncoveredMembers | validation/roomValidation.js:73-96 | An error is kept as it is exactly when no message replaces it. |
| Schemas.NoMessagesKeepErrors | validation/patientValidation.js:8-117 | A schema without messages reports its keyword errors unchanged. |
| Schemas.KeywordMessageUsed | validation/roomValidation.js:95 | A keyword error with a message at that path yields that message error. |
| Schemas.RequiredMessageUsed | validation/roomValidation.js:74-80 | A missing property with a required message yields that message error. |
| Schemas.ChildMessageUsed | validation/roomValidation.js:81-94 | An error within a property with a `properties` message yields that message error at the property. |
| Schemas.ReportedSource | validation/roomValidation.js:73-96 | A reported error is a keyword error no message replaced, a message at the schema's path, or a property message at the first step of some error's path. |
| Schemas.AllCovered | validation/roomValidation.js:73-96 | No error is kept unreplaced exactly when every error has a message. |
| Schemas.OnlyUncoveredFirst | validation/clinicInfoValidation.js:16-35 | When one error alone has no message, it is the first error reported. |
| Schemas.FirstMessageOfObject | validation/roomValidation.js:71-96 | When every error of an object is replaced and its first required property is missing, the first report is that required message, or the additional-properties message when an undeclared key is present. |
| Schemas.MissingRequiredError | validation/roomValidation.js:71 | A missing required property of an object gives a `required` error at the object. |
| Schemas.FirstRequiredMessage | validation/roomValidation.js:74-80 | When the property of the first `required` message is missing, that message leads the required messages. |
| Schemas.OnlyKeywordMessage | validation/roomValidation.js:95 | With a message for one keyword, that message is reported exactly when the keyword failed at the path. |
| Schemas.AdditionalErrorReported | validation/roomValidation.js:72 | An object refusing additional properties fails `additionalProperties` exactly when it has an undeclared key. |
| Schemas.UncoveredPair | validation/patientValidation.js:69-75 | Of two errors, exactly those without a message are kept, in order. |
| Schemas.KeywordMessageSource | validation/roomValidation.js:95 | A keyword message lies at the schema's own path. |
| Schemas.RequiredMessageSource | validation/roomValidation.js:74-80 | A required message lies at the schema's own path. |
| Schemas.ChildMessageSource | validation/roomValidation.js:81-94 | A property message lies at the first step of some error within that property. |
| Schemas.ScalarErrorsAt | validation/clinicInfoValidation.js:10-17 | A string, number or boolean schema reports its errors at the value itself. |
| Schemas.ObjectErrorOrder | validation/roomValidation.js:10-72 | An object's keyword errors are its missing required properties, then its undeclared keys, then each declared property's errors in schema order. |
| Schemas.ObjectErrorKinds | validation/roomValidation.js:10-72 | Each keyword error of an object is a missing required property or an undeclared key at its path, or a property error below it. |
| Schemas.KeywordErrorsBelowPath | validation/roomValidation.js:23-41 | Keyword errors lie at or below the value's path, going through an item or a declared property. |
| Schemas.NoTypedErrorsIffValid | validation/patientValidation.js:119-122 | The type-specific keywords report no error exactly when they are satisfied. |
| Schemas.NoPropertyErrorsIff | validation/patientValidation.js:11-115 | A property reports no error exactly when it is absent or valid. |
| Schemas.NoRequiredErrorsIff | validation/patientValidation.js:10 | `required` reports no error exactly when all required properties are present. |
| Schemas.NoAdditionalErrorsIff | validation/patientValidation.js:116 | `additionalProperties: false` reports no error exactly when every key is declared. |
| Schemas.MissingRequiredReportedFirst | validation/patientValidation.js:10 | When the first required property is missing, that is the first keyword error, before ajv-errors applies. |
| Schemas.ErrorsBelowPath | validation/roomValidation.js:23-41 | Every error lies at or below the value's path. One below it goes through an item or a declared property. |
| Schemas.TypedErrorsBelowPath | validation/roomValidation.js:23-41 | Same for the type-specific keywords. |
| Schemas.ArrayErrorsBelowPath | validation/roomValidation.js:23-26 | Errors of `items` go through an item index. |
| Schemas.RequiredErrorsAtPath | validation/roomValidation.js:71 | `required` errors lie at the object's own path. |
| Schemas.AdditionalErrorsAtPath | validation/roomValidation.js:72 | `additionalProperties` errors lie at the object's own path. |
| Schemas.ObjectErrorsBelowPath | validation/roomValidation.js:10-65 | Property errors lie strictly below the object, through a declared property. |
| Schemas.PropertyErrorsBelowPath | validation/roomValidation.js:10-65 | A property's errors lie below that property's key. |
| Schemas.PropertyErrorSource | validation/roomValidation.js:10-65 | An error below an object comes from one of its present properties. |
| Schemas.FlatObjectErrors | validation/clinicInfoValidation.js:10-17 | An object of scalar properties has its errors at most one step down. |
| Schemas.IndexText | validation/roomValidation.js:103 | The pointer text of an item index is non-empty decimal digits. |
| Schemas.RemoveFirstSlashAt | validation/roomValidation.js:103 | `replace("/", "")` removes only the first slash. |
| Schemas.RemoveFirstSlashNone | validation/roomValidation.js:103 | Text without a slash is kept. |
| Schemas.FieldOfPath | validation/roomValidation.js:103 | The field of the root is empty. Below the root, the field is the first step's text followed by the rest of the pointer. |
| Schemas.FieldOfKey | validation/clinicInfoValidation.js:43 | The field of a one-step path to a property is the property name. |
| PatientValidation.NameField | validation/patientValidation.js:12-27 | The name schema accepts exactly strings of at least 2 characters. |
| PatientValidation.IdNumberField | validation/patientValidation.js:28-36 | `idNumber` accepts null or 5-30 characters. |
| PatientValidation.PhoneField | validation/patientValidation.js:37-44 | `phone` accepts exactly 9-15 decimal digits. |
| PatientValidation.AddressField | validation/patientValidation.js:45-52 | `address` accepts strings of at least 3 characters. |
| PatientValidation.YearField | validation/patientValidation.js:53-60 | `year` accepts exactly four digits. |
| PatientValidation.FlagField | validation/patientValidation.js:61-68 | `treating` and `debtor` accept booleans and null. |
| PatientValidation.GenderField | validation/patientValidation.js:69-75 | `gender` accepts exactly "male" and "female". |
| PatientValidation.HeightField | validation/patientValidation.js:76-86 | `height` accepts null or numbers in [30, 250]. |
| PatientValidation.WeightField | validation/patientValidation.js:87-97 | `weight` accepts null or numbers in [1, 500]. |
| PatientValidation.BmiField | validation/patientValidation.js:98-106 | `bmi` accepts null or numbers in [5, 100]. |
| PatientValidation.BloodGroupField | validation/patientValidation.js:107-114 | `bloodGroup` accepts exactly the eight groups. |
| PatientValidation.FieldsOkGivesProperty | validation/patientValidation.js:11-115 | The field rules match the property schemas one by one. |
| PatientValidation.PropertiesMeaning | validation/patientValidation.js:11-115 | All properties are valid exactly when the field rules hold. |
| PatientValidation.DeclaredPatientFields | validation/patientValidation.js:11-116 | A key is declared exactly when it is one of the thirteen patient fields. |
| PatientValidation.RequiredMeaning | validation/patientValidation.js:10 | The required check means firstname, lastname, phone and year are present. |
| PatientValidation.DeclaredMeaning | validation/patientValidation.js:116 | No undeclared property means every key is a patient field. |
| PatientValidation.PatientSchemaMeaning | validation/patientValidation.js:8-117 | The schema accepts exactly the bodies keeping the patient rules. |
| PatientValidation.Validate | validation/patientValidation.js:119-125 | The request passes exactly when the patient rules hold. Otherwise it is refused with the first error Ajv and ajv-errors report, which is one of the keyword errors, since the root schema has no messages. |
| PatientValidation.NotAnObjectIsATypeError | validation/patientValidation.js:8-9 | A non-object body is reported as a type error at the root. |
| PatientValidation.MissingFirstnameReportedFirst | validation/patientValidation.js:10 | A missing firstname is the error reported. |
| PatientValidation.NullBloodGroupRefused | validation/patientValidation.js:107-114 | A null blood group is rejected, reported as the enum message at `bloodGroup`. |
| PatientValidation.EnumMessageUsed | validation/patientValidation.js:69-75 | An enum error at a field whose only message is for `enum` is replaced by exactly one message error. |
| PatientValidation.GenderTypeErrorKept | validation/patientValidation.js:69-75 | A non-string gender gives the type error, which has no message, and then the enum message. |
| PatientValidation.ShortHeightMessage | validation/patientValidation.js:76-86 | A height below 30 is reported as the `minimum` message alone. |
| RoomValidation.BedMeaning | validation/roomValidation.js:25-39 | A bed is an object with a status among the four, an optional comment of at most 500 characters and nothing else. |
| RoomValidation.BedsField | validation/roomValidation.js:23-41 | `beds` accepts exactly arrays of beds. |
| RoomValidation.RoomNumberField | validation/roomValidation.js:11-14 | `roomNumber` accepts numbers of at least 1. |
| RoomValidation.FloorField | validation/roomValidation.js:15-18 | `floor` accepts numbers of at least 0. |
| RoomValidation.UsersNumberField | validation/roomValidation.js:19-22 | `usersNumber` accepts numbers of at least 1. |
| RoomValidation.PricePerDayField | validation/roomValidation.js:58-61 | `pricePerDay` accepts numbers of at least 0. |
| RoomValidation.IdField | validation/roomValidation.js:42-49 | `nurse` and `cleaner` accept 24-hex-character ids. |
| RoomValidation.CapacityField | validation/roomValidation.js:50-57 | `capacity` accepts arrays of such ids. |
| RoomValidation.CategoryField | validation/roomValidation.js:62-65 | `category` accepts exactly luxury, standard and econom. |
| RoomValidation.FieldsOkGivesProperty | validation/roomValidation.js:10-70 | The field rules match the property schemas one by one. |
| RoomValidation.PropertiesMeaning | validation/roomValidation.js:10-70 | All properties are valid exactly when the field rules hold. |
| RoomValidation.DeclaredRoomFields | validation/roomValidation.js:10-72 | A key is declared exactly when it is a room field. |
| RoomValidation.RequiredMeaning | validation/roomValidation.js:71 | The required check means number, floor, places, price and category are present. |
| RoomValidation.DeclaredMeaning | validation/roomValidation.js:72 | No undeclared property means every key is a room field. |
| RoomValidation.RoomSchemaMeaning | validation/roomValidation.js:8-73 | The schema accepts exactly the bodies keeping the room rules. |
| RoomValidation.ErrorFieldOfRoomError | validation/roomValidation.js:103 | An error is named "Umumiy" exactly when it is about the whole body. Otherwise its name is the room field followed by the rest of the pointer. For an object body the name is "Umumiy" or a room field. |
| RoomValidation.NotGeneral | validation/roomValidation.js:103 | No room field name, whatever follows it, reads as empty or "Umumiy". |
| RoomValidation.Validate | validation/roomValidation.js:99-106 | Passes exactly when the room rules hold. Otherwise it is refused with the first error Ajv and ajv-errors report. It names "Umumiy" exactly for root errors and the field path for the others. For an object body the name is "Umumiy" or a room field. |
| RoomValidation.MissingRoomNumberIsGeneral | validation/roomValidation.js:71-96 | A missing room number is reported under "Umumiy": as its required message when every key is a room field, and otherwise as the additional-properties message. |
| RoomValidation.FirstErrorWithoutNumber | validation/roomValidation.js:71-96 | Without a room number, the first reported error is the required message for it, or the additional-properties message when an undeclared key is present. |
| RoomValidation.RoomPropertyHasMessage | validation/roomValidation.js:81-94 | Every room property has a `properties` message. |
| RoomValidation.RoomErrorKind | validation/roomValidation.js:71-96 | Every keyword error of a room object is replaced by some message. |
| RoomValidation.RoomErrorsCovered | validation/roomValidation.js:71-96 | No keyword error of a room object reaches the response unreplaced. |
| RoomValidation.RoomObjectErrorsShallow | validation/roomValidation.js:81-94 | Every error reported for a room object lies at most one step below the body. |
| RoomValidation.RoomObjectErrorField | validation/roomValidation.js:103 | An error reported for a room object is named "Umumiy" or a room field. |
| RoomValidation.ObjectIdPatternIsIdCheck | validation/roomValidation.js:42-45 | The id pattern accepts exactly what the room controller's id check accepts. |
| ClinicValidation.TextField | validation/clinicInfoValidation.js:10-17 | A bounded string property accepts exactly strings within its bounds. |
| ClinicValidation.PropertiesMeaning | validation/clinicInfoValidation.js:10-17 | All properties are valid exactly when the field rules hold. |
| ClinicValidation.DeclaredClinicFields | validation/clinicInfoValidation.js:10-19 | A key is declared exactly when it is one of the six clinic fields. |
| ClinicValidation.RequiredMeaning | validation/clinicInfoValidation.js:18 | The required check means name, times, address and phone are present. |
| ClinicValidation.ClinicSchemaMeaning | validation/clinicInfoValidation.js:8-20 | The schema accepts exactly the bodies keeping the clinic rules. |
| ClinicValidation.Validate | validation/clinicInfoValidation.js:39-47 | Passes exactly when the clinic rules hold. Otherwise it is refused with the first error Ajv and ajv-errors report. The field is empty exactly for root errors, and otherwise it is the clinic field's name. |
| ClinicValidation.ErrorFieldOfClinicError | validation/clinicInfoValidation.js:43 | An error names no field exactly when it is at the root. Otherwise it names its clinic field. |
| ClinicValidation.ClinicFieldNamed | validation/clinicInfoValidation.js:10-17 | Clinic field names are non-empty. |
| ClinicValidation.ClinicErrorsAreShallow | validation/clinicInfoValidation.js:10-17 | No error lies more than one step below the body. |
| ClinicValidation.MissingNameNamesNoField | validation/clinicInfoValidation.js:18-36 | Without a clinic name, and with the logo absent or text, the refusal names no field. It carries the required message when every key is a clinic field, and the additional-properties message otherwise. |
| ClinicValidation.FirstErrorWithoutName | validation/clinicInfoValidation.js:18-36 | The same, stated on the first reported error. |
| ClinicValidation.OnlyClinicFields | validation/clinicInfoValidation.js:19 | No undeclared property means every key is one of the six clinic fields. |
| ClinicValidation.ClinicErrorKinds | validation/clinicInfoValidation.js:16-35 | Every keyword error of a clinic object is replaced by a message, except the type error of a non-text logo. |
| ClinicValidation.ClinicPropertyErrorKinds | validation/clinicInfoValidation.js:10-35 | The same for the errors of each property. |
| ClinicValidation.ClinicErrorsCovered | validation/clinicInfoValidation.js:20-35 | With the logo absent or text, no keyword error reaches the response unreplaced. |
| ClinicValidation.LogoErrorHasNoMessage | validation/clinicInfoValidation.js:16-35 | The logo's type error has no message: `logo` is missing from the `properties` messages. |
| ClinicValidation.LogoErrorReported | validation/clinicInfoValidation.js:16 | A non-text logo gives a type error at `/logo`. |
| ClinicValidation.FirstErrorIsBadLogo | validation/clinicInfoValidation.js:16-35 | A non-text logo is the first error reported, ahead of every message error. |
| ClinicValidation.BadLogoReportedFirst | validation/clinicInfoValidation.js:39-47 | A body with a non-text logo is refused naming `logo`, whatever else is wrong. |
| ClinicValidation.TimesAreNotParsed | validation/clinicInfoValidation.js:11-12 | Opening and closing times accept any text of 1-20 characters. |
| Seqs.FirstIndex | controller/roomController.js:322-332 | The first index satisfying the condition. None means no element does. |
| Seqs.Count | controller/attendanceController.js:306-312 | The count is at most the length, and zero exactly when no element qualifies. |
| Seqs.Filter | controller/attendanceController.js:306-312 | The filtered length is the count. |
| Seqs.FilterKeepsOnly | controller/dashboardController.js:20-26 | Every kept element satisfies the condition. |
| Seqs.CountMonotone | controller/dashboardController.js:20-26 | A stronger condition counts no more. |
| Seqs.RemoveAllMultiset | controller/roomController.js:339 | `filter(id => id !== x)` removes every copy of x and keeps every other value as often as it was. |
| Seqs.RemoveAllKeepsOrder | controller/roomController.js:339 | `filter` keeps the remaining elements in their order: the result is a subsequence. |
| Seqs.SubsequenceMultiset | controller/roomController.js:339 | A subsequence holds no more copies of any value than the sequence. |
| Seqs.RemoveAllUnique | controller/roomController.js:339 | A subsequence with every x dropped and every other value kept as often is exactly the filtered sequence. |

## Left out

- Persistence, HTTP, request parsing, response texts and status codes: the collections are values, and results are `Result` values.
- Mongoose `populate`, sessions and transactions, and the sorting of reports are not modelled; `nfcScan`'s clinic-active test reads an unpopulated reference, so it is a boolean parameter.
- Concurrency: two requests interleaving on the same documents are not modelled.
- Ajv's error message texts and the texts of the `errorMessage` messages are not modelled: a replacing message is an error whose keyword is `Message(k)` for keyword k, or a property message at the property's path.
- Objects with a repeated key are not modelled faithfully: `Schemas.Lookup` takes the first occurrence of a key, while `JSON.parse` keeps the last.
- Attendance.ParseInt: JavaScript numbers lose precision above 2^53, and `setHours` gives an Invalid Date beyond 8.64e15 milliseconds; the model keeps every integer exact.
- Attendance.CheckOut: a missing employee makes the code fail while resolving the schedule, which answers a server error; the model returns EmployeeNotFound and, like the code, writes nothing.
- PatientIntake.CreatePatient: whether the amount reads as a number is given by the form (`AmountField`), not computed from text; `payment_status` is taken as a boolean already, so its cast is not modelled. The phone is always text; a request without a phone (a query on an undefined value) and `null` field values are not modelled.
- The `default` keywords of the schemas are not applied, since defaults are off in the validators' Ajv instances.
- Floating point: numbers are exact reals and integers. Time arithmetic uses integer milliseconds.
- Time zones and daylight saving: the local day is a start instant and a fixed offset, passed in. The UTC date key and the local `setHours` are kept apart but not computed from a clock.
- Rooms.ObjectIdValid: `ObjectId.isValid` also accepts any 12-character string; the model accepts only 24 hexadecimal characters.
- JSON Pointer escaping (`~0`, `~1`) of property names in `instancePath` is not modelled; no schema property name contains `~` or `/`.
- `getEmployeeHistory` (the attendance history query) is a read-only listing and is not part of this model.
- The expense entry written by `payForRoom` is reduced to amount, payment type and stay; its other fields are not modelled.
- Rooms.PayForRoom and Rooms.SpreadPayment: model the corrected top-up loop, not the code's overwrite of a partly paid day (see Findings); the loop as written is Rooms.Allocate.
- The plain create/read/update/delete endpoints (`getRooms`, `getRoomById`, `updateRoom`, `deleteRoom`, `getRoomStories`, `getPatients`, `getPatientById`, `updatePatient`, `deletePatient`, `assignRoomServices`, `getPatientServices`) carry no decision logic and are not part of this model.
- The BMI pre-save hook of the patient model works in floating point and is not part of this model.
- Uzbek message texts are not modelled; errors are datatype constructors.
- Fields absent from the shown schemas: the staff fields `admission_price`, `salary_type`, `percentage_from_admissions`, `is_active`, `nfc_card_id`, `personal_schedule` and `clinic_id`, and the clinic's `work_schedule` and `attendance_settings`, are not declared in model/adminModel.js or model/clinicInfo.js. A strict Mongoose document loaded without `.lean()` reads them as undefined (the dashboard figures would then be 0 and `ownPrice` the monthly salary). The model takes them as datatype fields (`Dashboard.Staff`, `Attendance.Employee`, `Attendance.Clinic`), on the assumption that a schema declaring them loads them; where the code applies `|| 0`, a missing fee counts as 0.
- Malformed ids: `findById`/`findOne` on an id that is not an ObjectId throws a CastError, which the catch answers as a server error (roomController.js:107, 142, 307, 364; attendanceController.js:48; choosedRoomServicesController.js:67). Rooms.CloseRoom, Rooms.AddPatientToRoom, Rooms.RemovePatientFromRoom, Rooms.PayForRoom, Attendance.CheckIn and Treatment.MarkTreatmentDone answer not-found for such ids instead. In `addPatientToRoom` a malformed room id therefore throws before the unknown-patient refusal at line 146, while the model refuses the unknown patient first.
- Rooms.AddPatientToRoom: uses the intended Rooms.AdmissionCheck, which accepts a known doctor; the code as written is Rooms.AdmissionCheckAsWritten, which ends any admission with a doctor id in a server error (see Findings).

## Findings

| source | as written | input that shows it | evidently intended | confidence | as-written member | corrected member |
|---|---|---|---|---|---|---|
| controller/roomController.js:144 | The doctor is looked up with `mongoose.model("Admins")`, but the staff model is registered as "Admin" (model/adminModel.js:51), so a given doctor id makes the lookup throw and the admission ends as a server error. | An admission with a valid, known patient, an open room with a free place and the id of an existing doctor. | A known doctor is accepted, and an unknown one is refused with "Doktor topilmadi". | medium (a file outside this model could register "Admins"); not executed | Rooms.KnownDoctorRefusedAsWritten | Rooms.AdmissionCheck |
| controller/roomController.js:385-388 | A payment smaller than the price sets a partly paid day's price to the new amount, overwriting what was paid before. | A one-day stay at 100 a day paid 50 and then 50 again: the day stays unpaid with 50 recorded, though 100 was paid. | The amount tops up what the day already holds, so the two payments pay the day. | high; not executed | Rooms.SecondPartialPaymentIsLost | Rooms.TwoHalfPaymentsPayTheDay |
