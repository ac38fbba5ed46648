/** Patient intake at the reception: the patient is found by phone number or registered, and
    a visit ("story") is opened with the doctor, carrying the patient's number in that
    doctor's queue for the day.

    The patient and visit collections are sequences in collection order; fresh ids, the
    current instant and the instant of local midnight are parameters. */
module PatientIntake {
  import opened Wrappers
  import Seqs
  import Rooms

  type Id = string

  const MsPerDay: int := 86400000

  datatype Patient = Patient(
    id: Id,
    firstname: string,
    lastname: string,
    idNumber: Option<string>,
    phone: string,
    address: string,
    year: string,
    gender: Option<string>)

  /** The patient fields of the intake form; `None` is a field the request leaves out. */
  datatype PatientForm = PatientForm(
    firstname: Option<string>,
    lastname: Option<string>,
    idNumber: Option<string>,
    phone: string,
    address: Option<string>,
    year: Option<string>,
    gender: Option<string>)

  /** The address a patient gets when the form leaves it out. */
  const DefaultAddress: string := "Namangan viloyati"

  /** A required text field passes the store's `required` check: present and not empty. */
  predicate Filled(field: Option<string>) {
    field.Some? && field.value != ""
  }

  /** The form can be stored as a patient: first name, last name, phone and year are filled,
      and the address is left out (the default is used) or not empty. */
  predicate Storable(form: PatientForm) {
    Filled(form.firstname) && Filled(form.lastname) && form.phone != "" && Filled(form.year)
    && (form.address.None? || form.address.value != "")
  }

  /** The patient stored from a storable form. */
  function Registered(id: Id, form: PatientForm): (p: Patient)
    requires Storable(form)
    ensures p.id == id && p.phone == form.phone && p.idNumber == form.idNumber && p.gender == form.gender
    ensures p.firstname != "" && p.lastname != "" && p.year != "" && p.address != ""
    ensures p.address == if form.address.Some? then form.address.value else DefaultAddress
  {
    Patient(id, form.firstname.value, form.lastname.value, form.idNumber, form.phone,
            if form.address.Some? then form.address.value else DefaultAddress, form.year.value, form.gender)
  }

  /** The amount field of the intake form: left out, a value the store reads as a number, or
      one it cannot read as a number. */
  datatype AmountField = AmountLeftOut | AmountNumber(value: int) | AmountNotNumber

  /** The payment fields of the intake form, copied to the visit; `None` is a type left out. */
  datatype PaymentInfo = PaymentInfo(paymentType: Option<string>, paymentStatus: bool, paymentAmount: AmountField)

  /** The payment types the visit store accepts. */
  const PaymentTypes: seq<string> := ["karta", "naqt"]

  /** The visit store accepts the payment fields: a listed type or none, and an amount that is
      left out or reads as a number. */
  predicate PaymentStorable(payment: PaymentInfo) {
    (payment.paymentType.None? || payment.paymentType.value in PaymentTypes)
    && !payment.paymentAmount.AmountNotNumber?
  }

  /** A visit to a doctor; `view` turns true once the doctor has seen the patient. */
  datatype Story = Story(
    id: Id,
    patientId: Id,
    doctorId: Id,
    orderNumber: int,
    payment: PaymentInfo,
    view: bool,
    createdAt: int)

  /** Why intake ends in a server error: the patient store refuses the form, the doctor id is
      missing, the queue query cannot read the doctor id as an object id, or the visit store
      refuses the payment fields. */
  datatype IntakeError = PatientNotSaved | DoctorIdMissing | DoctorIdNotCast | StoryNotSaved

  datatype Intake = Intake(patient: Patient, story: Story, orderNumber: int)

  /** `patientsDB.findOne({phone})`. */
  function FindByPhone(patients: seq<Patient>, phone: string): (r: Option<nat>)
    ensures r.Some? ==> r.value < |patients| && patients[r.value].phone == phone
    ensures r.None? ==> forall k :: 0 <= k < |patients| ==> patients[k].phone != phone
  {
    Seqs.FirstIndex(patients, (p: Patient) => p.phone == phone)
  }

  /** A visit still waiting in the doctor's queue of the day that starts at `midnight`. */
  function Waiting(doctorId: Id, midnight: int): Story -> bool {
    (s: Story) => s.doctorId == doctorId && !s.view && midnight <= s.createdAt < midnight + MsPerDay
  }

  /** The number of visits waiting for the doctor today (the `countDocuments` query). */
  function QueueLength(stories: seq<Story>, doctorId: Id, midnight: int): nat {
    Seqs.Count(stories, Waiting(doctorId, midnight))
  }

  /** No two patients share a phone number. */
  predicate UniquePhones(patients: seq<Patient>) {
    forall i, j :: 0 <= i < j < |patients| ==> patients[i].phone != patients[j].phone
  }

  /** `createPatient`: the patient with the form's phone is reused, or registered from the form;
      a form the store refuses ends the request before anything is written. A missing doctor
      id, one the queue query cannot read as an object id, and payment fields the visit store
      refuses are met only after that, so a registration stays. Otherwise a visit is appended
      whose queue number is one more than the visits already waiting for that doctor today. */
  method CreatePatient(
    patients: seq<Patient>, stories: seq<Story>, form: PatientForm, payment: PaymentInfo, doctorId: Id,
    newPatientId: Id, newStoryId: Id, now: int, midnight: int)
    returns (r: Result<Intake, IntakeError>, patients': seq<Patient>, stories': seq<Story>)
    ensures var found := FindByPhone(patients, form.phone);
      r == Failure(PatientNotSaved) <==> found.None? && !Storable(form)
    ensures var found := FindByPhone(patients, form.phone);
      r == Failure(DoctorIdMissing) <==> (found.Some? || Storable(form)) && doctorId == ""
    ensures var found := FindByPhone(patients, form.phone);
      r == Failure(DoctorIdNotCast) <==> (found.Some? || Storable(form)) && doctorId != "" && !Rooms.ObjectIdValid(doctorId)
    ensures var found := FindByPhone(patients, form.phone);
      r == Failure(StoryNotSaved) <==> (found.Some? || Storable(form)) && Rooms.ObjectIdValid(doctorId) && !PaymentStorable(payment)
    ensures var found := FindByPhone(patients, form.phone);
      r.Success? <==> (found.Some? || Storable(form)) && Rooms.ObjectIdValid(doctorId) && PaymentStorable(payment)
    ensures FindByPhone(patients, form.phone).Some? || !Storable(form) ==> patients' == patients
    ensures FindByPhone(patients, form.phone).None? && Storable(form) ==>
      patients' == patients + [Registered(newPatientId, form)]
    ensures r.Failure? ==> stories' == stories
    ensures r.Success? ==>
      var k := FindByPhone(patients', form.phone);
      && k.Some? && r.value.patient == patients'[k.value]
      && r.value.orderNumber == QueueLength(stories, doctorId, midnight) + 1
      && r.value.story == Story(newStoryId, r.value.patient.id, doctorId, r.value.orderNumber, payment, false, now)
      && stories' == stories + [r.value.story]
    ensures UniquePhones(patients) ==> UniquePhones(patients')
  {
    var found := FindByPhone(patients, form.phone);
    var patient;
    stories' := stories;
    if found.None? {
      if !Storable(form) {
        // the store's required checks fail and the request ends as a server error
        return Failure(PatientNotSaved), patients, stories;
      }
      patient := Registered(newPatientId, form);
      patients' := patients + [patient];
      assert patients'[|patients|] == patient;
    } else {
      patient := patients[found.value];
      patients' := patients;
    }
    if doctorId == "" {
      return Failure(DoctorIdMissing), patients', stories';
    }
    if !Rooms.ObjectIdValid(doctorId) {
      // casting the doctor id in the queue query fails
      return Failure(DoctorIdNotCast), patients', stories';
    }
    var count := QueueLength(stories, doctorId, midnight);
    var orderNumber := count + 1;
    if !PaymentStorable(payment) {
      // the visit store's casts or enum check fail
      return Failure(StoryNotSaved), patients', stories';
    }
    var story := Story(newStoryId, patient.id, doctorId, orderNumber, payment, false, now);
    stories' := stories + [story];
    r := Success(Intake(patient, story, orderNumber));
  }

  /** A visit opened today joins the doctor's queue: the next patient sent to the same doctor
      the same day gets the following number. */
  lemma {:induction false} NextInQueue(stories: seq<Story>, s: Story, midnight: int)
    requires !s.view && midnight <= s.createdAt < midnight + MsPerDay
    ensures QueueLength(stories + [s], s.doctorId, midnight) == QueueLength(stories, s.doctorId, midnight) + 1
  {
    Seqs.CountSnoc(stories, s, Waiting(s.doctorId, midnight));
  }

  /** A visit for another doctor, or on another day, leaves the queue as it was. */
  lemma {:induction false} OtherQueuesUnchanged(stories: seq<Story>, s: Story, doctorId: Id, midnight: int)
    requires s.doctorId != doctorId || !(midnight <= s.createdAt < midnight + MsPerDay)
    ensures QueueLength(stories + [s], doctorId, midnight) == QueueLength(stories, doctorId, midnight)
  {
    Seqs.CountSnoc(stories, s, Waiting(doctorId, midnight));
  }

  /** Queue numbers count the visits still waiting, so once a visit has been seen the next
      patient may be given a number already handed out that day: with visits numbered 1 and 2
      and the first one seen, the next patient is numbered 2 again. */
  lemma QueueNumberCanRepeat(p: Id, d: Id, pay: PaymentInfo, midnight: int)
    ensures var stories := [Story("a", p, d, 1, pay, true, midnight), Story("b", p, d, 2, pay, false, midnight)];
      QueueLength(stories, d, midnight) + 1 == 2
  {
    var stories := [Story("a", p, d, 1, pay, true, midnight), Story("b", p, d, 2, pay, false, midnight)];
    var w := Waiting(d, midnight);
    assert !w(stories[0]) && w(stories[1]);
    assert stories[1..][1..] == [];
    assert Seqs.Count(stories[1..], w) == 1;
  }
}
