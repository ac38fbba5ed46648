/** The request validator for patient bodies: the schema, what it demands field by field,
    and the middleware decision that either passes the request on or answers with the first
    error's message. */
module PatientValidation {
  import opened Wrappers
  import opened Schemas

  /** The messages of a property schema, for the listed keywords only. */
  function For(keywords: seq<Keyword>): Messages {
    Messages(keywords, [], [])
  }

  const NameSchema: Schema := Of(TString).(minLength := Some(2), messages := For([Type, MinLength]))
  const IdNumberSchema: Schema :=
    Of(TString).(minLength := Some(5), maxLength := Some(30), nullable := true, messages := For([Type]))
  const PhoneSchema: Schema := Of(TString).(pattern := Some(Run(Decimal, 9, 15)), messages := For([Type, PatternKeyword]))
  const AddressSchema: Schema := Of(TString).(minLength := Some(3), messages := For([Type, MinLength]))
  const YearSchema: Schema := Of(TString).(pattern := Some(Run(Decimal, 4, 4)), messages := For([Type, PatternKeyword]))
  const FlagSchema: Schema := Of(TBoolean).(nullable := true)
  const GenderSchema: Schema := Of(TString).(enum := Some([JStr("male"), JStr("female")]), messages := For([Enum]))
  const HeightSchema: Schema :=
    Of(TNumber).(minimum := Some(30.0), maximum := Some(250.0), nullable := true, messages := For([Type, Minimum, Maximum]))
  const WeightSchema: Schema :=
    Of(TNumber).(minimum := Some(1.0), maximum := Some(500.0), nullable := true, messages := For([Type, Minimum, Maximum]))
  const BmiSchema: Schema := Of(TNumber).(minimum := Some(5.0), maximum := Some(100.0), nullable := true, messages := For([Type]))

  const BloodGroups: seq<Json> := [JStr("A+"), JStr("A-"), JStr("B+"), JStr("B-"), JStr("AB+"), JStr("AB-"), JStr("O+"), JStr("O-")]

  /** `bloodGroup` as written: nullable, but with an enum of the eight groups only. */
  const BloodGroupSchema: Schema := Of(TString).(enum := Some(BloodGroups), nullable := true, messages := For([Enum]))

  const PatientProperties: seq<Property> := [
    Property("firstname", NameSchema),
    Property("lastname", NameSchema),
    Property("idNumber", IdNumberSchema),
    Property("phone", PhoneSchema),
    Property("address", AddressSchema),
    Property("year", YearSchema),
    Property("treating", FlagSchema),
    Property("debtor", FlagSchema),
    Property("gender", GenderSchema),
    Property("height", HeightSchema),
    Property("weight", WeightSchema),
    Property("bmi", BmiSchema),
    Property("bloodGroup", BloodGroupSchema)]

  const PatientSchema: Schema :=
    Of(TObject).(required := ["firstname", "lastname", "phone", "year"], properties := PatientProperties,
                 additionalProperties := false)

  // ---------------------------------------------------------------------------
  // The rules, stated directly on the body
  // ---------------------------------------------------------------------------

  const PatientFields: seq<string> :=
    ["firstname", "lastname", "idNumber", "phone", "address", "year", "treating", "debtor", "gender",
     "height", "weight", "bmi", "bloodGroup"]

  predicate AllDigits(s: string) {
    forall i :: 0 <= i < |s| ==> '0' <= s[i] <= '9'
  }

  predicate NameOk(v: Json) { v.JStr? && |v.s| >= 2 }
  predicate IdNumberOk(v: Json) { v.JNull? || (v.JStr? && 5 <= |v.s| <= 30) }
  predicate PhoneOk(v: Json) { v.JStr? && 9 <= |v.s| <= 15 && AllDigits(v.s) }
  predicate AddressOk(v: Json) { v.JStr? && |v.s| >= 3 }
  predicate YearOk(v: Json) { v.JStr? && |v.s| == 4 && AllDigits(v.s) }
  predicate FlagOk(v: Json) { v.JNull? || v.JBool? }
  predicate GenderOk(v: Json) { v == JStr("male") || v == JStr("female") }
  predicate InRange(v: Json, lo: real, hi: real) { v.JNull? || (v.JNum? && lo <= v.n <= hi) }
  predicate BloodGroupOk(v: Json) { v in BloodGroups }

  predicate HeightOk(v: Json) { InRange(v, 30.0, 250.0) }
  predicate WeightOk(v: Json) { InRange(v, 1.0, 500.0) }
  predicate BmiOk(v: Json) { InRange(v, 5.0, 100.0) }

  /** Each present property is acceptable. */
  predicate FieldsOk(m: seq<Member>) {
    && FieldOk(m, "firstname", NameOk) && FieldOk(m, "lastname", NameOk)
    && FieldOk(m, "idNumber", IdNumberOk) && FieldOk(m, "phone", PhoneOk)
    && FieldOk(m, "address", AddressOk) && FieldOk(m, "year", YearOk)
    && FieldOk(m, "treating", FlagOk) && FieldOk(m, "debtor", FlagOk)
    && FieldOk(m, "gender", GenderOk) && FieldOk(m, "height", HeightOk)
    && FieldOk(m, "weight", WeightOk) && FieldOk(m, "bmi", BmiOk)
    && FieldOk(m, "bloodGroup", BloodGroupOk)
  }

  /** A patient body: an object with a first and last name, phone and year, no property
      outside the thirteen listed, and each present property acceptable. */
  predicate PatientRules(body: Json) {
    && body.JObj?
    && var m := body.members;
    && Lookup(m, "firstname").Some? && Lookup(m, "lastname").Some?
    && Lookup(m, "phone").Some? && Lookup(m, "year").Some?
    && (forall i :: 0 <= i < |m| ==> m[i].key in PatientFields)
    && FieldsOk(m)
  }

  /** Each field schema, read as a rule on the value of a present property. */
  lemma NameField(m: seq<Member>, key: string)
    ensures PropertyValid(Property(key, NameSchema), m) <==> FieldOk(m, key, NameOk)
  {
  }

  lemma IdNumberField(m: seq<Member>, key: string)
    ensures PropertyValid(Property(key, IdNumberSchema), m) <==> FieldOk(m, key, IdNumberOk)
  {
  }

  lemma PhoneField(m: seq<Member>, key: string)
    ensures PropertyValid(Property(key, PhoneSchema), m) <==> FieldOk(m, key, PhoneOk)
  {
  }

  lemma AddressField(m: seq<Member>, key: string)
    ensures PropertyValid(Property(key, AddressSchema), m) <==> FieldOk(m, key, AddressOk)
  {
  }

  lemma YearField(m: seq<Member>, key: string)
    ensures PropertyValid(Property(key, YearSchema), m) <==> FieldOk(m, key, YearOk)
  {
  }

  lemma FlagField(m: seq<Member>, key: string)
    ensures PropertyValid(Property(key, FlagSchema), m) <==> FieldOk(m, key, FlagOk)
  {
  }

  lemma GenderField(m: seq<Member>, key: string)
    ensures PropertyValid(Property(key, GenderSchema), m) <==> FieldOk(m, key, GenderOk)
  {
  }

  lemma HeightField(m: seq<Member>, key: string)
    ensures PropertyValid(Property(key, HeightSchema), m) <==> FieldOk(m, key, HeightOk)
  {
  }

  lemma WeightField(m: seq<Member>, key: string)
    ensures PropertyValid(Property(key, WeightSchema), m) <==> FieldOk(m, key, WeightOk)
  {
  }

  lemma BmiField(m: seq<Member>, key: string)
    ensures PropertyValid(Property(key, BmiSchema), m) <==> FieldOk(m, key, BmiOk)
  {
  }

  lemma BloodGroupField(m: seq<Member>, key: string)
    ensures PropertyValid(Property(key, BloodGroupSchema), m) <==> FieldOk(m, key, BloodGroupOk)
  {
  }

  lemma FieldsOkGivesProperty(m: seq<Member>, i: nat)
    requires FieldsOk(m) && i < |PatientProperties|
    ensures PropertyValid(PatientProperties[i], m)
  {
    if i < 6 { PersonFieldGivesProperty(m, i); }
    else if i == 6 { FlagField(m, "treating"); }
    else if i == 7 { FlagField(m, "debtor"); }
    else if i == 8 { GenderField(m, "gender"); }
    else if i == 9 { HeightField(m, "height"); }
    else if i == 10 { WeightField(m, "weight"); }
    else if i == 11 { BmiField(m, "bmi"); }
    else { BloodGroupField(m, "bloodGroup"); }
  }

  lemma PersonFieldGivesProperty(m: seq<Member>, i: nat)
    requires FieldsOk(m) && i < 6
    ensures PropertyValid(PatientProperties[i], m)
  {
    if i == 0 { NameField(m, "firstname"); }
    else if i == 1 { NameField(m, "lastname"); }
    else if i == 2 { IdNumberField(m, "idNumber"); }
    else if i == 3 { PhoneField(m, "phone"); }
    else if i == 4 { AddressField(m, "address"); }
    else { YearField(m, "year"); }
  }

  lemma PropertiesMeaning(m: seq<Member>)
    ensures (forall i :: 0 <= i < |PatientProperties| ==> PropertyValid(PatientProperties[i], m)) <==> FieldsOk(m)
  {
    var pp := PatientProperties;
    if forall i :: 0 <= i < |pp| ==> PropertyValid(pp[i], m) {
      assert PropertyValid(pp[0], m) && PropertyValid(pp[1], m) && PropertyValid(pp[2], m);
      assert PropertyValid(pp[3], m) && PropertyValid(pp[4], m) && PropertyValid(pp[5], m);
      assert PropertyValid(pp[6], m) && PropertyValid(pp[7], m) && PropertyValid(pp[8], m);
      assert PropertyValid(pp[9], m) && PropertyValid(pp[10], m) && PropertyValid(pp[11], m);
      assert PropertyValid(pp[12], m);
      NameField(m, "firstname");
      NameField(m, "lastname");
      IdNumberField(m, "idNumber");
      PhoneField(m, "phone");
      AddressField(m, "address");
      YearField(m, "year");
      FlagField(m, "treating");
      FlagField(m, "debtor");
      GenderField(m, "gender");
      HeightField(m, "height");
      WeightField(m, "weight");
      BmiField(m, "bmi");
      BloodGroupField(m, "bloodGroup");
    }
    if FieldsOk(m) {
      forall i | 0 <= i < |pp|
        ensures PropertyValid(pp[i], m)
      {
        FieldsOkGivesProperty(m, i);
      }
    }
  }

  lemma DeclaredPatientFields(k: string)
    ensures Declared(PatientProperties, k) <==> k in PatientFields
  {
    if k in PatientFields {
      var i :| 0 <= i < |PatientFields| && PatientFields[i] == k;
      assert PatientProperties[i].name == k;
      assert PatientProperties[i] in PatientProperties;
    }
  }

  lemma RequiredMeaning(m: seq<Member>)
    ensures HasRequired(PatientSchema, m) <==>
      Lookup(m, "firstname").Some? && Lookup(m, "lastname").Some? && Lookup(m, "phone").Some? && Lookup(m, "year").Some?
  {
  }

  lemma DeclaredMeaning(m: seq<Member>)
    ensures OnlyDeclared(PatientSchema, m) <==> forall i :: 0 <= i < |m| ==> m[i].key in PatientFields
  {
    forall i | 0 <= i < |m|
      ensures Declared(PatientProperties, m[i].key) <==> m[i].key in PatientFields
    {
      DeclaredPatientFields(m[i].key);
    }
  }

  /** The schema accepts exactly the bodies that keep the rules. */
  lemma PatientSchemaMeaning(body: Json)
    ensures Valid(PatientSchema, body) <==> PatientRules(body)
  {
    if body.JObj? {
      var m := body.members;
      RequiredMeaning(m);
      DeclaredMeaning(m);
      PropertiesMeaning(m);
      assert TypedValid(PatientSchema, body) <==>
        HasRequired(PatientSchema, m) && OnlyDeclared(PatientSchema, m)
        && forall i :: 0 <= i < |PatientProperties| ==> PropertyValid(PatientProperties[i], m);
    }
  }

  // ---------------------------------------------------------------------------
  // The middleware
  // ---------------------------------------------------------------------------

  /** `next()` or an error response carrying the first error's message. */
  datatype Decision = Next | Reject(error: SchemaError)

  /** `patientValidation`: on failure only the first of Ajv's errors is reported. */
  function Validate(body: Json): (r: Decision)
    ensures r.Next? <==> PatientRules(body)
    ensures r.Reject? ==> Errors(PatientSchema, body, []) != [] && r.error == Errors(PatientSchema, body, [])[0]
    ensures r.Reject? ==> r.error in KeywordErrors(PatientSchema, body, [])
  {
    NoMessagesKeepErrors([], KeywordErrors(PatientSchema, body, []));
    NoErrorsIffValid(PatientSchema, body, []);
    PatientSchemaMeaning(body);
    var errors := Errors(PatientSchema, body, []);
    if errors == [] then Next else Reject(errors[0])
  }

  /** A body that is not an object is reported as of the wrong type. */
  lemma NotAnObjectIsATypeError(body: Json)
    requires !body.JObj?
    ensures Validate(body) == Reject(SchemaError([], Type, ""))
  {
    NoMessagesKeepErrors([], KeywordErrors(PatientSchema, body, []));
    assert KeywordErrors(PatientSchema, body, []) == [SchemaError([], Type, "")];
  }

  /** A missing first name is what is reported first, before anything wrong with other fields. */
  lemma MissingFirstnameReportedFirst(members: seq<Member>)
    requires Lookup(members, "firstname").None?
    ensures Validate(JObj(members)) == Reject(SchemaError([], Required, "firstname"))
  {
    MissingRequiredReportedFirst(PatientSchema, members, []);
    NoMessagesKeepErrors([], KeywordErrors(PatientSchema, JObj(members), []));
  }

  // ---------------------------------------------------------------------------
  // `bloodGroup: null`
  // ---------------------------------------------------------------------------

  /** The schema marks `bloodGroup` nullable, yet its enum lists only the eight groups, and
      enum applies to `null` too: a `null` blood group is refused, with the blood group's
      message. */
  lemma NullBloodGroupRefused()
    ensures !Valid(BloodGroupSchema, JNull)
    ensures Errors(BloodGroupSchema, JNull, [Key("bloodGroup")]) == [SchemaError([Key("bloodGroup")], Message(Enum), "")]
  {
    var path := [Key("bloodGroup")];
    var e := SchemaError(path, Enum, "");
    assert KeywordErrors(BloodGroupSchema, JNull, path) == [e] by {
      assert TypeOk(BloodGroupSchema, JNull) && JNull !in BloodGroups;
    }
    ForReported([Enum], path, [e]);
    assert Uncovered(For([Enum]), path, [e]) == [] by { assert [e][1..] == []; }
    EnumMessageUsed(path, [e]);
  }

  /** With a message for `enum` only, and an `enum` error, that message is the one used. */
  lemma EnumMessageUsed(path: seq<Segment>, es: seq<SchemaError>)
    requires SchemaError(path, Enum, "") in es
    ensures KeywordMessages(For([Enum]), path, es) == [SchemaError(path, Message(Enum), "")]
  {
    var m := For([Enum]);
    assert HasKeywordError(es, path, Enum);
    var kw := seq(|m.keywords|, i requires 0 <= i < |m.keywords| =>
                    if HasKeywordError(es, path, m.keywords[i]) then [SchemaError(path, Message(m.keywords[i]), "")] else []);
    assert kw == [[SchemaError(path, Message(Enum), "")]];
    assert Flatten(kw) == kw[0] + Flatten(kw[1..]);
  }

  // ---------------------------------------------------------------------------
  // Messages
  // ---------------------------------------------------------------------------

  /** `gender` has a message for `enum` only: a gender that is not text keeps Ajv's own `type`
      error, reported ahead of the gender's message. */
  lemma GenderTypeErrorKept(v: Json)
    requires !v.JStr?
    ensures Errors(GenderSchema, v, [Key("gender")])
      == [SchemaError([Key("gender")], Type, ""), SchemaError([Key("gender")], Message(Enum), "")]
  {
    var path := [Key("gender")];
    var m := For([Enum]);
    var a, b := SchemaError(path, Type, ""), SchemaError(path, Enum, "");
    GenderNotTextErrors(v);
    ForReported([Enum], path, [a, b]);
    UncoveredPair(m, path, a, b);
    EnumMessageUsed(path, [a, b]);
  }

  lemma GenderNotTextErrors(v: Json)
    requires !v.JStr?
    ensures KeywordErrors(GenderSchema, v, [Key("gender")])
      == [SchemaError([Key("gender")], Type, ""), SchemaError([Key("gender")], Enum, "")]
  {
    assert TypeCheckedFirst(GenderSchema) && !TypeOk(GenderSchema, v);
    assert v !in GenderSchema.enum.value;
  }

  /** With messages for keywords only, the kept errors come first and the keyword messages
      after them. */
  lemma ForReported(keywords: seq<Keyword>, path: seq<Segment>, es: seq<SchemaError>)
    ensures Reported(For(keywords), path, es) == Uncovered(For(keywords), path, es) + KeywordMessages(For(keywords), path, es)
  {
    var m := For(keywords);
    assert RequiredMessages(m, path, es) == [];
    assert ChildMessages(m, path, es) == [];
  }

  /** A height that is a number below 30 gets the height's message for `minimum`, and nothing
      else. */
  lemma ShortHeightMessage(n: real)
    requires n < 30.0
    ensures Errors(HeightSchema, JNum(n), [Key("height")]) == [SchemaError([Key("height")], Message(Minimum), "")]
  {
    var path := [Key("height")];
    var e := SchemaError(path, Minimum, "");
    ShortHeightErrors(n);
    ForReported([Type, Minimum, Maximum], path, [e]);
    assert Uncovered(For([Type, Minimum, Maximum]), path, [e]) == [] by { assert [e][1..] == []; }
    MinimumMessageUsed(path, e);
  }

  lemma ShortHeightErrors(n: real)
    requires n < 30.0
    ensures KeywordErrors(HeightSchema, JNum(n), [Key("height")]) == [SchemaError([Key("height")], Minimum, "")]
  {
    assert TypeCheckedFirst(HeightSchema) && HasType(HeightSchema.typ, JNum(n));
  }

  /** With messages for `type`, `minimum` and `maximum`, a lone `minimum` error gets the
      `minimum` message. */
  lemma MinimumMessageUsed(path: seq<Segment>, e: SchemaError)
    requires e == SchemaError(path, Minimum, "")
    ensures KeywordMessages(For([Type, Minimum, Maximum]), path, [e]) == [SchemaError(path, Message(Minimum), "")]
  {
    var m := For([Type, Minimum, Maximum]);
    var es := [e];
    assert !HasKeywordError(es, path, Type) && HasKeywordError(es, path, Minimum) && !HasKeywordError(es, path, Maximum);
    var kw := seq(|m.keywords|, i requires 0 <= i < |m.keywords| =>
                    if HasKeywordError(es, path, m.keywords[i]) then [SchemaError(path, Message(m.keywords[i]), "")] else []);
    assert kw == [[], [SchemaError(path, Message(Minimum), "")], []];
    assert Flatten(kw) == kw[0] + Flatten(kw[1..]);
    assert Flatten(kw[1..]) == kw[1] + Flatten(kw[2..]);
    assert Flatten(kw[2..]) == kw[2] + Flatten(kw[3..]);
  }
}
