/** The request validator for the clinic's information: the schema, what it demands field by
    field, and the middleware decision, whose error text names the field of the first error
    (its `instancePath` without the first slash, with no fallback when that is empty). */
module ClinicValidation {
  import opened Wrappers
  import opened Schemas

  /** A string with inclusive length bounds. */
  function Text(min: nat, max: nat): Schema {
    Of(TString).(minLength := Some(min), maxLength := Some(max))
  }

  const ClinicProperties: seq<Property> := [
    Property("clinicName", Text(2, 100)),
    Property("startTime", Text(1, 20)),
    Property("endTime", Text(1, 20)),
    Property("address", Text(2, 200)),
    Property("phone", Text(7, 20)),
    Property("logo", Of(TString))]

  /** Messages for an extra property, for each missing required property, and for anything
      wrong with each property except `logo`. */
  const ClinicMessages: Messages :=
    Messages([AdditionalProperties], ["clinicName", "startTime", "endTime", "address", "phone"],
             ["clinicName", "startTime", "endTime", "address", "phone"])

  const ClinicSchema: Schema :=
    Of(TObject).(required := ["clinicName", "startTime", "endTime", "address", "phone"],
                 properties := ClinicProperties, additionalProperties := false, messages := ClinicMessages)

  // ---------------------------------------------------------------------------
  // The rules, stated directly on the body
  // ---------------------------------------------------------------------------

  const ClinicFields: seq<string> := ["clinicName", "startTime", "endTime", "address", "phone", "logo"]

  predicate ClinicNameOk(v: Json) { v.JStr? && 2 <= |v.s| <= 100 }
  /** Any text of 1 to 20 characters: the times are not read as clock times. */
  predicate TimeOk(v: Json) { v.JStr? && 1 <= |v.s| <= 20 }
  predicate AddressOk(v: Json) { v.JStr? && 2 <= |v.s| <= 200 }
  predicate PhoneOk(v: Json) { v.JStr? && 7 <= |v.s| <= 20 }
  predicate LogoOk(v: Json) { v.JStr? }

  predicate FieldsOk(m: seq<Member>) {
    && FieldOk(m, "clinicName", ClinicNameOk) && FieldOk(m, "startTime", TimeOk)
    && FieldOk(m, "endTime", TimeOk) && FieldOk(m, "address", AddressOk)
    && FieldOk(m, "phone", PhoneOk) && FieldOk(m, "logo", LogoOk)
  }

  /** A clinic body: an object with name, opening and closing times, address and phone, no
      property outside the six listed, and each present property acceptable. */
  predicate ClinicRules(body: Json) {
    && body.JObj?
    && var m := body.members;
    && Lookup(m, "clinicName").Some? && Lookup(m, "startTime").Some? && Lookup(m, "endTime").Some?
    && Lookup(m, "address").Some? && Lookup(m, "phone").Some?
    && (forall i :: 0 <= i < |m| ==> m[i].key in ClinicFields)
    && FieldsOk(m)
  }

  // ---------------------------------------------------------------------------
  // The schema means the rules
  // ---------------------------------------------------------------------------

  lemma TextField(m: seq<Member>, key: string, min: nat, max: nat, ok: Json -> bool)
    requires forall v :: ok(v) <==> v.JStr? && min <= |v.s| <= max
    ensures PropertyValid(Property(key, Text(min, max)), m) <==> FieldOk(m, key, ok)
  {
    var v := Lookup(m, key);
    var text := Text(min, max);
    assert text.typ == TString && text.minLength == Some(min) && text.maxLength == Some(max);
    assert text.nullable == false && text.enum.None? && text.pattern.None?;
    if v.Some? {
      var x := v.value;
      assert ok(x) <==> x.JStr? && min <= |x.s| <= max;
      assert PropertyValid(Property(key, text), m) <==> Valid(text, x);
      if x.JStr? {
        assert TypedValid(text, x) <==> min <= |x.s| <= max;
      }
      assert Valid(text, x) <==> x.JStr? && (x.JStr? ==> TypedValid(text, x));
    }
  }

  lemma PropertiesMeaning(m: seq<Member>)
    ensures (forall i :: 0 <= i < |ClinicProperties| ==> PropertyValid(ClinicProperties[i], m)) <==> FieldsOk(m)
  {
    var cp := ClinicProperties;
    TextField(m, "clinicName", 2, 100, ClinicNameOk);
    TextField(m, "startTime", 1, 20, TimeOk);
    TextField(m, "endTime", 1, 20, TimeOk);
    TextField(m, "address", 2, 200, AddressOk);
    TextField(m, "phone", 7, 20, PhoneOk);
    assert (forall i :: 0 <= i < |cp| ==> PropertyValid(cp[i], m)) <==>
      && PropertyValid(cp[0], m) && PropertyValid(cp[1], m) && PropertyValid(cp[2], m)
      && PropertyValid(cp[3], m) && PropertyValid(cp[4], m) && PropertyValid(cp[5], m);
  }

  lemma DeclaredClinicFields(k: string)
    ensures Declared(ClinicProperties, k) <==> k in ClinicFields
  {
    if k in ClinicFields {
      var i :| 0 <= i < |ClinicFields| && ClinicFields[i] == k;
      assert ClinicProperties[i].name == k;
      assert ClinicProperties[i] in ClinicProperties;
    }
  }

  lemma RequiredMeaning(m: seq<Member>)
    ensures HasRequired(ClinicSchema, m) <==>
      && Lookup(m, "clinicName").Some? && Lookup(m, "startTime").Some? && Lookup(m, "endTime").Some?
      && Lookup(m, "address").Some? && Lookup(m, "phone").Some?
  {
  }

  /** The schema accepts exactly the bodies that keep the rules. */
  lemma ClinicSchemaMeaning(body: Json)
    ensures Valid(ClinicSchema, body) <==> ClinicRules(body)
  {
    if body.JObj? {
      var m := body.members;
      forall i | 0 <= i < |m|
        ensures Declared(ClinicProperties, m[i].key) <==> m[i].key in ClinicFields
      {
        DeclaredClinicFields(m[i].key);
      }
      RequiredMeaning(m);
      PropertiesMeaning(m);
      assert TypedValid(ClinicSchema, body) <==>
        HasRequired(ClinicSchema, m) && OnlyDeclared(ClinicSchema, m)
        && forall i :: 0 <= i < |ClinicProperties| ==> PropertyValid(ClinicProperties[i], m);
    }
  }

  // ---------------------------------------------------------------------------
  // The middleware
  // ---------------------------------------------------------------------------

  /** `next()`, or an error response naming the field of the first error. */
  datatype Decision = Next | Reject(field: string, error: SchemaError)

  /** `clinicInfoValidation`: the field is the path without its first slash, so an error about
      the body as a whole (a missing or an extra property) names no field at all. */
  function Validate(body: Json): (r: Decision)
    ensures r.Next? <==> ClinicRules(body)
    ensures r.Reject? ==> Errors(ClinicSchema, body, []) != [] && r.error == Errors(ClinicSchema, body, [])[0]
    ensures r.Reject? ==> (r.field == "" <==> r.error.path == [])
    ensures r.Reject? && r.error.path != [] ==>
      r.error.path[0].Key? && r.error.path[0].name in ClinicFields && r.field == r.error.path[0].name
  {
    NoErrorsIffValid(ClinicSchema, body, []);
    ClinicSchemaMeaning(body);
    var errors := Errors(ClinicSchema, body, []);
    if errors == [] then Next
    else
      ErrorFieldOfClinicError(body, errors[0]);
      Reject(RemoveFirstSlash(Pointer(errors[0].path)), errors[0])
  }

  /** An error of a clinic body names no field exactly when it is about the body as a whole;
      otherwise it names the clinic field it is about. */
  lemma ErrorFieldOfClinicError(body: Json, e: SchemaError)
    requires e in Errors(ClinicSchema, body, [])
    ensures RemoveFirstSlash(Pointer(e.path)) == "" <==> e.path == []
    ensures e.path != [] ==>
      e.path[0].Key? && e.path[0].name in ClinicFields && RemoveFirstSlash(Pointer(e.path)) == e.path[0].name
  {
    ErrorsBelowPath(ClinicSchema, body, [], e);
    if e.path != [] {
      assert StepOf(ClinicSchema, e.path[0]);
      DeclaredClinicFields(e.path[0].name);
      ClinicErrorsAreShallow(body, e);
      FieldOfKey(e.path);
      ClinicFieldNamed(e.path[0].name);
    }
  }

  lemma ClinicFieldNamed(name: string)
    requires name in ClinicFields
    ensures name != ""
  {
  }

  /** The clinic's properties are all plain strings, so no error lies more than one step down. */
  lemma ClinicErrorsAreShallow(body: Json, e: SchemaError)
    requires e in Errors(ClinicSchema, body, [])
    ensures |e.path| <= 1
  {
    ClinicPropertiesScalar();
    FlatObjectErrors(ClinicSchema, body, [], e);
  }

  lemma ClinicPropertiesScalar()
    ensures ClinicSchema.typ == TObject
    ensures forall i :: 0 <= i < |ClinicSchema.properties| ==> Scalar(ClinicSchema.properties[i].schema.typ)
  {
  }

  const LogoTypeError := SchemaError([Key("logo")], Type, "")

  /** Every error of a clinic body has a message replacing it, except a `logo` that is not a
      string. */
  lemma ClinicErrorKinds(members: seq<Member>, e: SchemaError)
    requires e in KeywordErrors(ClinicSchema, JObj(members), [])
    ensures || Covered(ClinicMessages, [], e)
            || (e == LogoTypeError && Lookup(members, "logo").Some? && !Lookup(members, "logo").value.JStr?)
  {
    var s := ClinicSchema;
    assert s.typ == TObject && s.enum.None? && s.properties == ClinicProperties;
    assert s.required == ClinicMessages.required;
    ObjectErrorKinds(s, members, [], e);
    if |e.path| == 0 {
      if e.keyword == Required {
        assert e.param in ClinicMessages.required;
      } else {
        assert e.keyword in ClinicMessages.keywords;
      }
    } else {
      var i :| 0 <= i < |ClinicProperties| && e in PropertyErrors(ClinicProperties[i], members, []);
      ClinicPropertyErrorKinds(members, i, e);
    }
  }

  lemma ClinicPropertyErrorKinds(members: seq<Member>, i: nat, e: SchemaError)
    requires i < |ClinicProperties| && e in PropertyErrors(ClinicProperties[i], members, [])
    ensures || Covered(ClinicMessages, [], e)
            || (e == LogoTypeError && Lookup(members, "logo").Some? && !Lookup(members, "logo").value.JStr?)
  {
    var p := ClinicProperties[i];
    PropertyErrorsBelowPath(p, members, [], e);
    if i < 5 {
      assert p.name == ClinicMessages.children[i];
      assert [] + [Key(p.name)] <= e.path;
    } else {
      assert p == Property("logo", Of(TString));
      assert Lookup(members, "logo").Some?;
      var v := Lookup(members, "logo").value;
      assert [] + [Key("logo")] == [Key("logo")];
      assert e in Errors(Of(TString), v, [Key("logo")]);
      NoMessagesKeepErrors([Key("logo")], KeywordErrors(Of(TString), v, [Key("logo")]));
      assert e in KeywordErrors(Of(TString), v, [Key("logo")]);
      assert KeywordErrors(Of(TString), v, [Key("logo")]) == if v.JStr? then [] else [LogoTypeError];
    }
  }

  predicate LogoAbsentOrText(members: seq<Member>) {
    Lookup(members, "logo").None? || Lookup(members, "logo").value.JStr?
  }

  /** With a text logo, or none, every error of a clinic body has a message replacing it. */
  lemma ClinicErrorsCovered(members: seq<Member>)
    requires LogoAbsentOrText(members)
    ensures Uncovered(ClinicMessages, [], KeywordErrors(ClinicSchema, JObj(members), [])) == []
  {
    var es := KeywordErrors(ClinicSchema, JObj(members), []);
    forall e | e in es
      ensures Covered(ClinicMessages, [], e)
    {
      ClinicErrorKinds(members, e);
    }
    AllCovered(ClinicMessages, [], es);
  }

  /** A body without a clinic name, whose logo (if any) is text, is refused naming no field:
      for an extra property if it has one, and otherwise for the missing name. */
  lemma MissingNameNamesNoField(members: seq<Member>)
    requires Lookup(members, "clinicName").None? && LogoAbsentOrText(members)
    ensures OnlyDeclared(ClinicSchema, members) ==>
      Validate(JObj(members)) == Reject("", SchemaError([], Message(Required), "clinicName"))
    ensures !OnlyDeclared(ClinicSchema, members) ==>
      Validate(JObj(members)) == Reject("", SchemaError([], Message(AdditionalProperties), ""))
  {
    FirstErrorWithoutName(members);
    FieldOfPath([]);
  }

  lemma FirstErrorWithoutName(members: seq<Member>)
    requires Lookup(members, "clinicName").None? && LogoAbsentOrText(members)
    ensures Errors(ClinicSchema, JObj(members), []) != []
    ensures Errors(ClinicSchema, JObj(members), [])[0]
      == if OnlyDeclared(ClinicSchema, members)
         then SchemaError([], Message(Required), "clinicName")
         else SchemaError([], Message(AdditionalProperties), "")
  {
    ClinicErrorsCovered(members);
    FirstMessageOfObject(ClinicSchema, members, [], "clinicName");
  }

  /** The body has only declared properties exactly when each of its keys is a clinic field. */
  lemma OnlyClinicFields(members: seq<Member>)
    ensures OnlyDeclared(ClinicSchema, members) <==> forall i :: 0 <= i < |members| ==> members[i].key in ClinicFields
  {
    forall i | 0 <= i < |members|
      ensures Declared(ClinicProperties, members[i].key) <==> members[i].key in ClinicFields
    {
      DeclaredClinicFields(members[i].key);
    }
  }

  /** A logo that is not text is reported before anything else, even a missing clinic name:
      no message replaces its error, so it keeps its place ahead of the messages. */
  lemma BadLogoReportedFirst(members: seq<Member>)
    requires Lookup(members, "logo").Some? && !Lookup(members, "logo").value.JStr?
    ensures Validate(JObj(members)) == Reject("logo", LogoTypeError)
  {
    FirstErrorIsBadLogo(members);
    FieldOfKey([Key("logo")]);
  }

  lemma FirstErrorIsBadLogo(members: seq<Member>)
    requires Lookup(members, "logo").Some? && !Lookup(members, "logo").value.JStr?
    ensures Errors(ClinicSchema, JObj(members), []) != []
    ensures Errors(ClinicSchema, JObj(members), [])[0] == LogoTypeError
  {
    var es := KeywordErrors(ClinicSchema, JObj(members), []);
    LogoErrorReported(members);
    LogoErrorHasNoMessage();
    forall e | e in es && !Covered(ClinicMessages, [], e)
      ensures e == LogoTypeError
    {
      ClinicErrorKinds(members, e);
    }
    OnlyUncoveredFirst(ClinicMessages, [], es, LogoTypeError);
  }

  lemma LogoErrorHasNoMessage()
    ensures !Covered(ClinicMessages, [], LogoTypeError)
  {
    forall c | c in ClinicMessages.children
      ensures !([] + [Key(c)] <= LogoTypeError.path)
    {
      assert |c| != 4;
      assert [] + [Key(c)] == [Key(c)];
      assert LogoTypeError.path[..1] == [Key("logo")];
      assert [Key(c)][0] != [Key("logo")][0];
    }
  }

  lemma LogoErrorReported(members: seq<Member>)
    requires Lookup(members, "logo").Some? && !Lookup(members, "logo").value.JStr?
    ensures LogoTypeError in KeywordErrors(ClinicSchema, JObj(members), [])
  {
    var v := Lookup(members, "logo").value;
    ObjectErrorOrder(ClinicSchema, members, []);
    var props := seq(|ClinicProperties|, i requires 0 <= i < |ClinicProperties| => PropertyErrors(ClinicProperties[i], members, []));
    assert [] + [Key("logo")] == [Key("logo")];
    NoMessagesKeepErrors([Key("logo")], KeywordErrors(Of(TString), v, [Key("logo")]));
    assert props[5] == Errors(Of(TString), v, [Key("logo")]);
    FlattenHas(props, 5, LogoTypeError);
  }

  /** Opening and closing times are only measured: any text of 1 to 20 characters passes. */
  lemma TimesAreNotParsed(v: Json)
    ensures Valid(Text(1, 20), v) <==> v.JStr? && 1 <= |v.s| <= 20
  {
  }
}
