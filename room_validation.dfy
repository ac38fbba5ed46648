/** The request validator for room bodies: the schema, what it demands field by field, and
    the middleware decision, whose error text names the field of the first error (the error's
    `instancePath` without its first slash) or "Umumiy" ("general") when that is empty. */
module RoomValidation {
  import opened Wrappers
  import opened Schemas
  import Rooms

  const BedStatuses: seq<Json> := [JStr("bo'sh"), JStr("band"), JStr("toza emas"), JStr("toza")]
  const Categories: seq<Json> := [JStr("luxury"), JStr("standard"), JStr("econom")]

  const StatusSchema: Schema := Of(TString).(enum := Some(BedStatuses))
  const CommentSchema: Schema := Of(TString).(maxLength := Some(500))

  const BedProperties: seq<Property> := [Property("status", StatusSchema), Property("comment", CommentSchema)]

  const BedSchema: Schema := Of(TObject).(properties := BedProperties, required := ["status"], additionalProperties := false)

  const RoomNumberSchema: Schema := Of(TNumber).(minimum := Some(1.0))
  const FloorSchema: Schema := Of(TNumber).(minimum := Some(0.0))
  const UsersNumberSchema: Schema := Of(TNumber).(minimum := Some(1.0))
  const BedsSchema: Schema := Of(TArray).(items := Some(BedSchema))
  const ObjectIdSchema: Schema := Of(TString).(pattern := Some(Run(Hex, 24, 24)))
  const CapacitySchema: Schema := Of(TArray).(items := Some(ObjectIdSchema))
  const PricePerDaySchema: Schema := Of(TNumber).(minimum := Some(0.0))
  const CategorySchema: Schema := Of(TString).(enum := Some(Categories))
  const CloseRoomSchema: Schema := Of(TBoolean)

  const RoomProperties: seq<Property> := [
    Property("roomNumber", RoomNumberSchema),
    Property("floor", FloorSchema),
    Property("usersNumber", UsersNumberSchema),
    Property("beds", BedsSchema),
    Property("nurse", ObjectIdSchema),
    Property("cleaner", ObjectIdSchema),
    Property("capacity", CapacitySchema),
    Property("pricePerDay", PricePerDaySchema),
    Property("category", CategorySchema),
    Property("closeRoom", CloseRoomSchema)]

  /** Messages for an extra property, for each missing required property, and for anything
      wrong with each property; the two messages keyed `beds/status` and `beds/comment` name
      no property of the room and never apply. */
  const RoomMessages: Messages :=
    Messages([AdditionalProperties], ["roomNumber", "floor", "usersNumber", "pricePerDay", "category"],
             ["roomNumber", "floor", "usersNumber", "beds", "beds/status", "beds/comment", "nurse", "cleaner",
              "capacity", "pricePerDay", "category", "closeRoom"])

  const RoomSchema: Schema :=
    Of(TObject).(required := ["roomNumber", "floor", "usersNumber", "pricePerDay", "category"],
                 properties := RoomProperties, additionalProperties := false, messages := RoomMessages)

  // ---------------------------------------------------------------------------
  // The rules, stated directly on the body
  // ---------------------------------------------------------------------------

  const RoomFields: seq<string> :=
    ["roomNumber", "floor", "usersNumber", "beds", "nurse", "cleaner", "capacity", "pricePerDay", "category", "closeRoom"]

  predicate AtLeast(v: Json, lo: real) { v.JNum? && v.n >= lo }
  predicate RoomNumberOk(v: Json) { AtLeast(v, 1.0) }
  predicate FloorOk(v: Json) { AtLeast(v, 0.0) }
  predicate UsersNumberOk(v: Json) { AtLeast(v, 1.0) }
  predicate PricePerDayOk(v: Json) { AtLeast(v, 0.0) }
  predicate StatusOk(v: Json) { v in BedStatuses }
  predicate CommentOk(v: Json) { v.JStr? && |v.s| <= 500 }
  predicate IdOk(v: Json) { v.JStr? && Rooms.ObjectIdValid(v.s) }
  predicate CategoryOk(v: Json) { v in Categories }
  predicate CloseRoomOk(v: Json) { v.JBool? }

  /** A bed: an object with a status among the four, an optional comment of at most 500
      characters, and nothing else. */
  predicate BedOk(b: Json) {
    && b.JObj?
    && Lookup(b.members, "status").Some?
    && (forall i :: 0 <= i < |b.members| ==> b.members[i].key in ["status", "comment"])
    && FieldOk(b.members, "status", StatusOk) && FieldOk(b.members, "comment", CommentOk)
  }

  predicate BedsOk(v: Json) { v.JArr? && forall i :: 0 <= i < |v.items| ==> BedOk(v.items[i]) }
  predicate CapacityOk(v: Json) { v.JArr? && forall i :: 0 <= i < |v.items| ==> IdOk(v.items[i]) }

  predicate FieldsOk(m: seq<Member>) {
    && FieldOk(m, "roomNumber", RoomNumberOk) && FieldOk(m, "floor", FloorOk)
    && FieldOk(m, "usersNumber", UsersNumberOk) && FieldOk(m, "beds", BedsOk)
    && FieldOk(m, "nurse", IdOk) && FieldOk(m, "cleaner", IdOk)
    && FieldOk(m, "capacity", CapacityOk) && FieldOk(m, "pricePerDay", PricePerDayOk)
    && FieldOk(m, "category", CategoryOk) && FieldOk(m, "closeRoom", CloseRoomOk)
  }

  /** A room body: an object with number, floor, number of places, daily price and category,
      no property outside the ten listed, and each present property acceptable. */
  predicate RoomRules(body: Json) {
    && body.JObj?
    && var m := body.members;
    && Lookup(m, "roomNumber").Some? && Lookup(m, "floor").Some? && Lookup(m, "usersNumber").Some?
    && Lookup(m, "pricePerDay").Some? && Lookup(m, "category").Some?
    && (forall i :: 0 <= i < |m| ==> m[i].key in RoomFields)
    && FieldsOk(m)
  }

  // ---------------------------------------------------------------------------
  // The schema means the rules
  // ---------------------------------------------------------------------------

  lemma BedMeaning(b: Json)
    ensures Valid(BedSchema, b) <==> BedOk(b)
  {
    if b.JObj? {
      var m := b.members;
      forall i | 0 <= i < |m|
        ensures Declared(BedProperties, m[i].key) <==> m[i].key in ["status", "comment"]
      {
        if m[i].key in ["status", "comment"] {
          assert BedProperties[0] in BedProperties && BedProperties[1] in BedProperties;
        }
      }
      assert (forall i :: 0 <= i < |BedProperties| ==> PropertyValid(BedProperties[i], m))
        <==> PropertyValid(BedProperties[0], m) && PropertyValid(BedProperties[1], m);
      if Lookup(m, "status").Some? {
        assert StatusOk(Lookup(m, "status").value) ==> Lookup(m, "status").value.JStr?;
      }
    }
  }

  lemma BedsField(m: seq<Member>)
    ensures PropertyValid(Property("beds", BedsSchema), m) <==> FieldOk(m, "beds", BedsOk)
  {
    var v := Lookup(m, "beds");
    if v.Some? {
      var a := v.value;
      assert PropertyValid(Property("beds", BedsSchema), m) <==> Valid(BedsSchema, a);
      assert FieldOk(m, "beds", BedsOk) <==> BedsOk(a);
      if a.JArr? {
        forall i | 0 <= i < |a.items|
          ensures Valid(BedSchema, a.items[i]) <==> BedOk(a.items[i])
        {
          BedMeaning(a.items[i]);
        }
        assert Valid(BedsSchema, a) <==> TypedValid(BedsSchema, a);
        assert TypedValid(BedsSchema, a) <==> forall i :: 0 <= i < |a.items| ==> Valid(BedSchema, a.items[i]);
      }
    }
  }

  lemma RoomNumberField(m: seq<Member>)
    ensures PropertyValid(Property("roomNumber", RoomNumberSchema), m) <==> FieldOk(m, "roomNumber", RoomNumberOk)
  {
  }

  lemma FloorField(m: seq<Member>)
    ensures PropertyValid(Property("floor", FloorSchema), m) <==> FieldOk(m, "floor", FloorOk)
  {
  }

  lemma UsersNumberField(m: seq<Member>)
    ensures PropertyValid(Property("usersNumber", UsersNumberSchema), m) <==> FieldOk(m, "usersNumber", UsersNumberOk)
  {
  }

  lemma PricePerDayField(m: seq<Member>)
    ensures PropertyValid(Property("pricePerDay", PricePerDaySchema), m) <==> FieldOk(m, "pricePerDay", PricePerDayOk)
  {
  }

  lemma IdField(m: seq<Member>, key: string)
    ensures PropertyValid(Property(key, ObjectIdSchema), m) <==> FieldOk(m, key, IdOk)
  {
  }

  lemma CapacityField(m: seq<Member>)
    ensures PropertyValid(Property("capacity", CapacitySchema), m) <==> FieldOk(m, "capacity", CapacityOk)
  {
  }

  lemma CategoryField(m: seq<Member>)
    ensures PropertyValid(Property("category", CategorySchema), m) <==> FieldOk(m, "category", CategoryOk)
  {
    var v := Lookup(m, "category");
    if v.Some? && CategoryOk(v.value) {
      assert v.value.JStr?;
    }
  }

  lemma FieldsOkGivesProperty(m: seq<Member>, i: nat)
    requires FieldsOk(m) && i < |RoomProperties|
    ensures PropertyValid(RoomProperties[i], m)
  {
    if i == 0 { RoomNumberField(m); }
    else if i == 1 { FloorField(m); }
    else if i == 2 { UsersNumberField(m); }
    else if i == 3 { BedsField(m); }
    else if i == 4 { IdField(m, "nurse"); }
    else if i == 5 { IdField(m, "cleaner"); }
    else if i == 6 { CapacityField(m); }
    else if i == 7 { PricePerDayField(m); }
    else if i == 8 { CategoryField(m); }
    else { }
  }

  lemma PropertiesMeaning(m: seq<Member>)
    ensures (forall i :: 0 <= i < |RoomProperties| ==> PropertyValid(RoomProperties[i], m)) <==> FieldsOk(m)
  {
    var rp := RoomProperties;
    if forall i :: 0 <= i < |rp| ==> PropertyValid(rp[i], m) {
      assert PropertyValid(rp[0], m) && PropertyValid(rp[1], m) && PropertyValid(rp[2], m);
      assert PropertyValid(rp[3], m) && PropertyValid(rp[4], m) && PropertyValid(rp[5], m);
      assert PropertyValid(rp[6], m) && PropertyValid(rp[7], m) && PropertyValid(rp[8], m);
      assert PropertyValid(rp[9], m);
      RoomNumberField(m);
      FloorField(m);
      UsersNumberField(m);
      BedsField(m);
      IdField(m, "nurse");
      IdField(m, "cleaner");
      CapacityField(m);
      PricePerDayField(m);
      CategoryField(m);
    }
    if FieldsOk(m) {
      forall i | 0 <= i < |rp|
        ensures PropertyValid(rp[i], m)
      {
        FieldsOkGivesProperty(m, i);
      }
    }
  }

  lemma DeclaredRoomFields(k: string)
    ensures Declared(RoomProperties, k) <==> k in RoomFields
  {
    if k in RoomFields {
      var i :| 0 <= i < |RoomFields| && RoomFields[i] == k;
      assert RoomProperties[i].name == k;
      assert RoomProperties[i] in RoomProperties;
    }
  }

  lemma RequiredMeaning(m: seq<Member>)
    ensures HasRequired(RoomSchema, m) <==>
      && Lookup(m, "roomNumber").Some? && Lookup(m, "floor").Some? && Lookup(m, "usersNumber").Some?
      && Lookup(m, "pricePerDay").Some? && Lookup(m, "category").Some?
  {
  }

  lemma DeclaredMeaning(m: seq<Member>)
    ensures OnlyDeclared(RoomSchema, m) <==> forall i :: 0 <= i < |m| ==> m[i].key in RoomFields
  {
    forall i | 0 <= i < |m|
      ensures Declared(RoomProperties, m[i].key) <==> m[i].key in RoomFields
    {
      DeclaredRoomFields(m[i].key);
    }
  }

  /** The schema accepts exactly the bodies that keep the rules. */
  lemma RoomSchemaMeaning(body: Json)
    ensures Valid(RoomSchema, body) <==> RoomRules(body)
  {
    if body.JObj? {
      var m := body.members;
      RequiredMeaning(m);
      DeclaredMeaning(m);
      PropertiesMeaning(m);
      assert TypedValid(RoomSchema, body) <==>
        HasRequired(RoomSchema, m) && OnlyDeclared(RoomSchema, m)
        && forall i :: 0 <= i < |RoomProperties| ==> PropertyValid(RoomProperties[i], m);
    }
  }

  // ---------------------------------------------------------------------------
  // The middleware
  // ---------------------------------------------------------------------------

  /** The field named in the error text. */
  function ErrorField(e: SchemaError): string {
    var field := RemoveFirstSlash(Pointer(e.path));
    if field == "" then "Umumiy" else field
  }

  /** An error of a room body is named "Umumiy" exactly when it is about the body as a whole;
      otherwise the name starts with the room field it is about. */
  lemma ErrorFieldOfRoomError(body: Json, e: SchemaError)
    requires e in Errors(RoomSchema, body, [])
    ensures ErrorField(e) == "Umumiy" <==> e.path == []
    ensures e.path != [] ==> e.path[0].Key? && e.path[0].name in RoomFields
                             && ErrorField(e) == e.path[0].name + Pointer(e.path[1..])
    ensures body.JObj? ==> ErrorField(e) == "Umumiy" || ErrorField(e) in RoomFields
  {
    ErrorsBelowPath(RoomSchema, body, [], e);
    FieldOfPath(e.path);
    if e.path != [] {
      assert StepOf(RoomSchema, e.path[0]);
      DeclaredRoomFields(e.path[0].name);
      NotGeneral(e.path[0].name, Pointer(e.path[1..]));
    }
    if body.JObj? {
      RoomObjectErrorField(body.members, e);
    }
  }

  /** An error of a room object names the body as a whole or one room field, nothing deeper. */
  lemma RoomObjectErrorField(members: seq<Member>, e: SchemaError)
    requires e in Errors(RoomSchema, JObj(members), [])
    ensures ErrorField(e) == "Umumiy" || ErrorField(e) in RoomFields
  {
    ErrorsBelowPath(RoomSchema, JObj(members), [], e);
    RoomObjectErrorsShallow(members, e);
    if e.path != [] {
      assert StepOf(RoomSchema, e.path[0]);
      DeclaredRoomFields(e.path[0].name);
      FieldOfKey(e.path);
      NotGeneral(e.path[0].name, "");
      assert e.path[0].name + "" == e.path[0].name;
    }
  }

  /** No room field name, whatever follows it, reads "Umumiy" or nothing. */
  lemma NotGeneral(name: string, rest: string)
    requires name in RoomFields
    ensures name + rest != "" && name + rest != "Umumiy"
  {
    assert |name| > 0 && name[0] != 'U';
    assert (name + rest)[0] == name[0];
  }

  /** `next()`, or an error response naming the field of the first error. */
  datatype Decision = Next | Reject(field: string, error: SchemaError)

  /** `roomValidation`. */
  function Validate(body: Json): (r: Decision)
    ensures r.Next? <==> RoomRules(body)
    ensures r.Reject? ==> Errors(RoomSchema, body, []) != [] && r.error == Errors(RoomSchema, body, [])[0]
    ensures r.Reject? ==> (r.field == "Umumiy" <==> r.error.path == [])
    ensures r.Reject? && r.error.path != [] ==>
      r.error.path[0].Key? && r.error.path[0].name in RoomFields
      && r.field == r.error.path[0].name + Pointer(r.error.path[1..])
    ensures r.Reject? && body.JObj? ==> r.field == "Umumiy" || r.field in RoomFields
  {
    NoErrorsIffValid(RoomSchema, body, []);
    RoomSchemaMeaning(body);
    var errors := Errors(RoomSchema, body, []);
    if errors == [] then Next
    else
      ErrorFieldOfRoomError(body, errors[0]);
      Reject(ErrorField(errors[0]), errors[0])
  }

  /** Each room property has a message of its own. */
  lemma RoomPropertyHasMessage(i: nat)
    requires i < |RoomProperties|
    ensures RoomProperties[i].name in RoomMessages.children
  {
    if i < 4 {
      assert RoomMessages.children[i] == RoomProperties[i].name;
    } else {
      assert RoomMessages.children[i + 2] == RoomProperties[i].name;
    }
  }

  /** Every error of a room object has a message replacing it. */
  lemma RoomErrorsCovered(members: seq<Member>)
    ensures Uncovered(RoomMessages, [], KeywordErrors(RoomSchema, JObj(members), [])) == []
  {
    var s := RoomSchema;
    var es := KeywordErrors(s, JObj(members), []);
    forall e | e in es
      ensures Covered(RoomMessages, [], e)
    {
      RoomErrorKind(members, e);
    }
    AllCovered(RoomMessages, [], es);
  }

  lemma RoomErrorKind(members: seq<Member>, e: SchemaError)
    requires e in KeywordErrors(RoomSchema, JObj(members), [])
    ensures Covered(RoomMessages, [], e)
  {
    var s := RoomSchema;
    assert s.typ == TObject && s.enum.None? && s.properties == RoomProperties;
    assert s.required == RoomMessages.required;
    ObjectErrorKinds(s, members, [], e);
    if |e.path| == 0 {
      if e.keyword == Required {
        assert e.param in RoomMessages.required;
      } else {
        assert e.keyword in RoomMessages.keywords;
      }
    } else {
      var i :| 0 <= i < |RoomProperties| && e in PropertyErrors(RoomProperties[i], members, []);
      PropertyErrorsBelowPath(RoomProperties[i], members, [], e);
      RoomPropertyHasMessage(i);
      assert [] + [Key(RoomProperties[i].name)] <= e.path;
    }
  }

  /** Since every error of a room object is replaced by a message, what is reported about an
      object lies at the object or names one of its properties. */
  lemma RoomObjectErrorsShallow(members: seq<Member>, e: SchemaError)
    requires e in Errors(RoomSchema, JObj(members), [])
    ensures |e.path| <= 1
  {
    var es := KeywordErrors(RoomSchema, JObj(members), []);
    RoomErrorsCovered(members);
    ReportedSource(RoomMessages, [], es, e);
  }

  /** A body without a room number is refused with the general field name: for an extra
      property if it has one, and otherwise for the missing number. */
  lemma MissingRoomNumberIsGeneral(members: seq<Member>)
    requires Lookup(members, "roomNumber").None?
    ensures OnlyDeclared(RoomSchema, members) ==>
      Validate(JObj(members)) == Reject("Umumiy", SchemaError([], Message(Required), "roomNumber"))
    ensures !OnlyDeclared(RoomSchema, members) ==>
      Validate(JObj(members)) == Reject("Umumiy", SchemaError([], Message(AdditionalProperties), ""))
  {
    FirstErrorWithoutNumber(members);
  }

  lemma FirstErrorWithoutNumber(members: seq<Member>)
    requires Lookup(members, "roomNumber").None?
    ensures Errors(RoomSchema, JObj(members), []) != []
    ensures Errors(RoomSchema, JObj(members), [])[0]
      == if OnlyDeclared(RoomSchema, members)
         then SchemaError([], Message(Required), "roomNumber")
         else SchemaError([], Message(AdditionalProperties), "")
  {
    RoomErrorsCovered(members);
    FirstMessageOfObject(RoomSchema, members, [], "roomNumber");
  }

  /** The pattern on `nurse`, `cleaner` and the capacity ids is the id check of the room
      controller: 24 hexadecimal characters. */
  lemma ObjectIdPatternIsIdCheck(s: string)
    ensures Matches(Run(Hex, 24, 24), s) <==> Rooms.ObjectIdValid(s)
  {
  }
}
