/** The part of JSON Schema (draft-07) that the request validators use, evaluated as Ajv 8
    evaluates it with `allErrors`: a declarative validity predicate, and the list of errors
    in the order Ajv reports them.

    Ajv reports, for one schema: an up-front `type` error when the type is checked up front
    (the schema allows `null`, or has no keyword specific to its type); then `enum`; then,
    when the value has the schema's type, that type's keywords in Ajv's rule order
    (`maximum`, `minimum`; `maxLength`, `minLength`, `pattern`; `items`; `required`,
    `additionalProperties`, `properties`), and otherwise the `type` error, if it was not
    checked up front.

    A schema may also carry `errorMessage` (the ajv-errors plugin), which runs after the
    schema's other keywords: the errors it has a message for are taken out of the list, the
    others keep their place, and one new error per message used is appended, first those for
    keywords, then those for missing properties, then those for properties. */
module Schemas {
  import opened Wrappers

  /** A parsed request body. Numbers are exact; an object is its members in key order.
      `JSON.parse` keeps the last of repeated keys, so a body with repeated keys stands for
      the object without the earlier ones. */
  datatype Json = JNull | JBool(b: bool) | JNum(n: real) | JStr(s: string) | JArr(items: seq<Json>) | JObj(members: seq<Member>)

  datatype Member = Member(key: string, value: Json)

  /** The value of a property, when the object has it (the first member with that key). */
  function Lookup(members: seq<Member>, key: string): Option<Json> {
    if members == [] then None
    else if members[0].key == key then Some(members[0].value)
    else Lookup(members[1..], key)
  }

  datatype TypeName = TString | TNumber | TBoolean | TArray | TObject

  datatype CharClass = Decimal | Hex

  /** An anchored single-class pattern `^[class]{min,max}$`. */
  datatype Pattern = Run(cls: CharClass, min: nat, max: nat)

  datatype Property = Property(name: string, schema: Schema)

  /** A schema with one `type`; `nullable` is Ajv's keyword adding `null` to that type, and
      `additionalProperties` is false when extra properties are forbidden. */
  datatype Schema = Schema(
    typ: TypeName,
    nullable: bool,
    maxLength: Option<nat>,
    minLength: Option<nat>,
    pattern: Option<Pattern>,
    maximum: Option<real>,
    minimum: Option<real>,
    enum: Option<seq<Json>>,
    items: Option<Schema>,
    required: seq<string>,
    additionalProperties: bool,
    properties: seq<Property>,
    messages: Messages)

  /** The `errorMessage` keyword: a message replacing the errors of each listed keyword at the
      schema's own value, one replacing the `required` error of each listed property, and one
      replacing every error within each listed property. The texts are not modelled. */
  datatype Messages = Messages(keywords: seq<Keyword>, required: seq<string>, children: seq<string>)

  const NoMessages := Messages([], [], [])

  /** The schema `{type: t}` and nothing else. */
  function Of(t: TypeName): Schema {
    Schema(t, false, None, None, None, None, None, None, None, [], true, [], NoMessages)
  }

  /** A step in an error's `instancePath`. */
  datatype Segment = Key(name: string) | Index(i: nat)

  /** A keyword of an error; `Message(k)` is the `errorMessage` error replacing errors of `k`,
      and `ChildMessage` the one replacing the errors within a property. */
  datatype Keyword = Type | MaxLength | MinLength | PatternKeyword | Maximum | Minimum | Enum
                   | Required | AdditionalProperties | Message(replaced: Keyword) | ChildMessage

  /** An Ajv error: where, which keyword, and the missing, additional or replaced property's
      name. */
  datatype SchemaError = SchemaError(path: seq<Segment>, keyword: Keyword, param: string)

  predicate InClass(c: CharClass, ch: char) {
    match c
    case Decimal => '0' <= ch <= '9'
    case Hex => '0' <= ch <= '9' || 'a' <= ch <= 'f' || 'A' <= ch <= 'F'
  }

  predicate Matches(p: Pattern, s: string) {
    p.min <= |s| <= p.max && forall i :: 0 <= i < |s| ==> InClass(p.cls, s[i])
  }

  predicate HasType(t: TypeName, j: Json) {
    match t
    case TString => j.JStr?
    case TNumber => j.JNum?
    case TBoolean => j.JBool?
    case TArray => j.JArr?
    case TObject => j.JObj?
  }

  predicate TypeOk(s: Schema, j: Json) {
    HasType(s.typ, j) || (s.nullable && j.JNull?)
  }

  /** The schema uses a keyword that applies only to its own type. */
  predicate HasTypeKeywords(s: Schema) {
    match s.typ
    case TString => s.maxLength.Some? || s.minLength.Some? || s.pattern.Some?
    case TNumber => s.maximum.Some? || s.minimum.Some?
    case TBoolean => false
    case TArray => s.items.Some?
    case TObject => s.required != [] || !s.additionalProperties || s.properties != []
  }

  /** Ajv checks the type before the other keywords. */
  predicate TypeCheckedFirst(s: Schema) {
    s.nullable || !HasTypeKeywords(s)
  }

  predicate Declared(props: seq<Property>, key: string) {
    exists p :: p in props && p.name == key
  }

  /** What the schema demands of a value (JSON Schema validation, sections 6.1 to 6.5). */
  predicate Valid(s: Schema, j: Json)
    decreases s, 1
  {
    && TypeOk(s, j)
    && (s.enum.Some? ==> j in s.enum.value)
    && (HasType(s.typ, j) ==> TypedValid(s, j))
  }

  /** What the keywords specific to the schema's type demand of a value of that type. */
  predicate TypedValid(s: Schema, j: Json)
    requires HasType(s.typ, j)
    decreases s, 0
  {
    match s.typ
    case TNumber =>
      (s.maximum.Some? ==> j.n <= s.maximum.value) && (s.minimum.Some? ==> j.n >= s.minimum.value)
    case TString =>
      && (s.maxLength.Some? ==> |j.s| <= s.maxLength.value)
      && (s.minLength.Some? ==> |j.s| >= s.minLength.value)
      && (s.pattern.Some? ==> Matches(s.pattern.value, j.s))
    case TBoolean => true
    case TArray =>
      s.items.Some? ==> forall i :: 0 <= i < |j.items| ==> Valid(s.items.value, j.items[i])
    case TObject =>
      && HasRequired(s, j.members)
      && (!s.additionalProperties ==> OnlyDeclared(s, j.members))
      && forall i :: 0 <= i < |s.properties| ==> PropertyValid(s.properties[i], j.members)
  }

  predicate HasRequired(s: Schema, members: seq<Member>) {
    forall r :: r in s.required ==> Lookup(members, r).Some?
  }

  predicate OnlyDeclared(s: Schema, members: seq<Member>) {
    forall i :: 0 <= i < |members| ==> Declared(s.properties, members[i].key)
  }

  /** A property, when present, satisfies its schema. */
  predicate PropertyValid(p: Property, members: seq<Member>)
    decreases p, 2
  {
    var v := Lookup(members, p.name);
    v.Some? ==> Valid(p.schema, v.value)
  }

  /** The property is absent, or its value is acceptable: a rule stated on the body. */
  predicate FieldOk(m: seq<Member>, key: string, ok: Json -> bool) {
    var v := Lookup(m, key);
    v.Some? ==> ok(v.value)
  }

  function Flatten<T>(xs: seq<seq<T>>): seq<T> {
    if xs == [] then [] else xs[0] + Flatten(xs[1..])
  }

  lemma {:induction false} FlattenEmpty<T>(xs: seq<seq<T>>)
    ensures Flatten(xs) == [] <==> forall i :: 0 <= i < |xs| ==> xs[i] == []
  {
    if xs != [] {
      FlattenEmpty(xs[1..]);
      assert forall i :: 1 <= i < |xs| ==> xs[i] == xs[1..][i - 1];
    }
  }

  lemma {:induction false} FlattenHas<T>(xs: seq<seq<T>>, i: nat, x: T)
    requires i < |xs| && x in xs[i]
    ensures x in Flatten(xs)
  {
    if i > 0 {
      FlattenHas(xs[1..], i - 1, x);
    }
  }

  lemma {:induction false} FlattenMember<T>(xs: seq<seq<T>>, x: T)
    requires x in Flatten(xs)
    ensures exists i :: 0 <= i < |xs| && x in xs[i]
  {
    if x !in xs[0] {
      FlattenMember(xs[1..], x);
      var i :| 0 <= i < |xs[1..]| && x in xs[1..][i];
      assert x in xs[i + 1];
    }
  }

  /** The errors reported for `j` at `path`, in order: those of the schema's keywords, as
      its `errorMessage` leaves them. */
  function Errors(s: Schema, j: Json, path: seq<Segment>): seq<SchemaError>
    decreases s, 2
  {
    Reported(s.messages, path, KeywordErrors(s, j, path))
  }

  /** The errors of the schema's keywords, in Ajv's order, before `errorMessage` applies. */
  function KeywordErrors(s: Schema, j: Json, path: seq<Segment>): seq<SchemaError>
    decreases s, 1
  {
    var typeError := [SchemaError(path, Type, "")];
    (if TypeCheckedFirst(s) && !TypeOk(s, j) then typeError else [])
    + (if s.enum.Some? && j !in s.enum.value then [SchemaError(path, Enum, "")] else [])
    + (if HasType(s.typ, j) then TypedErrors(s, j, path)
       else if !TypeCheckedFirst(s) then typeError
       else [])
  }

  /** The errors of the keywords specific to the schema's type, for a value of that type. */
  function TypedErrors(s: Schema, j: Json, path: seq<Segment>): seq<SchemaError>
    requires HasType(s.typ, j)
    decreases s, 0
  {
    match s.typ
    case TNumber =>
      (if s.maximum.Some? && j.n > s.maximum.value then [SchemaError(path, Maximum, "")] else [])
      + (if s.minimum.Some? && j.n < s.minimum.value then [SchemaError(path, Minimum, "")] else [])
    case TString =>
      (if s.maxLength.Some? && |j.s| > s.maxLength.value then [SchemaError(path, MaxLength, "")] else [])
      + (if s.minLength.Some? && |j.s| < s.minLength.value then [SchemaError(path, MinLength, "")] else [])
      + (if s.pattern.Some? && !Matches(s.pattern.value, j.s) then [SchemaError(path, PatternKeyword, "")] else [])
    case TBoolean => []
    case TArray =>
      if s.items.None? then []
      else Flatten(seq(|j.items|, i requires 0 <= i < |j.items| =>
                         Errors(s.items.value, j.items[i], path + [Index(i)])))
    case TObject =>
      RequiredErrors(s, j.members, path) + AdditionalErrors(s, j.members, path)
      + Flatten(seq(|s.properties|, i requires 0 <= i < |s.properties| =>
                      PropertyErrors(s.properties[i], j.members, path)))
  }

  function RequiredErrors(s: Schema, members: seq<Member>, path: seq<Segment>): seq<SchemaError> {
    Flatten(seq(|s.required|, i requires 0 <= i < |s.required| =>
                  if Lookup(members, s.required[i]).None? then [SchemaError(path, Required, s.required[i])] else []))
  }

  function AdditionalErrors(s: Schema, members: seq<Member>, path: seq<Segment>): seq<SchemaError> {
    if s.additionalProperties then []
    else Flatten(seq(|members|, i requires 0 <= i < |members| =>
                       if Declared(s.properties, members[i].key) then []
                       else [SchemaError(path, AdditionalProperties, members[i].key)]))
  }

  function PropertyErrors(p: Property, members: seq<Member>, path: seq<Segment>): seq<SchemaError>
    decreases p, 2
  {
    match Lookup(members, p.name)
    case None => []
    case Some(v) => Errors(p.schema, v, path + [Key(p.name)])
  }

  // ---------------------------------------------------------------------------
  // `errorMessage`
  // ---------------------------------------------------------------------------

  predicate HasKeywordError(es: seq<SchemaError>, path: seq<Segment>, k: Keyword) {
    exists e :: e in es && e.path == path && e.keyword == k
  }

  /** Some error lies within the value at `p`. */
  predicate HasErrorWithin(es: seq<SchemaError>, p: seq<Segment>) {
    exists e :: e in es && p <= e.path
  }

  /** The error is one that a message of the schema at `path` replaces. */
  predicate Covered(m: Messages, path: seq<Segment>, e: SchemaError) {
    || (e.path == path && e.keyword in m.keywords)
    || (e.path == path && e.keyword == Required && e.param in m.required)
    || exists c :: c in m.children && path + [Key(c)] <= e.path
  }

  /** The errors no message replaces, in their order. */
  function Uncovered(m: Messages, path: seq<Segment>, es: seq<SchemaError>): seq<SchemaError> {
    if es == [] then []
    else (if Covered(m, path, es[0]) then [] else [es[0]]) + Uncovered(m, path, es[1..])
  }

  function KeywordMessages(m: Messages, path: seq<Segment>, es: seq<SchemaError>): seq<SchemaError> {
    Flatten(seq(|m.keywords|, i requires 0 <= i < |m.keywords| =>
                  if HasKeywordError(es, path, m.keywords[i]) then [SchemaError(path, Message(m.keywords[i]), "")] else []))
  }

  function RequiredMessages(m: Messages, path: seq<Segment>, es: seq<SchemaError>): seq<SchemaError> {
    Flatten(seq(|m.required|, i requires 0 <= i < |m.required| =>
                  if SchemaError(path, Required, m.required[i]) in es
                  then [SchemaError(path, Message(Required), m.required[i])] else []))
  }

  function ChildMessages(m: Messages, path: seq<Segment>, es: seq<SchemaError>): seq<SchemaError> {
    Flatten(seq(|m.children|, i requires 0 <= i < |m.children| =>
                  if HasErrorWithin(es, path + [Key(m.children[i])])
                  then [SchemaError(path + [Key(m.children[i])], ChildMessage, m.children[i])] else []))
  }

  /** The errors as `errorMessage` leaves them: the ones it has no message for, then one error
      per message that replaced something. */
  function Reported(m: Messages, path: seq<Segment>, es: seq<SchemaError>): seq<SchemaError> {
    Uncovered(m, path, es) + KeywordMessages(m, path, es) + RequiredMessages(m, path, es) + ChildMessages(m, path, es)
  }

  /** An error is kept exactly when no message replaces it. */
  lemma {:induction false} UncoveredMembers(m: Messages, path: seq<Segment>, es: seq<SchemaError>, e: SchemaError)
    ensures e in Uncovered(m, path, es) <==> e in es && !Covered(m, path, e)
  {
    if es != [] {
      UncoveredMembers(m, path, es[1..], e);
      assert es == [es[0]] + es[1..];
    }
  }

  /** Without messages, the errors are kept as they are. */
  lemma {:induction false} NoMessagesKeepErrors(path: seq<Segment>, es: seq<SchemaError>)
    ensures Reported(NoMessages, path, es) == es
  {
    if es != [] {
      NoMessagesKeepErrors(path, es[1..]);
      assert es == [es[0]] + es[1..];
    }
    assert KeywordMessages(NoMessages, path, es) == [];
    assert RequiredMessages(NoMessages, path, es) == [];
    assert ChildMessages(NoMessages, path, es) == [];
  }

  /** Of two errors, the ones no message replaces, in their order. */
  lemma UncoveredPair(m: Messages, path: seq<Segment>, a: SchemaError, b: SchemaError)
    ensures Uncovered(m, path, [a, b]) == (if Covered(m, path, a) then [] else [a]) + (if Covered(m, path, b) then [] else [b])
  {
    assert [a, b][1..] == [b] && [b][1..] == [];
    assert Uncovered(m, path, [b]) == (if Covered(m, path, b) then [] else [b]) + Uncovered(m, path, []);
  }

  /** `errorMessage` reports something exactly when there was an error. */
  lemma ReportedEmpty(m: Messages, path: seq<Segment>, es: seq<SchemaError>)
    ensures Reported(m, path, es) == [] <==> es == []
  {
    if es == [] {
      NothingReported(m, path);
    } else {
      var x := es[0];
      UncoveredMembers(m, path, es, x);
      if x.path == path && x.keyword in m.keywords {
        var i :| 0 <= i < |m.keywords| && m.keywords[i] == x.keyword;
        KeywordMessageUsed(m, path, es, i);
      } else if x.path == path && x.keyword == Required && x.param in m.required {
        var i :| 0 <= i < |m.required| && m.required[i] == x.param;
        RequiredMessageUsed(m, path, es, i);
      } else if exists c :: c in m.children && path + [Key(c)] <= x.path {
        var c :| c in m.children && path + [Key(c)] <= x.path;
        var i :| 0 <= i < |m.children| && m.children[i] == c;
        ChildMessageUsed(m, path, es, i);
      }
    }
  }

  lemma NothingReported(m: Messages, path: seq<Segment>)
    ensures Reported(m, path, []) == []
  {
    var es: seq<SchemaError> := [];
    FlattenEmpty(seq(|m.keywords|, i requires 0 <= i < |m.keywords| =>
                       if HasKeywordError(es, path, m.keywords[i]) then [SchemaError(path, Message(m.keywords[i]), "")] else []));
    FlattenEmpty(seq(|m.required|, i requires 0 <= i < |m.required| =>
                       if SchemaError(path, Required, m.required[i]) in es
                       then [SchemaError(path, Message(Required), m.required[i])] else []));
    FlattenEmpty(seq(|m.children|, i requires 0 <= i < |m.children| =>
                       if HasErrorWithin(es, path + [Key(m.children[i])])
                       then [SchemaError(path + [Key(m.children[i])], ChildMessage, m.children[i])] else []));
  }

  lemma KeywordMessageUsed(m: Messages, path: seq<Segment>, es: seq<SchemaError>, i: nat)
    requires i < |m.keywords| && HasKeywordError(es, path, m.keywords[i])
    ensures SchemaError(path, Message(m.keywords[i]), "") in KeywordMessages(m, path, es)
  {
    var kw := seq(|m.keywords|, i requires 0 <= i < |m.keywords| =>
                    if HasKeywordError(es, path, m.keywords[i]) then [SchemaError(path, Message(m.keywords[i]), "")] else []);
    FlattenHas(kw, i, SchemaError(path, Message(m.keywords[i]), ""));
  }

  lemma RequiredMessageUsed(m: Messages, path: seq<Segment>, es: seq<SchemaError>, i: nat)
    requires i < |m.required| && SchemaError(path, Required, m.required[i]) in es
    ensures SchemaError(path, Message(Required), m.required[i]) in RequiredMessages(m, path, es)
  {
    var rq := seq(|m.required|, i requires 0 <= i < |m.required| =>
                    if SchemaError(path, Required, m.required[i]) in es
                    then [SchemaError(path, Message(Required), m.required[i])] else []);
    FlattenHas(rq, i, SchemaError(path, Message(Required), m.required[i]));
  }

  lemma ChildMessageUsed(m: Messages, path: seq<Segment>, es: seq<SchemaError>, i: nat)
    requires i < |m.children| && HasErrorWithin(es, path + [Key(m.children[i])])
    ensures SchemaError(path + [Key(m.children[i])], ChildMessage, m.children[i]) in ChildMessages(m, path, es)
  {
    var ch := seq(|m.children|, i requires 0 <= i < |m.children| =>
                    if HasErrorWithin(es, path + [Key(m.children[i])])
                    then [SchemaError(path + [Key(m.children[i])], ChildMessage, m.children[i])] else []);
    FlattenHas(ch, i, SchemaError(path + [Key(m.children[i])], ChildMessage, m.children[i]));
  }

  /** A reported error is one of the schema's own that no message replaced, or a message at the schema's value, or a
      message at one of its properties holding some of the schema's errors. */
  lemma ReportedSource(m: Messages, path: seq<Segment>, es: seq<SchemaError>, e: SchemaError)
    requires e in Reported(m, path, es)
    ensures e in Uncovered(m, path, es) ==> e in es
    ensures || e in Uncovered(m, path, es)
            || (e.path == path && e.keyword.Message?)
            || (e.keyword == ChildMessage && exists x :: x in es && |x.path| > |path| && e.path == x.path[..|path| + 1])
  {
    UncoveredMembers(m, path, es, e);
    if e in KeywordMessages(m, path, es) {
      KeywordMessageSource(m, path, es, e);
    } else if e in RequiredMessages(m, path, es) {
      RequiredMessageSource(m, path, es, e);
    } else if e in ChildMessages(m, path, es) {
      ChildMessageSource(m, path, es, e);
    }
  }

  lemma KeywordMessageSource(m: Messages, path: seq<Segment>, es: seq<SchemaError>, e: SchemaError)
    requires e in KeywordMessages(m, path, es)
    ensures e.path == path && e.keyword.Message?
  {
    var kw := seq(|m.keywords|, i requires 0 <= i < |m.keywords| =>
                    if HasKeywordError(es, path, m.keywords[i]) then [SchemaError(path, Message(m.keywords[i]), "")] else []);
    FlattenMember(kw, e);
  }

  lemma RequiredMessageSource(m: Messages, path: seq<Segment>, es: seq<SchemaError>, e: SchemaError)
    requires e in RequiredMessages(m, path, es)
    ensures e.path == path && e.keyword.Message?
  {
    var rq := seq(|m.required|, i requires 0 <= i < |m.required| =>
                    if SchemaError(path, Required, m.required[i]) in es
                    then [SchemaError(path, Message(Required), m.required[i])] else []);
    FlattenMember(rq, e);
  }

  lemma ChildMessageSource(m: Messages, path: seq<Segment>, es: seq<SchemaError>, e: SchemaError)
    requires e in ChildMessages(m, path, es)
    ensures e.keyword == ChildMessage && exists x :: x in es && |x.path| > |path| && e.path == x.path[..|path| + 1]
  {
    var ch := seq(|m.children|, i requires 0 <= i < |m.children| =>
                    if HasErrorWithin(es, path + [Key(m.children[i])])
                    then [SchemaError(path + [Key(m.children[i])], ChildMessage, m.children[i])] else []);
    FlattenMember(ch, e);
    var i :| 0 <= i < |ch| && e in ch[i];
    var p := path + [Key(m.children[i])];
    var x :| x in es && p <= x.path;
    assert x.path[..|path| + 1] == p;
  }

  /** A value has no errors exactly when it satisfies the schema. */
  lemma {:induction false} NoErrorsIffValid(s: Schema, j: Json, path: seq<Segment>)
    ensures Errors(s, j, path) == [] <==> Valid(s, j)
    decreases s, 2
  {
    ReportedEmpty(s.messages, path, KeywordErrors(s, j, path));
    NoKeywordErrorsIffValid(s, j, path);
  }

  lemma {:induction false} NoKeywordErrorsIffValid(s: Schema, j: Json, path: seq<Segment>)
    ensures KeywordErrors(s, j, path) == [] <==> Valid(s, j)
    decreases s, 1
  {
    if HasType(s.typ, j) {
      NoTypedErrorsIffValid(s, j, path);
    }
  }

  lemma {:induction false} NoTypedErrorsIffValid(s: Schema, j: Json, path: seq<Segment>)
    requires HasType(s.typ, j)
    ensures TypedErrors(s, j, path) == [] <==> TypedValid(s, j)
    decreases s, 0
  {
    match s.typ
    case TNumber =>
    case TString =>
    case TBoolean =>
    case TArray =>
      if s.items.Some? {
        var xs := seq(|j.items|, i requires 0 <= i < |j.items| => Errors(s.items.value, j.items[i], path + [Index(i)]));
        FlattenEmpty(xs);
        forall i | 0 <= i < |j.items|
          ensures xs[i] == [] <==> Valid(s.items.value, j.items[i])
        {
          NoErrorsIffValid(s.items.value, j.items[i], path + [Index(i)]);
        }
      }
    case TObject =>
      var m := j.members;
      NoRequiredErrorsIff(s, m, path);
      NoAdditionalErrorsIff(s, m, path);
      var props := seq(|s.properties|, i requires 0 <= i < |s.properties| => PropertyErrors(s.properties[i], m, path));
      FlattenEmpty(props);
      forall i | 0 <= i < |s.properties|
        ensures props[i] == [] <==> PropertyValid(s.properties[i], m)
      {
        NoPropertyErrorsIff(s.properties[i], m, path);
      }
  }

  lemma {:induction false} NoPropertyErrorsIff(p: Property, members: seq<Member>, path: seq<Segment>)
    ensures PropertyErrors(p, members, path) == [] <==> PropertyValid(p, members)
    decreases p, 2
  {
    if Lookup(members, p.name).Some? {
      NoErrorsIffValid(p.schema, Lookup(members, p.name).value, path + [Key(p.name)]);
    }
  }

  lemma NoRequiredErrorsIff(s: Schema, m: seq<Member>, path: seq<Segment>)
    ensures RequiredErrors(s, m, path) == [] <==> HasRequired(s, m)
  {
    var req := seq(|s.required|, i requires 0 <= i < |s.required| =>
                     if Lookup(m, s.required[i]).None? then [SchemaError(path, Required, s.required[i])] else []);
    FlattenEmpty(req);
    if RequiredErrors(s, m, path) == [] {
      forall r | r in s.required
        ensures Lookup(m, r).Some?
      {
        var i :| 0 <= i < |s.required| && s.required[i] == r;
        assert req[i] == [];
      }
    }
  }

  lemma NoAdditionalErrorsIff(s: Schema, m: seq<Member>, path: seq<Segment>)
    ensures AdditionalErrors(s, m, path) == [] <==> (!s.additionalProperties ==> OnlyDeclared(s, m))
  {
    if !s.additionalProperties {
      var add := seq(|m|, i requires 0 <= i < |m| =>
                       if Declared(s.properties, m[i].key) then [] else [SchemaError(path, AdditionalProperties, m[i].key)]);
      FlattenEmpty(add);
      if AdditionalErrors(s, m, path) == [] {
        forall i | 0 <= i < |m|
          ensures Declared(s.properties, m[i].key)
        {
          assert add[i] == [];
        }
      }
    }
  }

  /** In an object, the first required property that is missing is the first error of the
      schema's keywords. */
  lemma {:induction false} MissingRequiredReportedFirst(s: Schema, members: seq<Member>, path: seq<Segment>)
    requires s.typ == TObject && s.enum.None? && |s.required| > 0 && Lookup(members, s.required[0]).None?
    ensures KeywordErrors(s, JObj(members), path) != []
    ensures KeywordErrors(s, JObj(members), path)[0] == SchemaError(path, Required, s.required[0])
  {
    var req := seq(|s.required|, i requires 0 <= i < |s.required| =>
                     if Lookup(members, s.required[i]).None? then [SchemaError(path, Required, s.required[i])] else []);
    assert RequiredErrors(s, members, path) == req[0] + Flatten(req[1..]);
  }

  /** For an object, the keywords report the missing properties, then the additional ones,
      then the errors of each property in the order the schema lists them. */
  lemma ObjectErrorOrder(s: Schema, members: seq<Member>, path: seq<Segment>)
    requires s.typ == TObject && s.enum.None?
    ensures KeywordErrors(s, JObj(members), path)
      == RequiredErrors(s, members, path) + AdditionalErrors(s, members, path)
         + Flatten(seq(|s.properties|, i requires 0 <= i < |s.properties| => PropertyErrors(s.properties[i], members, path)))
  {
  }

  /** A step into a value of the schema: an item of an array, or a declared property. */
  predicate StepOf(s: Schema, seg: Segment) {
    match seg
    case Index(_) => s.typ == TArray
    case Key(name) => s.typ == TObject && Declared(s.properties, name)
  }

  /** Every error lies at or below the path of the value it was reported for, and one below
      it goes through an item or a declared property. */
  lemma {:induction false} ErrorsBelowPath(s: Schema, j: Json, path: seq<Segment>, e: SchemaError)
    requires e in Errors(s, j, path)
    ensures path <= e.path
    ensures e.path == path || (|e.path| > |path| && StepOf(s, e.path[|path|]))
    decreases s, 4
  {
    var es := KeywordErrors(s, j, path);
    ReportedSource(s.messages, path, es, e);
    if e in Uncovered(s.messages, path, es) {
      KeywordErrorsBelowPath(s, j, path, e);
    } else if e.path != path {
      var x :| x in es && |x.path| > |path| && e.path == x.path[..|path| + 1];
      KeywordErrorsBelowPath(s, j, path, x);
      assert e.path[|path|] == x.path[|path|];
    }
  }

  lemma {:induction false} KeywordErrorsBelowPath(s: Schema, j: Json, path: seq<Segment>, e: SchemaError)
    requires e in KeywordErrors(s, j, path)
    ensures path <= e.path
    ensures e.path == path || (|e.path| > |path| && StepOf(s, e.path[|path|]))
    decreases s, 3
  {
    if HasType(s.typ, j) && e in TypedErrors(s, j, path) {
      TypedErrorsBelowPath(s, j, path, e);
    }
  }

  lemma {:induction false} TypedErrorsBelowPath(s: Schema, j: Json, path: seq<Segment>, e: SchemaError)
    requires HasType(s.typ, j) && e in TypedErrors(s, j, path)
    ensures path <= e.path
    ensures e.path == path || (|e.path| > |path| && StepOf(s, e.path[|path|]))
    decreases s, 2
  {
    if s.typ == TArray {
      ArrayErrorsBelowPath(s, j, path, e);
    } else if s.typ == TObject {
      var m := j.members;
      if e in RequiredErrors(s, m, path) {
        RequiredErrorsAtPath(s, m, path, e);
      } else if e in AdditionalErrors(s, m, path) {
        AdditionalErrorsAtPath(s, m, path, e);
      } else {
        ObjectErrorsBelowPath(s, m, path, e);
      }
    }
  }

  lemma {:induction false} ArrayErrorsBelowPath(s: Schema, j: Json, path: seq<Segment>, e: SchemaError)
    requires s.typ == TArray && j.JArr? && e in TypedErrors(s, j, path)
    ensures path <= e.path
    ensures e.path == path || (|e.path| > |path| && StepOf(s, e.path[|path|]))
    decreases s, 1
  {
    var xs := seq(|j.items|, i requires 0 <= i < |j.items| => Errors(s.items.value, j.items[i], path + [Index(i)]));
    FlattenMember(xs, e);
    var i :| 0 <= i < |xs| && e in xs[i];
    ErrorsBelowPath(s.items.value, j.items[i], path + [Index(i)], e);
  }

  lemma RequiredErrorsAtPath(s: Schema, m: seq<Member>, path: seq<Segment>, e: SchemaError)
    requires e in RequiredErrors(s, m, path)
    ensures e.path == path && e.keyword == Required && e.param in s.required
  {
    var req := seq(|s.required|, i requires 0 <= i < |s.required| =>
                     if Lookup(m, s.required[i]).None? then [SchemaError(path, Required, s.required[i])] else []);
    FlattenMember(req, e);
  }

  lemma AdditionalErrorsAtPath(s: Schema, m: seq<Member>, path: seq<Segment>, e: SchemaError)
    requires e in AdditionalErrors(s, m, path)
    ensures e.path == path && e.keyword == AdditionalProperties
  {
    var add := seq(|m|, i requires 0 <= i < |m| =>
                     if Declared(s.properties, m[i].key) then [] else [SchemaError(path, AdditionalProperties, m[i].key)]);
    FlattenMember(add, e);
  }

  lemma {:induction false} ObjectErrorsBelowPath(s: Schema, m: seq<Member>, path: seq<Segment>, e: SchemaError)
    requires s.typ == TObject
    requires e in Flatten(seq(|s.properties|, i requires 0 <= i < |s.properties| => PropertyErrors(s.properties[i], m, path)))
    ensures path <= e.path
    ensures |e.path| > |path| && StepOf(s, e.path[|path|])
    decreases s, 1
  {
    var props := seq(|s.properties|, i requires 0 <= i < |s.properties| => PropertyErrors(s.properties[i], m, path));
    FlattenMember(props, e);
    var i :| 0 <= i < |props| && e in props[i];
    PropertyErrorsBelowPath(s.properties[i], m, path, e);
    assert s.properties[i] in s.properties;
  }

  lemma {:induction false} PropertyErrorsBelowPath(p: Property, members: seq<Member>, path: seq<Segment>, e: SchemaError)
    requires e in PropertyErrors(p, members, path)
    ensures path + [Key(p.name)] <= e.path
    decreases p, 2
  {
    ErrorsBelowPath(p.schema, Lookup(members, p.name).value, path + [Key(p.name)], e);
  }

  /** An error of an object's keywords below the object comes from one of its present
      properties. */
  lemma PropertyErrorSource(s: Schema, members: seq<Member>, path: seq<Segment>, e: SchemaError)
    requires s.typ == TObject && e in KeywordErrors(s, JObj(members), path) && e.path != path
    ensures exists i :: (0 <= i < |s.properties| && Lookup(members, s.properties[i].name).Some?
      && e in Errors(s.properties[i].schema, Lookup(members, s.properties[i].name).value, path + [Key(s.properties[i].name)]))
  {
    var m := members;
    var req := seq(|s.required|, i requires 0 <= i < |s.required| =>
                     if Lookup(m, s.required[i]).None? then [SchemaError(path, Required, s.required[i])] else []);
    if e in RequiredErrors(s, m, path) {
      FlattenMember(req, e);
    }
    if e in AdditionalErrors(s, m, path) {
      var add := seq(|m|, i requires 0 <= i < |m| =>
                       if Declared(s.properties, m[i].key) then [] else [SchemaError(path, AdditionalProperties, m[i].key)]);
      FlattenMember(add, e);
    }
    var props := seq(|s.properties|, i requires 0 <= i < |s.properties| => PropertyErrors(s.properties[i], m, path));
    FlattenMember(props, e);
  }

  /** The errors of an object's keywords: missing required properties and additional
      properties at the object, and errors of present properties below it. */
  lemma ObjectErrorKinds(s: Schema, members: seq<Member>, path: seq<Segment>, e: SchemaError)
    requires s.typ == TObject && s.enum.None? && e in KeywordErrors(s, JObj(members), path)
    ensures || (e.path == path && e.keyword == Required && e.param in s.required)
            || (e in AdditionalErrors(s, members, path) && e.path == path && e.keyword == AdditionalProperties)
            || (|e.path| > |path| && exists i :: 0 <= i < |s.properties| && e in PropertyErrors(s.properties[i], members, path))
  {
    ObjectErrorOrder(s, members, path);
    if e in RequiredErrors(s, members, path) {
      RequiredErrorsAtPath(s, members, path, e);
    } else if e in AdditionalErrors(s, members, path) {
      AdditionalErrorsAtPath(s, members, path, e);
    } else {
      var props := seq(|s.properties|, i requires 0 <= i < |s.properties| => PropertyErrors(s.properties[i], members, path));
      ObjectErrorsBelowPath(s, members, path, e);
      FlattenMember(props, e);
    }
  }

  /** Every error has a message replacing it exactly when none is kept. */
  lemma AllCovered(m: Messages, path: seq<Segment>, es: seq<SchemaError>)
    ensures Uncovered(m, path, es) == [] <==> forall e :: e in es ==> Covered(m, path, e)
  {
    if Uncovered(m, path, es) != [] {
      UncoveredMembers(m, path, es, Uncovered(m, path, es)[0]);
    }
    forall e | e in es && !Covered(m, path, e)
      ensures Uncovered(m, path, es) != []
    {
      UncoveredMembers(m, path, es, e);
    }
  }

  /** When one error alone has no message, it is the first error reported. */
  lemma OnlyUncoveredFirst(m: Messages, path: seq<Segment>, es: seq<SchemaError>, x: SchemaError)
    requires x in es && !Covered(m, path, x)
    requires forall e :: e in es && !Covered(m, path, e) ==> e == x
    ensures Reported(m, path, es) != [] && Reported(m, path, es)[0] == x
  {
    UncoveredMembers(m, path, es, x);
    UncoveredMembers(m, path, es, Uncovered(m, path, es)[0]);
  }

  /** When `errorMessage` replaces every error of an object and has a message for
      `additionalProperties` and then for the missing property `r` first, a body without `r`
      is reported at the object: for its additional properties if it has any, and otherwise
      for the missing `r`. */
  lemma FirstMessageOfObject(s: Schema, members: seq<Member>, path: seq<Segment>, r: string)
    requires s.typ == TObject && s.enum.None? && !s.additionalProperties
    requires s.messages.keywords == [AdditionalProperties] && |s.messages.required| > 0 && s.messages.required[0] == r
    requires r in s.required && Lookup(members, r).None?
    requires Uncovered(s.messages, path, KeywordErrors(s, JObj(members), path)) == []
    ensures Errors(s, JObj(members), path) != []
    ensures Errors(s, JObj(members), path)[0]
      == if OnlyDeclared(s, members) then SchemaError(path, Message(Required), r)
         else SchemaError(path, Message(AdditionalProperties), "")
  {
    var es := KeywordErrors(s, JObj(members), path);
    MissingRequiredError(s, members, path, r);
    FirstRequiredMessage(s.messages, path, es);
    OnlyKeywordMessage(s.messages, path, es);
    AdditionalErrorReported(s, members, path);
  }

  /** A required property that is missing gives a `required` error at the object. */
  lemma MissingRequiredError(s: Schema, members: seq<Member>, path: seq<Segment>, r: string)
    requires s.typ == TObject && s.enum.None? && r in s.required && Lookup(members, r).None?
    ensures SchemaError(path, Required, r) in KeywordErrors(s, JObj(members), path)
  {
    ObjectErrorOrder(s, members, path);
    var k :| 0 <= k < |s.required| && s.required[k] == r;
    var req := seq(|s.required|, i requires 0 <= i < |s.required| =>
                     if Lookup(members, s.required[i]).None? then [SchemaError(path, Required, s.required[i])] else []);
    FlattenHas(req, k, SchemaError(path, Required, r));
  }

  /** The first `required` message is used first when its property is missing. */
  lemma FirstRequiredMessage(m: Messages, path: seq<Segment>, es: seq<SchemaError>)
    requires |m.required| > 0 && SchemaError(path, Required, m.required[0]) in es
    ensures RequiredMessages(m, path, es) != []
    ensures RequiredMessages(m, path, es)[0] == SchemaError(path, Message(Required), m.required[0])
  {
    var rq := seq(|m.required|, i requires 0 <= i < |m.required| =>
                    if SchemaError(path, Required, m.required[i]) in es
                    then [SchemaError(path, Message(Required), m.required[i])] else []);
    assert Flatten(rq) == rq[0] + Flatten(rq[1..]);
  }

  /** With a message for one keyword, that message is used exactly when the keyword failed. */
  lemma OnlyKeywordMessage(m: Messages, path: seq<Segment>, es: seq<SchemaError>)
    requires |m.keywords| == 1
    ensures KeywordMessages(m, path, es)
      == if HasKeywordError(es, path, m.keywords[0]) then [SchemaError(path, Message(m.keywords[0]), "")] else []
  {
    var kw := seq(|m.keywords|, i requires 0 <= i < |m.keywords| =>
                    if HasKeywordError(es, path, m.keywords[i]) then [SchemaError(path, Message(m.keywords[i]), "")] else []);
    assert Flatten(kw) == kw[0] + Flatten(kw[1..]);
  }

  /** An object that refuses additional properties fails `additionalProperties` exactly when
      it has a property its schema does not declare. */
  lemma AdditionalErrorReported(s: Schema, members: seq<Member>, path: seq<Segment>)
    requires s.typ == TObject && s.enum.None? && !s.additionalProperties
    ensures HasKeywordError(KeywordErrors(s, JObj(members), path), path, AdditionalProperties) <==> !OnlyDeclared(s, members)
  {
    var es := KeywordErrors(s, JObj(members), path);
    NoAdditionalErrorsIff(s, members, path);
    ObjectErrorOrder(s, members, path);
    if OnlyDeclared(s, members) {
      if HasKeywordError(es, path, AdditionalProperties) {
        var x :| x in es && x.path == path && x.keyword == AdditionalProperties;
        ObjectErrorKinds(s, members, path, x);
      }
    } else {
      var x := AdditionalErrors(s, members, path)[0];
      AdditionalErrorsAtPath(s, members, path, x);
      assert x in es;
    }
  }

  predicate Scalar(t: TypeName) {
    t == TString || t == TNumber || t == TBoolean
  }

  /** A value checked against an object schema whose properties are all strings, numbers or
      booleans has its errors at most one step below it. */
  lemma FlatObjectErrors(s: Schema, j: Json, path: seq<Segment>, e: SchemaError)
    requires s.typ == TObject && forall i :: 0 <= i < |s.properties| ==> Scalar(s.properties[i].schema.typ)
    requires e in Errors(s, j, path)
    ensures path <= e.path && |e.path| <= |path| + 1
  {
    ErrorsBelowPath(s, j, path, e);
    var es := KeywordErrors(s, j, path);
    ReportedSource(s.messages, path, es, e);
    if e in Uncovered(s.messages, path, es) {
      FlatKeywordErrors(s, j, path, e);
    }
  }

  /** The same for the keyword errors, before `errorMessage` applies. */
  lemma FlatKeywordErrors(s: Schema, j: Json, path: seq<Segment>, e: SchemaError)
    requires s.typ == TObject && forall i :: 0 <= i < |s.properties| ==> Scalar(s.properties[i].schema.typ)
    requires e in KeywordErrors(s, j, path)
    ensures |e.path| <= |path| + 1
  {
    KeywordErrorsBelowPath(s, j, path, e);
    if e.path != path && j.JObj? {
      var members := j.members;
      PropertyErrorSource(s, members, path, e);
      var i :| 0 <= i < |s.properties| && Lookup(members, s.properties[i].name).Some?
        && e in Errors(s.properties[i].schema, Lookup(members, s.properties[i].name).value, path + [Key(s.properties[i].name)]);
      var p := path + [Key(s.properties[i].name)];
      ScalarErrorsAt(s.properties[i].schema, Lookup(members, s.properties[i].name).value, p, e);
    }
  }

  /** A string, number or boolean schema reports its errors at the value itself. */
  lemma ScalarErrorsAt(s: Schema, j: Json, path: seq<Segment>, e: SchemaError)
    requires Scalar(s.typ) && e in Errors(s, j, path)
    ensures e.path == path
  {
    ErrorsBelowPath(s, j, path, e);
  }

  // ---------------------------------------------------------------------------
  // `instancePath` as text
  // ---------------------------------------------------------------------------

  function DigitChar(d: nat): char
    requires d < 10
  {
    "0123456789"[d]
  }

  /** The decimal digits of an array index. */
  function IndexText(n: nat): (r: string)
    ensures r != [] && forall i :: 0 <= i < |r| ==> '0' <= r[i] <= '9'
  {
    if n < 10 then [DigitChar(n)] else IndexText(n / 10) + [DigitChar(n % 10)]
  }

  function SegmentText(seg: Segment): string {
    match seg
    case Key(name) => name
    case Index(i) => IndexText(i)
  }

  /** The JSON Pointer text of a path: `/beds/0/status`, or empty at the root. */
  function Pointer(path: seq<Segment>): string {
    if path == [] then "" else "/" + SegmentText(path[0]) + Pointer(path[1..])
  }

  /** `text.replace("/", "")`: the first slash removed, if there is one. */
  function RemoveFirstSlash(text: string): string {
    if text == [] then []
    else if text[0] == '/' then text[1..]
    else [text[0]] + RemoveFirstSlash(text[1..])
  }

  /** Only the first slash is removed, wherever it is. */
  lemma {:induction false} RemoveFirstSlashAt(text: string, k: nat)
    requires k < |text| && text[k] == '/' && forall i :: 0 <= i < k ==> text[i] != '/'
    ensures RemoveFirstSlash(text) == text[..k] + text[k + 1..]
  {
    if k > 0 {
      RemoveFirstSlashAt(text[1..], k - 1);
      assert text[..k] == [text[0]] + text[1..][..k - 1];
    }
  }

  /** Text without a slash is kept as it is. */
  lemma {:induction false} RemoveFirstSlashNone(text: string)
    requires forall i :: 0 <= i < |text| ==> text[i] != '/'
    ensures RemoveFirstSlash(text) == text
  {
    if text != [] {
      RemoveFirstSlashNone(text[1..]);
    }
  }

  /** The field named in an error message: the pointer without its leading slash, which for
      an error below the root starts with the name of the first step. */
  lemma FieldOfPath(path: seq<Segment>)
    ensures path == [] ==> RemoveFirstSlash(Pointer(path)) == ""
    ensures path != [] ==> RemoveFirstSlash(Pointer(path)) == SegmentText(path[0]) + Pointer(path[1..])
  {
    if path != [] {
      var rest := SegmentText(path[0]) + Pointer(path[1..]);
      assert Pointer(path) == "/" + rest;
      assert ("/" + rest)[0] == '/' && ("/" + rest)[1..] == rest;
    }
  }

  /** The field of a one-step path to a property is the property's name. */
  lemma FieldOfKey(path: seq<Segment>)
    requires |path| == 1 && path[0].Key?
    ensures RemoveFirstSlash(Pointer(path)) == path[0].name
  {
    FieldOfPath(path);
    assert path[1..] == [];
  }
}
