/** What encoding/json writes for the values of a type, the JSON schema that is
    derived for it, and which types have none (architecturekit/schema.go). */
module Schemas {
  import opened Basics

  datatype Json =
    | Null
    | Bool(flag: bool)
    | Number(number: real)
    | String(text: string)
    | List(items: seq<Json>)
    | Object(members: map<string, Json>)

  // ----- Schemas -----

  datatype Additional = Unmentioned | Forbidden | Described(schema: Schema)

  datatype Properties = NoProperties | Properties(named: map<string, Schema>)

  datatype Alternatives = NoAlternatives | Alternatives(schemas: seq<Schema>)

  /** A schema by its keywords, each of which may be missing. format is kept as the
      annotation it is. */
  datatype Schema = Schema(
    kind: Option<string>, format: Option<string>, items: Option<Schema>, minItems: Option<nat>, maxItems: Option<nat>,
    properties: Properties, additional: Additional, required: Option<seq<string>>, anyOf: Alternatives)

  const ANYTHING := Schema(None, None, None, None, None, NoProperties, Unmentioned, None, NoAlternatives)

  function OfKind(kind: string): Schema { ANYTHING.(kind := Some(kind)) }

  predicate IsOfKind(j: Json, kind: string) {
    match j
    case Null => kind == "null"
    case Bool(_) => kind == "boolean"
    case Number(n) => kind == "number" || (kind == "integer" && n == n.Floor as real)
    case String(_) => kind == "string"
    case List(_) => kind == "array"
    case Object(_) => kind == "object"
  }

  /** What the keywords of JSON Schema say. */
  predicate Accepts(s: Schema, j: Json)
    decreases s
  {
    && (s.kind.Some? ==> IsOfKind(j, s.kind.value))
    && (s.items.Some? && j.List? ==> forall i | 0 <= i < |j.items| :: Accepts(s.items.value, j.items[i]))
    && (s.minItems.Some? && j.List? ==> s.minItems.value <= |j.items|)
    && (s.maxItems.Some? && j.List? ==> |j.items| <= s.maxItems.value)
    && (s.properties.Properties? && j.Object? ==>
          forall name <- j.members | name in s.properties.named :: Accepts(s.properties.named[name], j.members[name]))
    && (s.additional.Forbidden? && j.Object? ==> forall name <- j.members :: IsProperty(s, name))
    && (s.additional.Described? && j.Object? ==>
          forall name <- j.members | !IsProperty(s, name) :: Accepts(s.additional.schema, j.members[name]))
    && (s.required.Some? && j.Object? ==> forall name | name in s.required.value :: name in j.members)
    && (s.anyOf.Alternatives? ==> exists i | 0 <= i < |s.anyOf.schemas| :: Accepts(s.anyOf.schemas[i], j))
  }

  predicate IsProperty(s: Schema, name: string) { s.properties.Properties? && name in s.properties.named }

  function KeywordCount(s: Schema): nat {
    (if s.kind.Some? then 1 else 0) + (if s.format.Some? then 1 else 0) + (if s.items.Some? then 1 else 0) +
    (if s.minItems.Some? then 1 else 0) + (if s.maxItems.Some? then 1 else 0) +
      (if s.properties.Properties? then 1 else 0) +
    (if s.additional.Unmentioned? then 0 else 1) + (if s.required.Some? then 1 else 0) +
      (if s.anyOf.Alternatives? then 1 else 0)
  }

  /** null, besides what the given schema accepts. */
  function Nullable(s: Schema): Schema { ANYTHING.(anyOf := Alternatives([s, OfKind("null")])) }

  function WithoutNull(s: Schema): Schema {
    if s.anyOf.NoAlternatives? || KeywordCount(s) != 1 || |s.anyOf.schemas| != 2 then s else s.anyOf.schemas[0]
  }

  // ----- Types -----

  /** TextInterfaceKind is an interface that declares to write itself as text; SelfKind a
      type that writes its JSON itself, or its text with a pointer receiver only;
      TextKind one that writes itself as text; BytesKind a slice of bytes; OtherKind what
      encoding/json can not write. */
  datatype Kind =
    | BoolKind | IntKind | FloatKind | StringKind | InterfaceKind | TextInterfaceKind | BytesKind
    | TimeKind | NumberKind | RawKind | TextKind | SelfKind | OtherKind
    | PointerKind(target: nat)
    | SliceKind(item: nat)
    | ArrayKind(size: nat, item: nat)
    | MapKind(isKey: bool, element: nat)
    | StructKind(fields: seq<Field>)

  /** A field as encoding/json writes it: whether it is a field of an embedded pointer,
      and whether it has omitempty, omitzero and the string option. */
  datatype Field = Field(
    name: string, valueType: nat, isBehindPointer: bool, omitsEmpty: bool, omitsZero: bool, isQuoted: bool)

  predicate IsOptional(field: Field) { field.isBehindPointer || field.omitsEmpty || field.omitsZero }

  datatype Own = NoFunction | ReturnsNil | Returns(schema: Schema)

  /** own is the type's Schema function, borrowsOwn that it has one only from an
      embedded field, and hidesParts that a struct has fields that are not written. */
  datatype TypeInfo = TypeInfo(kind: Kind, own: Own, borrowsOwn: bool, hasIsZero: bool, hidesParts: bool)

  type Types = map<nat, TypeInfo>

  /** A pointer and an interface have no schema of their own. */
  function OwnOf(info: TypeInfo): Own {
    if info.kind.PointerKind? || info.kind.InterfaceKind? || info.kind.TextInterfaceKind? then NoFunction else info.own
  }

  predicate IsQuotable(types: Types, id: nat) {
    id in types && match types[id].kind
      case PointerKind(target) => target in types && IsQuotableValue(types[target].kind)
      case kind => IsQuotableValue(kind)
  }

  predicate IsQuotableValue(kind: Kind) {
    kind.BoolKind? || kind.IntKind? || kind.FloatKind? || kind.StringKind? || kind.NumberKind?
  }

  predicate HasDistinctNames(fields: seq<Field>) {
    forall i, j | 0 <= i < j < |fields| :: fields[i].name != fields[j].name
  }

  predicate AreFields(types: Types, fields: seq<Field>) {
    && HasDistinctNames(fields)
    && forall i | 0 <= i < |fields| ::
      fields[i].valueType in types && (fields[i].isQuoted ==> IsQuotable(types, fields[i].valueType))
  }

  predicate IsKnown(types: Types, kind: Kind) {
    match kind
    case PointerKind(target) => target in types
    case SliceKind(item) => item in types
    case ArrayKind(_, item) => item in types
    case MapKind(_, element) => element in types
    case StructKind(fields) => AreFields(types, fields)
    case _ => true
  }

  predicate WellFormed(types: Types) { forall id <- types :: IsKnown(types, types[id].kind) }

  // ----- What is written -----

  /** Text is a string, base64 included, and Any what writes itself, or is in an
      interface. Absent stands for the fields of an embedded pointer that is nil, and
      isMore tells whether a field that is not written is not zero. */
  datatype Value =
    | Nil
    | Absent
    | Flag(flag: bool)
    | Integer(integer: int)
    | Float(float: real)
    | Text(text: string)
    | Any(json: Json)
    | Pointer(target: Value)
    | Items(items: seq<Value>)
    | Entries(entries: map<string, Value>)
    | Struct(fields: seq<Value>, isMore: bool)

  predicate HasType(types: Types, id: nat, v: Value)
    decreases v
  {
    id in types &&
    match types[id].kind
    case BoolKind => v.Flag?
    case IntKind => v.Integer?
    case FloatKind => v.Float?
    case StringKind => v.Text?
    case InterfaceKind => v.Nil? || v.Any?
    case TextInterfaceKind => v.Nil? || v.Text?
    case BytesKind => v.Nil? || v.Text?
    case TimeKind => v.Text?
    case NumberKind => v.Float?
    case RawKind => v.Nil? || v.Any?
    case TextKind => v.Text?
    case SelfKind => v.Any?
    case OtherKind => false
    case PointerKind(target) => v.Nil? || (v.Pointer? && HasType(types, target, v.target))
    case SliceKind(item) => v.Nil? || (v.Items? && forall i | 0 <= i < |v.items| :: HasType(types, item, v.items[i]))
    case ArrayKind(size, item) =>
      v.Items? && |v.items| == size && forall i | 0 <= i < |v.items| :: HasType(types, item, v.items[i])
    case MapKind(isKey, element) =>
      isKey && (v.Nil? || (v.Entries? && forall key <- v.entries :: HasType(types, element, v.entries[key])))
    case StructKind(fields) =>
      && v.Struct? && |v.fields| == |fields| && (v.isMore ==> types[id].hidesParts)
      && forall i | 0 <= i < |fields| ::
           HasType(types, fields[i].valueType, v.fields[i]) || (fields[i].isBehindPointer && v.fields[i].Absent?)
  }

  /** isEmpty and isBlank tell for the values that do not show it here what omitempty
      leaves out and what is the zero value of its type, isZero is the IsZero function of
      a type that has one, and quoted is the text that the string option makes of a value. */
  datatype Encoder = Encoder(
    isEmpty: (nat, Value) -> bool, isBlank: (nat, Value) -> bool, isZero: (nat, Value) -> bool,
    quoted: Value -> string)

  predicate IsEmpty(encoder: Encoder, id: nat, v: Value) {
    match v
    case Nil => true
    case Pointer(_) => false
    case Items(items) => items == []
    case Entries(entries) => entries == map[]
    case Struct(_, _) => false
    case _ => encoder.isEmpty(id, v)
  }

  /** The zero value of its type: what is not nil is not, for what may be nil, and an array
      or a struct is if all of its parts are. */
  predicate IsBlank(encoder: Encoder, types: Types, id: nat, v: Value)
    requires WellFormed(types) && HasType(types, id, v)
    decreases v
  {
    match types[id].kind
    case ArrayKind(_, item) => forall i | 0 <= i < |v.items| :: IsBlank(encoder, types, item, v.items[i])
    case StructKind(fields) =>
      !v.isMore && forall i | 0 <= i < |fields| ::
        v.fields[i].Absent? || (!fields[i].isBehindPointer && IsBlank(encoder, types, fields[i].valueType, v.fields[i]))
    case BoolKind => !v.flag
    case IntKind => v.integer == 0
    case StringKind => v.text == ""
    case kind => v.Nil? || (!MayBeNil(kind) && encoder.isBlank(id, v))
  }

  predicate MayBeNil(kind: Kind) {
    || kind.PointerKind? || kind.SliceKind? || kind.MapKind? || kind.BytesKind? || kind.RawKind?
    || kind.InterfaceKind? || kind.TextInterfaceKind?
  }

  /** A pointer or an interface that is nil is not asked for its IsZero function. A slice
      or a map is. Without that function, the zero value of the type is zero. */
  predicate IsZero(encoder: Encoder, types: Types, id: nat, v: Value)
    requires WellFormed(types) && HasType(types, id, v)
  {
    var kind := types[id].kind;
    if v.Nil? && (kind.PointerKind? || kind.InterfaceKind? || kind.TextInterfaceKind?) then true
    else if types[id].hasIsZero then encoder.isZero(id, v)
    else IsBlank(encoder, types, id, v)
  }

  predicate IsWritten(encoder: Encoder, types: Types, field: Field, v: Value)
    requires WellFormed(types) && (v.Absent? || HasType(types, field.valueType, v))
  {
    && !v.Absent?
    && !(field.omitsEmpty && IsEmpty(encoder, field.valueType, v))
    && !(field.omitsZero && IsZero(encoder, types, field.valueType, v))
  }

  function Encode(encoder: Encoder, types: Types, id: nat, v: Value): Json
    requires WellFormed(types) && HasType(types, id, v)
    decreases v, 1
  {
    match types[id].kind
    case PointerKind(target) => if v.Nil? then Null else Encode(encoder, types, target, v.target)
    case SliceKind(item) =>
      if v.Nil? then Null
      else List(seq(|v.items|, i requires 0 <= i < |v.items| => Encode(encoder, types, item, v.items[i])))
    case ArrayKind(_, item) =>
      List(seq(|v.items|, i requires 0 <= i < |v.items| => Encode(encoder, types, item, v.items[i])))
    case MapKind(_, element) =>
      if v.Nil? then Null else Object(map key <- v.entries :: Encode(encoder, types, element, v.entries[key]))
    case StructKind(fields) =>
      Object(EncodeFields(encoder, types, id, v, |fields|))
    case _ =>
      match v
      case Flag(flag) => Bool(flag)
      case Integer(n) => Number(n as real)
      case Float(n) => Number(n)
      case Text(text) => String(text)
      case Any(json) => json
      case _ => Null
  }

  /** The string option writes the value as a string, and a nil pointer as null. */
  function EncodeField(encoder: Encoder, types: Types, field: Field, v: Value): Json
    requires WellFormed(types) && HasType(types, field.valueType, v)
    decreases v, 2
  {
    if !field.isQuoted then Encode(encoder, types, field.valueType, v)
    else if v.Nil? then Null
    else String(encoder.quoted(v))
  }

  /** The members for the first n fields of a struct. */
  function EncodeFields(encoder: Encoder, types: Types, id: nat, v: Value, n: nat): map<string, Json>
    requires WellFormed(types) && HasType(types, id, v) && types[id].kind.StructKind? && n <= |v.fields|
    decreases v, 0, n
  {
    if n == 0 then map[]
    else
      var before, field, value := EncodeFields(encoder, types, id, v, n - 1), types[id].kind.fields[n - 1],
        v.fields[n - 1];
      if IsWritten(encoder, types, field, value) then before[field.name := EncodeField(encoder, types, field, value)]
      else before
  }

  // ----- Deriving -----

  /** None stands for an error, which names the type. inProgress holds the types that
      are being derived, so that a recursive one fails. */
  function Derive(types: Types, id: nat, inProgress: set<nat>): Option<Schema>
    requires WellFormed(types) && id in types
    decreases types.Keys - inProgress, 0
  {
    if id in inProgress then None
    else
      assert id in types.Keys - inProgress;
      var deeper := inProgress + {id};
      match types[id].kind
      case PointerKind(target) => Map(Describe(types, target, deeper), Nullable)
      case TimeKind => Some(OfKind("string").(format := Some("date-time")))
      case NumberKind => Some(OfKind("number"))
      case RawKind => Some(ANYTHING)
      case SelfKind => None
      case TextKind => Some(OfKind("string"))
      case BoolKind => Some(OfKind("boolean"))
      case IntKind => Some(OfKind("integer"))
      case FloatKind => Some(OfKind("number"))
      case StringKind => Some(OfKind("string"))
      case InterfaceKind => Some(ANYTHING)
      case TextInterfaceKind => Some(OfKind("string"))
      case BytesKind => Some(Nullable(OfKind("string")))
      case SliceKind(item) => Map(Describe(types, item, deeper), s => Nullable(OfKind("array").(items := Some(s))))
      case ArrayKind(size, item) =>
        Map(Describe(types, item, deeper),
            s => OfKind("array").(items := Some(s), minItems := Some(size), maxItems := Some(size)))
      case MapKind(isKey, element) =>
        if !isKey then None
        else Map(Describe(types, element, deeper), s => Nullable(OfKind("object").(additional := Described(s))))
      case StructKind(fields) =>
        Map(DeriveFields(types, fields, |fields|, deeper),
            (d: (map<string, Schema>, seq<string>)) => ObjectSchema(d.0, d.1))
      case OtherKind => None
  }

  function Map<S, T>(o: Option<S>, f: S -> T): Option<T> { if o.Some? then Some(f(o.value)) else None }

  function ObjectSchema(properties: map<string, Schema>, required: seq<string>): Schema {
    OfKind("object").(
      properties := Properties(properties), additional := Forbidden,
      required := if required == [] then None else Some(required))
  }

  /** A type as it appears in a field: its own schema, or else the derived one. */
  function Describe(types: Types, id: nat, inProgress: set<nat>): Option<Schema>
    requires WellFormed(types) && id in types
    decreases types.Keys - inProgress, 1
  {
    if types[id].borrowsOwn && !types[id].kind.PointerKind? then None
    else
      match OwnOf(types[id])
      case Returns(schema) => Some(schema)
      case ReturnsNil => None
      case NoFunction => Derive(types, id, inProgress)
  }

  /** A value that is written only if it is not empty. */
  function DescribePresent(types: Types, id: nat, inProgress: set<nat>): Option<Schema>
    requires WellFormed(types) && id in types
    decreases types.Keys - inProgress, 2
  {
    if !OwnOf(types[id]).NoFunction? then Describe(types, id, inProgress)
    else
      match types[id].kind
      case PointerKind(target) => Describe(types, target, inProgress)
      case BytesKind => Map(Describe(types, id, inProgress), WithoutNull)
      case SliceKind(_) => Map(Describe(types, id, inProgress), WithoutNull)
      case MapKind(_, _) => Map(Describe(types, id, inProgress), WithoutNull)
      case _ => Describe(types, id, inProgress)
  }

  function DescribeField(types: Types, field: Field, inProgress: set<nat>): Option<Schema>
    requires WellFormed(types) && field.valueType in types
    decreases types.Keys - inProgress, 3
  {
    if !field.isQuoted then
      if IsOptional(field) then DescribePresent(types, field.valueType, inProgress)
      else Describe(types, field.valueType, inProgress)
    else if types[field.valueType].kind.PointerKind? && !IsOptional(field) then Some(Nullable(OfKind("string")))
    else Some(OfKind("string"))
  }

  /** The properties of the first n fields, and the names of the required ones. */
  function DeriveFields(
      types: Types, fields: seq<Field>, n: nat, inProgress: set<nat>): Option<(map<string, Schema>, seq<string>)>
    requires WellFormed(types) && AreFields(types, fields) && n <= |fields|
    decreases types.Keys - inProgress, 4, n
  {
    if n == 0 then Some((map[], []))
    else
      var before, schema := DeriveFields(types, fields, n - 1, inProgress),
        DescribeField(types, fields[n - 1], inProgress);
      if before.None? || schema.None? then None
      else
        Some((before.value.0[fields[n - 1].name := schema.value],
              if IsOptional(fields[n - 1]) then before.value.1 else before.value.1 + [fields[n - 1].name]))
  }

  /** DeriveSchema: the type's own function is not asked. */
  function DeriveSchema(types: Types, id: nat): Option<Schema>
    requires WellFormed(types) && id in types
  {
    if types[id].borrowsOwn && !types[id].kind.PointerKind? then None else Derive(types, id, {})
  }

  // ----- Which types have no derived schema -----

  /** The types a field is described by, whether or not they describe themselves. */
  function FieldPart(types: Types, field: Field): nat
    requires WellFormed(types) && field.valueType in types
  {
    var kind := types[field.valueType].kind;
    if IsOptional(field) && kind.PointerKind? then kind.target else field.valueType
  }

  predicate HasPart(types: Types, id: nat, part: nat)
    requires WellFormed(types) && id in types
  {
    match types[id].kind
    case PointerKind(target) => part == target
    case SliceKind(item) => part == item
    case ArrayKind(_, item) => part == item
    case MapKind(isKey, element) => isKey && part == element
    case StructKind(fields) =>
      exists i | 0 <= i < |fields| :: !fields[i].isQuoted && part == FieldPart(types, fields[i])
    case _ => false
  }

  /** A type that can not be described, whatever its parts are. */
  predicate IsRefused(types: Types, id: nat)
    requires id in types
  {
    (types[id].borrowsOwn && !types[id].kind.PointerKind?) || OwnOf(types[id]).ReturnsNil?
  }

  /** A type that is described by its structure. */
  predicate IsOpen(types: Types, id: nat)
    requires id in types
  {
    !IsRefused(types, id) && OwnOf(types[id]).NoFunction?
  }

  ghost predicate IsDeadEnd(types: Types, id: nat)
    requires WellFormed(types) && id in types
  {
    var kind := types[id].kind;
    || kind.SelfKind? || kind.OtherKind? || (kind.MapKind? && !kind.isKey)
    || exists part <- types :: HasPart(types, id, part) && IsRefused(types, part)
  }

  /** A chain leads from a type to one of its parts, and so on. */
  predicate IsChain(types: Types, id: nat, chain: seq<nat>)
    requires WellFormed(types) && id in types
    decreases |chain|
  {
    chain == [] ||
    (chain[0] in types && HasPart(types, id, chain[0]) && IsOpen(types, chain[0]) &&
        IsChain(types, chain[0], chain[1..]))
  }

  function ChainEnd(id: nat, chain: seq<nat>): nat { if chain == [] then id else chain[|chain| - 1] }

  ghost predicate Repeats(ids: seq<nat>) { exists i, j | 0 <= i < j < |ids| :: ids[i] == ids[j] }

  ghost predicate Meets(ids: seq<nat>, others: set<nat>) { exists i | 0 <= i < |ids| :: ids[i] in others }

  /** The chain comes back to a type, or ends at one without a schema. */
  ghost predicate IsBlocked(types: Types, id: nat, chain: seq<nat>, inProgress: set<nat>)
    requires WellFormed(types) && id in types
  {
    && IsChain(types, id, chain)
    && (|| Repeats([id] + chain)
        || Meets([id] + chain, inProgress)
        || (ChainEnd(id, chain) in types && IsDeadEnd(types, ChainEnd(id, chain))))
  }

  lemma {:induction false} PartIsKnown(types: Types, id: nat, part: nat)
    requires WellFormed(types) && id in types && HasPart(types, id, part)
    ensures part in types
  {
    if types[id].kind.StructKind? {
      var fields := types[id].kind.fields;
      assert AreFields(types, fields);
      var i :| 0 <= i < |fields| && !fields[i].isQuoted && part == FieldPart(types, fields[i]);
      assert IsKnown(types, types[fields[i].valueType].kind);
    }
  }

  lemma {:induction false} FieldNeedsItsPart(types: Types, field: Field, inProgress: set<nat>)
    requires WellFormed(types) && field.valueType in types && !field.isQuoted
    ensures FieldPart(types, field) in types
    ensures DescribeField(types, field, inProgress).Some? <==>
      Describe(types, FieldPart(types, field), inProgress).Some?
  {
    hide Derive;
    assert IsKnown(types, types[field.valueType].kind);
  }

  lemma {:induction false} FieldsNeedEveryField(types: Types, fields: seq<Field>, n: nat, inProgress: set<nat>)
    requires WellFormed(types) && AreFields(types, fields) && n <= |fields|
    ensures DeriveFields(types, fields, n, inProgress).Some? <==>
      forall i | 0 <= i < n :: DescribeField(types, fields[i], inProgress).Some?
  {
    hide DescribeField;
    if n > 0 {
      FieldsNeedEveryField(types, fields, n - 1, inProgress);
    }
  }

  /** A type that is derived needs a schema of each of its parts, and nothing else. */
  lemma {:induction false} DerivedExactlyWithParts(types: Types, id: nat, inProgress: set<nat>)
    requires WellFormed(types) && id in types && id !in inProgress
    ensures forall part | HasPart(types, id, part) :: part in types
    ensures Derive(types, id, inProgress).Some? <==>
      var kind := types[id].kind;
      && !kind.SelfKind? && !kind.OtherKind? && (kind.MapKind? ==> kind.isKey)
      && forall part | HasPart(types, id, part) && part in types :: Describe(types, part, inProgress + {id}).Some?
  {
    forall part | HasPart(types, id, part) ensures part in types {
      PartIsKnown(types, id, part);
    }
    if types[id].kind.StructKind? {
      var fields, deeper := types[id].kind.fields, inProgress + {id};
      assert AreFields(types, fields);
      FieldsNeedEveryField(types, fields, |fields|, deeper);
      hide Describe, DeriveFields, Derive;
      forall i | 0 <= i < |fields| && !fields[i].isQuoted
        ensures DescribeField(types, fields[i], deeper).Some? <==>
          Describe(types, FieldPart(types, fields[i]), deeper).Some?
        ensures HasPart(types, id, FieldPart(types, fields[i]))
      {
        FieldNeedsItsPart(types, fields[i], deeper);
      }
    }
  }

  lemma {:induction false} ComesBackBehind(id: nat, ids: seq<nat>, inProgress: set<nat>)
    requires id !in inProgress && (Repeats([id] + ids) || Meets([id] + ids, inProgress))
    ensures Repeats(ids) || Meets(ids, inProgress + {id})
  {
    var longer := [id] + ids;
    if Repeats(longer) {
      var i, j :| 0 <= i < j < |longer| && longer[i] == longer[j];
      if i == 0 {
        assert ids[j - 1] in inProgress + {id};
      } else {
        assert ids[i - 1] == ids[j - 1];
      }
    } else {
      var i :| 0 <= i < |longer| && longer[i] in inProgress;
      assert ids[i - 1] in inProgress + {id};
    }
  }

  lemma {:induction false} ComesBackBefore(id: nat, ids: seq<nat>, inProgress: set<nat>)
    requires Repeats(ids) || Meets(ids, inProgress + {id})
    ensures Repeats([id] + ids) || Meets([id] + ids, inProgress)
  {
    var longer := [id] + ids;
    if Repeats(ids) {
      var i, j :| 0 <= i < j < |ids| && ids[i] == ids[j];
      assert longer[i + 1] == longer[j + 1];
    } else {
      var i :| 0 <= i < |ids| && ids[i] in inProgress + {id};
      assert longer[i + 1] == ids[i] && longer[0] == id;
    }
  }

  /** Adding a type in front of a chain. */
  lemma {:induction false} BlockedExactlyBehind(types: Types, id: nat, part: nat, chain: seq<nat>, inProgress: set<nat>)
    requires WellFormed(types) && id in types && part in types && HasPart(types, id, part) && IsOpen(types, part)
    requires id !in inProgress
    ensures IsBlocked(types, id, [part] + chain, inProgress) <==> IsBlocked(types, part, chain, inProgress + {id})
  {
    var ids := [part] + chain;
    assert ids[1..] == chain;
    assert ChainEnd(id, ids) == ChainEnd(part, chain);
    assert IsChain(types, id, ids) <==> IsChain(types, part, chain);
    hide IsChain, ChainEnd, HasPart, IsOpen, IsDeadEnd, WellFormed;
    hide Repeats, Meets;
    if Repeats([id] + ids) || Meets([id] + ids, inProgress) {
      ComesBackBehind(id, ids, inProgress);
    }
    if Repeats(ids) || Meets(ids, inProgress + {id}) {
      ComesBackBefore(id, ids, inProgress);
    }
  }

  lemma {:induction false} UnderivedIsBlocked(types: Types, id: nat, inProgress: set<nat>) returns (chain: seq<nat>)
    requires WellFormed(types) && id in types && Derive(types, id, inProgress) == None
    ensures IsBlocked(types, id, chain, inProgress)
    decreases types.Keys - inProgress
  {
    chain := [];
    if id in inProgress {
      assert ([id] + chain)[0] in inProgress;
    } else if !IsDeadEnd(types, id) {
      DerivedExactlyWithParts(types, id, inProgress);
      hide Derive, HasPart, WellFormed;
      var part :| HasPart(types, id, part) && part in types && Describe(types, part, inProgress + {id}) == None;
      assert id in types.Keys - inProgress;
      var rest := UnderivedIsBlocked(types, part, inProgress + {id});
      BlockedExactlyBehind(types, id, part, rest, inProgress);
      chain := [part] + rest;
    }
  }

  lemma {:induction false} RefusedIsUndescribed(types: Types, id: nat, inProgress: set<nat>)
    requires WellFormed(types) && id in types && IsRefused(types, id)
    ensures Describe(types, id, inProgress).None?
  {
  }

  lemma {:induction false} OpenIsDerived(types: Types, id: nat, inProgress: set<nat>)
    requires WellFormed(types) && id in types && IsOpen(types, id)
    ensures Describe(types, id, inProgress) == Derive(types, id, inProgress)
  {
  }

  lemma {:induction false} BlockedIsUnderived(types: Types, id: nat, chain: seq<nat>, inProgress: set<nat>)
    requires WellFormed(types) && id in types && IsBlocked(types, id, chain, inProgress)
    ensures Derive(types, id, inProgress) == None
    decreases |chain|
  {
    if id !in inProgress && Derive(types, id, inProgress).Some? {
      DerivedExactlyWithParts(types, id, inProgress);
      hide Derive, HasPart, WellFormed;
      if chain == [] {
        assert IsDeadEnd(types, id);
        var part :| part in types && HasPart(types, id, part) && IsRefused(types, part);
        RefusedIsUndescribed(types, part, inProgress + {id});
        assert false;
      }
      assert chain == [chain[0]] + chain[1..];
      BlockedExactlyBehind(types, id, chain[0], chain[1..], inProgress);
      OpenIsDerived(types, chain[0], inProgress + {id});
      BlockedIsUnderived(types, chain[0], chain[1..], inProgress + {id});
    }
  }

  /** A type has no derived schema exactly if it is recursive, other than through a
      type that describes itself, or made of a type that has none. */
  lemma {:induction false} UnderivedExactlyIfBlocked(types: Types, id: nat)
    requires WellFormed(types) && id in types
    ensures Derive(types, id, {}) == None <==> exists chain :: IsBlocked(types, id, chain, {})
  {
    if Derive(types, id, {}) == None {
      var chain := UnderivedIsBlocked(types, id, {});
    }
    if exists chain :: IsBlocked(types, id, chain, {}) {
      var chain :| IsBlocked(types, id, chain, {});
      BlockedIsUnderived(types, id, chain, {});
    }
  }
}
