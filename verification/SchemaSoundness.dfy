/** That a derived schema accepts what is written for a value exactly if no nil is
    written where the schema does not allow for null (architecturekit/schema.go). */
module SchemaSoundness {
  import opened Basics
  import opened Schemas

  lemma {:induction false} NullableAccepts(s: Schema, j: Json)
    ensures Accepts(Nullable(s), j) <==> Accepts(s, j) || j.Null?
    ensures WithoutNull(Nullable(s)) == s
  {
    var schemas := Nullable(s).anyOf.schemas;
    assert schemas[0] == s && schemas[1] == OfKind("null");
    assert Accepts(OfKind("null"), j) <==> j.Null?;
  }

  // ----- It accepts null only where null is written -----

  ghost predicate CanBeNull(encoder: Encoder, types: Types, id: nat)
    requires WellFormed(types)
  {
    exists v :: HasType(types, id, v) && Encode(encoder, types, id, v).Null?
  }

  /** The kinds with a nil that the schema allows for. */
  predicate IsNullable(kind: Kind) {
    kind.PointerKind? || kind.BytesKind? || kind.SliceKind? || kind.MapKind? || kind.InterfaceKind? || kind.RawKind?
  }

  /** A derived schema accepts null exactly if some value of the type is written so, but
      for an interface that declares to write itself as text: its nil is not thought of. */
  lemma {:induction false} NullExactlyIfWritten(encoder: Encoder, types: Types, id: nat, inProgress: set<nat>)
    requires WellFormed(types) && id in types && Derive(types, id, inProgress).Some?
    ensures Accepts(Derive(types, id, inProgress).value, Null) <==>
      CanBeNull(encoder, types, id) && !types[id].kind.TextInterfaceKind?
    ensures CanBeNull(encoder, types, id) <==> IsNullable(types[id].kind) || types[id].kind.TextInterfaceKind?
  {
    var kind := types[id].kind;
    DerivedNullExactly(types, id, inProgress);
    hide Accepts, Derive;
    if IsNullable(kind) || kind.TextInterfaceKind? {
      assert HasType(types, id, Nil) && Encode(encoder, types, id, Nil).Null?;
    }
  }

  ghost predicate CanBeNullWhenPresent(encoder: Encoder, types: Types, id: nat)
    requires WellFormed(types)
  {
    exists v :: HasType(types, id, v) && !v.Nil? && Encode(encoder, types, id, v).Null?
  }

  lemma {:induction false} PresentPointerIsNullThroughTarget(encoder: Encoder, types: Types, id: nat)
    requires WellFormed(types) && id in types && types[id].kind.PointerKind?
    ensures CanBeNullWhenPresent(encoder, types, id) <==> CanBeNull(encoder, types, types[id].kind.target)
  {
    var target := types[id].kind.target;
    if CanBeNull(encoder, types, target) {
      var w :| HasType(types, target, w) && Encode(encoder, types, target, w).Null?;
      PointerEncodesTarget(encoder, types, id, Pointer(w));
    }
    if CanBeNullWhenPresent(encoder, types, id) {
      var v :| HasType(types, id, v) && !v.Nil? && Encode(encoder, types, id, v).Null?;
      PointerEncodesTarget(encoder, types, id, v);
    }
    hide HasType, Encode;
  }

  lemma {:induction false} PointerEncodesTarget(encoder: Encoder, types: Types, id: nat, v: Value)
    requires WellFormed(types) && id in types && types[id].kind.PointerKind?
    requires HasType(types, id, v) || (v.Pointer? && HasType(types, types[id].kind.target, v.target))
    ensures v.Pointer? ==>
      && HasType(types, id, v) && HasType(types, types[id].kind.target, v.target)
      && Encode(encoder, types, id, v) == Encode(encoder, types, types[id].kind.target, v.target)
  {
  }

  predicate LeadsToText(types: Types, id: nat)
    requires WellFormed(types) && id in types
  {
    types[id].kind.PointerKind? && types[types[id].kind.target].kind.TextInterfaceKind?
  }

  /** A value that is left out when it is empty can still be null: the pointer to a
      nil pointer, or an interface that holds one. */
  lemma {:induction false} PresentNullExactlyIfWritten(encoder: Encoder, types: Types, id: nat, inProgress: set<nat>)
    requires WellFormed(types) && id in types && OwnOf(types[id]).NoFunction? &&
      DescribePresent(types, id, inProgress).Some?
    requires types[id].kind.PointerKind? ==> OwnOf(types[types[id].kind.target]).NoFunction?
    ensures Accepts(DescribePresent(types, id, inProgress).value, Null) <==>
      CanBeNullWhenPresent(encoder, types, id) && !LeadsToText(types, id)
  {
    hide Accepts, CanBeNullWhenPresent;
    PresentNullExactly(types, id, inProgress);
    if types[id].kind.PointerKind? {
      PresentPointerNullExactly(encoder, types, id, inProgress);
    } else {
      assert Describe(types, id, inProgress).Some?;
      assert Derive(types, id, inProgress).Some?;
      PresentIsNull(encoder, types, id);
    }
  }

  lemma {:induction false} PresentIsNull(encoder: Encoder, types: Types, id: nat)
    requires WellFormed(types) && id in types && !types[id].kind.PointerKind? && !types[id].kind.SelfKind?
    ensures CanBeNullWhenPresent(encoder, types, id) <==> types[id].kind.InterfaceKind? || types[id].kind.RawKind?
  {
    if types[id].kind.InterfaceKind? || types[id].kind.RawKind? {
      assert HasType(types, id, Any(Null)) && Encode(encoder, types, id, Any(Null)).Null?;
    }
  }

  lemma {:induction false} PresentPointerNullExactly(encoder: Encoder, types: Types, id: nat, inProgress: set<nat>)
    requires WellFormed(types) && id in types && OwnOf(types[id]).NoFunction? && types[id].kind.PointerKind?
    requires OwnOf(types[types[id].kind.target]).NoFunction? && DescribePresent(types, id, inProgress).Some?
    ensures Accepts(DescribePresent(types, id, inProgress).value, Null) <==>
      CanBeNullWhenPresent(encoder, types, id) && !LeadsToText(types, id)
  {
    hide Accepts, Derive, CanBeNull, CanBeNullWhenPresent;
    PresentPointerIsNullThroughTarget(encoder, types, id);
    NullExactlyIfWritten(encoder, types, types[id].kind.target, inProgress);
  }

  /** What a value can be written as without being nil may be null, by its kind or by the
      schema that the type, or the target of the pointer, gives itself. */
  predicate PresentAllowsNull(types: Types, id: nat)
    requires WellFormed(types) && id in types
  {
    if OwnOf(types[id]).Returns? then Accepts(OwnOf(types[id]).schema, Null)
    else
      match types[id].kind
      case PointerKind(target) =>
        var own := OwnOf(types[target]);
        if own.Returns? then Accepts(own.schema, Null) else IsNullable(types[target].kind)
      case InterfaceKind => true
      case RawKind => true
      case _ => false
  }

  /** An optional field allows null. A quoted one never does. */
  predicate AllowsNull(types: Types, field: Field)
    requires WellFormed(types) && field.valueType in types
  {
    !field.isQuoted && PresentAllowsNull(types, field.valueType)
  }

  lemma {:induction false} PresentNullExactly(types: Types, id: nat, inProgress: set<nat>)
    requires WellFormed(types) && id in types && DescribePresent(types, id, inProgress).Some?
    ensures Accepts(DescribePresent(types, id, inProgress).value, Null) <==> PresentAllowsNull(types, id)
  {
    var kind := types[id].kind;
    if OwnOf(types[id]).Returns? {
      assert DescribePresent(types, id, inProgress) == Some(OwnOf(types[id]).schema);
    } else if kind.PointerKind? {
      assert DescribePresent(types, id, inProgress) == Describe(types, kind.target, inProgress);
      DescribedNullExactly(types, kind.target, inProgress);
      hide Accepts, Derive;
    } else {
      DerivedNullExactly(types, id, inProgress);
      if kind.BytesKind? || kind.SliceKind? || kind.MapKind? {
        NullableAccepts(Derive(types, id, inProgress).value.anyOf.schemas[0], Null);
      }
    }
  }

  lemma {:induction false} DescribedNullExactly(types: Types, id: nat, inProgress: set<nat>)
    requires WellFormed(types) && id in types && Describe(types, id, inProgress).Some?
    ensures Accepts(Describe(types, id, inProgress).value, Null) <==>
      if OwnOf(types[id]).Returns? then Accepts(OwnOf(types[id]).schema, Null) else IsNullable(types[id].kind)
  {
    if OwnOf(types[id]).NoFunction? {
      DerivedNullExactly(types, id, inProgress);
      hide Accepts, Derive;
    }
  }

  lemma {:induction false} DerivedNullExactly(types: Types, id: nat, inProgress: set<nat>)
    requires WellFormed(types) && id in types && Derive(types, id, inProgress).Some?
    ensures Accepts(Derive(types, id, inProgress).value, Null) <==> IsNullable(types[id].kind)
  {
    var s, kind := Derive(types, id, inProgress).value, types[id].kind;
    if kind.PointerKind? || kind.BytesKind? || kind.SliceKind? || kind.MapKind? {
      NullableAccepts(s.anyOf.schemas[0], Null);
    }
  }

  /** The nil of an optional field is accepted exactly if the field allows null. Where
      it is written all the same, as in a field of an embedded pointer that is not nil
      itself, or of a slice whose own IsZero says no, that is what matters. */
  lemma {:induction false} NilIsAcceptedExactly(encoder: Encoder, types: Types, field: Field, inProgress: set<nat>)
    requires WellFormed(types) && field.valueType in types && IsOptional(field)
    requires field.isQuoted ==> IsQuotable(types, field.valueType)
    requires HasType(types, field.valueType, Nil) && DescribeField(types, field, inProgress).Some?
    ensures EncodeField(encoder, types, field, Nil).Null?
    ensures Accepts(DescribeField(types, field, inProgress).value, Null) <==> AllowsNull(types, field)
  {
    if !field.isQuoted {
      PresentNullExactly(types, field.valueType, inProgress);
      hide Accepts, DescribePresent, PresentAllowsNull;
    }
  }

  // ----- For which values the schema holds -----

  /** Nothing is written that the schema does not allow for: no nil in an optional field
      that does not allow null, no nil of an interface that declares to write itself as
      text, and nothing that a schema of its own refuses. */
  ghost predicate NilsFit(encoder: Encoder, types: Types, id: nat, v: Value)
    requires WellFormed(types) && HasType(types, id, v)
    decreases v, 1
  {
    match types[id].kind
    case TextInterfaceKind => !v.Nil?
    case PointerKind(target) =>
      v.Nil? || Encode(encoder, types, target, v.target).Null? || PartFits(encoder, types, target, v.target)
    case SliceKind(item) => v.Nil? || forall i | 0 <= i < |v.items| :: PartFits(encoder, types, item, v.items[i])
    case ArrayKind(_, item) => forall i | 0 <= i < |v.items| :: PartFits(encoder, types, item, v.items[i])
    case MapKind(_, element) => v.Nil? || forall key <- v.entries :: PartFits(encoder, types, element, v.entries[key])
    case StructKind(fields) =>
      forall i | 0 <= i < |fields| && IsWritten(encoder, types, fields[i], v.fields[i]) ::
        FieldFits(encoder, types, fields[i], v.fields[i])
    case _ => true
  }

  /** What a schema of its own describes has to be accepted by that. */
  ghost predicate PartFits(encoder: Encoder, types: Types, id: nat, v: Value)
    requires WellFormed(types) && HasType(types, id, v)
    decreases v, 2
  {
    if OwnOf(types[id]).Returns? then Accepts(OwnOf(types[id]).schema, Encode(encoder, types, id, v))
    else NilsFit(encoder, types, id, v)
  }

  ghost predicate FieldFits(encoder: Encoder, types: Types, field: Field, v: Value)
    requires WellFormed(types) && HasType(types, field.valueType, v)
    decreases v, 4
  {
    if v.Nil? && IsOptional(field) then AllowsNull(types, field)
    else
      field.isQuoted ||
      if IsOptional(field) then PresentFits(encoder, types, field.valueType, v)
      else PartFits(encoder, types, field.valueType, v)
  }

  /** A pointer that is written only if it is not nil is described by its target. */
  ghost predicate PresentFits(encoder: Encoder, types: Types, id: nat, v: Value)
    requires WellFormed(types) && HasType(types, id, v) && !v.Nil?
    decreases v, 3
  {
    match types[id].kind
    case PointerKind(target) => PartFits(encoder, types, target, v.target)
    case _ => PartFits(encoder, types, id, v)
  }

  lemma {:induction false} DescribedExactly(encoder: Encoder, types: Types, id: nat, inProgress: set<nat>, v: Value)
    requires WellFormed(types)
    requires HasType(types, id, v) && Describe(types, id, inProgress).Some?
    ensures Accepts(Describe(types, id, inProgress).value, Encode(encoder, types, id, v)) <==>
      PartFits(encoder, types, id, v)
    decreases v, 3
  {
    if OwnOf(types[id]).NoFunction? {
      DerivedExactly(encoder, types, id, inProgress, v);
    }
    hide Accepts, Encode, HasType, Derive, NilsFit;
  }

  lemma {:induction false} ListAccepts(item: Schema, minItems: Option<nat>, maxItems: Option<nat>, items: seq<Json>)
    ensures Accepts(OfKind("array").(items := Some(item), minItems := minItems, maxItems := maxItems), List(items)) <==>
      && (forall i | 0 <= i < |items| :: Accepts(item, items[i]))
      && (minItems.Some? ==> minItems.value <= |items|) && (maxItems.Some? ==> |items| <= maxItems.value)
  {
  }

  /** What is written for a value is accepted exactly if its nils fit. */
  lemma {:induction false} DerivedExactly(encoder: Encoder, types: Types, id: nat, inProgress: set<nat>, v: Value)
    requires WellFormed(types)
    requires HasType(types, id, v) && Derive(types, id, inProgress).Some?
    ensures Accepts(Derive(types, id, inProgress).value, Encode(encoder, types, id, v)) <==>
      NilsFit(encoder, types, id, v)
    decreases v, 2
  {
    match types[id].kind
    case PointerKind(_) => PointerExactly(encoder, types, id, inProgress, v);
    case SliceKind(_) => SliceExactly(encoder, types, id, inProgress, v);
    case ArrayKind(size, item) => ListExactly(encoder, types, item, inProgress + {id}, v, Some(size), Some(size));
    case MapKind(_, _) => MapExactly(encoder, types, id, inProgress, v);
    case StructKind(fields) => StructExactly(encoder, types, id, inProgress + {id}, v);
    case _ => LeafExactly(encoder, types, id, inProgress, v);
  }

  lemma {:induction false} LeafExactly(encoder: Encoder, types: Types, id: nat, inProgress: set<nat>, v: Value)
    requires WellFormed(types) && HasType(types, id, v) && Derive(types, id, inProgress).Some?
    requires var kind := types[id].kind;
      !kind.PointerKind? && !kind.SliceKind? && !kind.ArrayKind? && !kind.MapKind? && !kind.StructKind?
    ensures Accepts(Derive(types, id, inProgress).value, Encode(encoder, types, id, v)) <==>
      NilsFit(encoder, types, id, v)
  {
    var s, j := Derive(types, id, inProgress).value, Encode(encoder, types, id, v);
    hide Accepts;
    if types[id].kind.BytesKind? {
      NullableAccepts(OfKind("string"), j);
      AcceptsOfKind(OfKind("string"), j);
    } else {
      AcceptsOfKind(s, j);
    }
  }

  /** What the schemas without parts accept. */
  lemma {:induction false} AcceptsOfKind(s: Schema, j: Json)
    requires s == ANYTHING.(kind := s.kind, format := s.format)
    ensures Accepts(s, j) <==> (s.kind.Some? ==> IsOfKind(j, s.kind.value))
  {
  }

  lemma {:induction false} PointerExactly(encoder: Encoder, types: Types, id: nat, inProgress: set<nat>, v: Value)
    requires WellFormed(types) && HasType(types, id, v)
    requires types[id].kind.PointerKind? && Derive(types, id, inProgress).Some?
    ensures Accepts(Derive(types, id, inProgress).value, Encode(encoder, types, id, v)) <==>
      NilsFit(encoder, types, id, v)
    decreases v, 1
  {
    var target, j := types[id].kind.target, Encode(encoder, types, id, v);
    NullableAccepts(Derive(types, id, inProgress).value.anyOf.schemas[0], j);
    if !v.Nil? {
      DescribedExactly(encoder, types, target, inProgress + {id}, v.target);
    }
    hide Accepts;
  }

  lemma {:induction false} SliceExactly(encoder: Encoder, types: Types, id: nat, inProgress: set<nat>, v: Value)
    requires WellFormed(types) && HasType(types, id, v)
    requires types[id].kind.SliceKind? && Derive(types, id, inProgress).Some?
    ensures Accepts(Derive(types, id, inProgress).value, Encode(encoder, types, id, v)) <==>
      NilsFit(encoder, types, id, v)
    decreases v, 1
  {
    var item, j := types[id].kind.item, Encode(encoder, types, id, v);
    NullableAccepts(Derive(types, id, inProgress).value.anyOf.schemas[0], j);
    if !v.Nil? {
      assert j == List(EncodeItems(encoder, types, item, v));
      ListExactly(encoder, types, item, inProgress + {id}, v, None, None);
    }
    hide Accepts;
  }

  lemma {:induction false} MapExactly(encoder: Encoder, types: Types, id: nat, inProgress: set<nat>, v: Value)
    requires WellFormed(types) && HasType(types, id, v)
    requires types[id].kind.MapKind? && Derive(types, id, inProgress).Some?
    ensures Accepts(Derive(types, id, inProgress).value, Encode(encoder, types, id, v)) <==>
      NilsFit(encoder, types, id, v)
    decreases v, 1
  {
    var element, j := types[id].kind.element, Encode(encoder, types, id, v);
    NullableAccepts(Derive(types, id, inProgress).value.anyOf.schemas[0], j);
    if !v.Nil? {
      assert j == Object(EncodeEntries(encoder, types, element, v));
      EntriesExactly(encoder, types, element, inProgress + {id}, v);
    }
    hide Accepts;
  }

  function EncodeItems(encoder: Encoder, types: Types, item: nat, v: Value): seq<Json>
    requires WellFormed(types) && v.Items? && forall i | 0 <= i < |v.items| :: HasType(types, item, v.items[i])
  {
    seq(|v.items|, i requires 0 <= i < |v.items| => Encode(encoder, types, item, v.items[i]))
  }

  /** A list is accepted exactly if its length is right and each item fits. */
  lemma {:induction false} ListExactly(
      encoder: Encoder, types: Types, item: nat, inProgress: set<nat>, v: Value, minItems: Option<nat>,
        maxItems: Option<nat>)
    requires WellFormed(types)
    requires v.Items? && item in types && Describe(types, item, inProgress).Some?
    requires forall i | 0 <= i < |v.items| :: HasType(types, item, v.items[i])
    ensures var s := Describe(types, item, inProgress).value;
      Accepts(OfKind("array").(items := Some(s), minItems := minItems, maxItems := maxItems),
              List(EncodeItems(encoder, types, item, v))) <==>
        && (forall i | 0 <= i < |v.items| :: PartFits(encoder, types, item, v.items[i]))
        && (minItems.Some? ==> minItems.value <= |v.items|) && (maxItems.Some? ==> |v.items| <= maxItems.value)
    decreases v, 0
  {
    var s, list := Describe(types, item, inProgress).value, EncodeItems(encoder, types, item, v);
    ListAccepts(s, minItems, maxItems, list);
    forall i | 0 <= i < |v.items| ensures Accepts(s, list[i]) <==> PartFits(encoder, types, item, v.items[i]) {
      DescribedExactly(encoder, types, item, inProgress, v.items[i]);
    }
    hide Accepts, Encode, NilsFit, PartFits;
  }

  function EncodeEntries(encoder: Encoder, types: Types, element: nat, v: Value): map<string, Json>
    requires WellFormed(types) && v.Entries? && forall key <- v.entries :: HasType(types, element, v.entries[key])
  {
    map key <- v.entries :: Encode(encoder, types, element, v.entries[key])
  }

  lemma {:induction false} MapAccepts(element: Schema, members: map<string, Json>)
    ensures Accepts(OfKind("object").(additional := Described(element)), Object(members)) <==>
      forall name <- members :: Accepts(element, members[name])
  {
    var s := OfKind("object").(additional := Described(element));
    assert forall name :: !IsProperty(s, name);
  }

  /** A map is accepted exactly if each value in it fits. */
  lemma {:induction false} EntriesExactly(encoder: Encoder, types: Types, element: nat, inProgress: set<nat>, v: Value)
    requires WellFormed(types)
    requires v.Entries? && element in types && Describe(types, element, inProgress).Some?
    requires forall key <- v.entries :: HasType(types, element, v.entries[key])
    ensures var s := Describe(types, element, inProgress).value;
      Accepts(OfKind("object").(additional := Described(s)), Object(EncodeEntries(encoder, types, element, v))) <==>
        forall key <- v.entries :: PartFits(encoder, types, element, v.entries[key])
    decreases v, 0
  {
    var s, members := Describe(types, element, inProgress).value, EncodeEntries(encoder, types, element, v);
    MapAccepts(s, members);
    forall key <- v.entries ensures Accepts(s, members[key]) <==> PartFits(encoder, types, element, v.entries[key]) {
      DescribedExactly(encoder, types, element, inProgress, v.entries[key]);
    }
    hide Accepts, Encode, NilsFit, PartFits;
  }

  lemma {:induction false} PresentExactly(encoder: Encoder, types: Types, id: nat, inProgress: set<nat>, v: Value)
    requires WellFormed(types)
    requires HasType(types, id, v) && !v.Nil? && DescribePresent(types, id, inProgress).Some?
    ensures Accepts(DescribePresent(types, id, inProgress).value, Encode(encoder, types, id, v)) <==>
      PresentFits(encoder, types, id, v)
    decreases v, 4
  {
    hide Accepts, NilsFit;
    var kind := types[id].kind;
    if kind.PointerKind? {
      DescribedExactly(encoder, types, kind.target, inProgress, v.target);
    } else {
      DescribedExactly(encoder, types, id, inProgress, v);
      if OwnOf(types[id]).NoFunction? && (kind.BytesKind? || kind.SliceKind? || kind.MapKind?) {
        NullableAccepts(Derive(types, id, inProgress).value.anyOf.schemas[0], Encode(encoder, types, id, v));
      }
    }
  }

  lemma {:induction false} FieldExactly(encoder: Encoder, types: Types, field: Field, inProgress: set<nat>, v: Value)
    requires WellFormed(types) && HasType(types, field.valueType, v)
    requires field.isQuoted ==> IsQuotable(types, field.valueType)
    requires DescribeField(types, field, inProgress).Some?
    ensures Accepts(DescribeField(types, field, inProgress).value, EncodeField(encoder, types, field, v)) <==>
      FieldFits(encoder, types, field, v)
    decreases v, 5
  {
    hide Accepts, Encode, DescribePresent, Describe, PresentFits, PartFits;
    if v.Nil? && IsOptional(field) {
      NilIsAcceptedExactly(encoder, types, field, inProgress);
    } else if field.isQuoted {
      NullableAccepts(OfKind("string"), EncodeField(encoder, types, field, v));
      AcceptsOfKind(OfKind("string"), EncodeField(encoder, types, field, v));
    } else if IsOptional(field) {
      PresentExactly(encoder, types, field.valueType, inProgress, v);
    } else {
      DescribedExactly(encoder, types, field.valueType, inProgress, v);
    }
  }

  // ----- The members of an object -----

  /** What is collected of the fields: a property each, */
  lemma {:induction false} FieldIsProperty(types: Types, fields: seq<Field>, n: nat, inProgress: set<nat>, i: nat)
    requires WellFormed(types) && AreFields(types, fields) && i < n <= |fields|
    requires DeriveFields(types, fields, n, inProgress).Some?
    ensures var properties := DeriveFields(types, fields, n, inProgress).value.0;
      fields[i].name in properties && DescribeField(types, fields[i], inProgress) == Some(properties[fields[i].name])
  {
    hide DescribeField, WellFormed;
    if i < n - 1 {
      FieldIsProperty(types, fields, n - 1, inProgress, i);
    }
  }

  /** and the names of the required ones. */
  lemma {:induction false} RequiredIsField(types: Types, fields: seq<Field>, n: nat, inProgress: set<nat>, name: string)
    returns (i: nat)
    requires WellFormed(types) && AreFields(types, fields) && n <= |fields|
    requires DeriveFields(types, fields, n, inProgress).Some?
    requires name in DeriveFields(types, fields, n, inProgress).value.1
    ensures i < n && fields[i].name == name && !IsOptional(fields[i])
  {
    hide DescribeField, WellFormed;
    if name in DeriveFields(types, fields, n - 1, inProgress).value.1 {
      i := RequiredIsField(types, fields, n - 1, inProgress, name);
    } else {
      i := n - 1;
    }
  }

  /** Each written field is a member, */
  lemma {:induction false} WrittenIsMember(encoder: Encoder, types: Types, id: nat, v: Value, n: nat, i: nat)
    requires WellFormed(types) && HasType(types, id, v) && types[id].kind.StructKind? && i < n <= |v.fields|
    requires IsWritten(encoder, types, types[id].kind.fields[i], v.fields[i])
    ensures types[id].kind.fields[i].name in EncodeFields(encoder, types, id, v, n)
    decreases n
  {
    hide EncodeField, WellFormed;
    if i < n - 1 {
      WrittenIsMember(encoder, types, id, v, n - 1, i);
    }
  }

  /** and nothing else is. */
  lemma {:induction false} MemberIsWritten(encoder: Encoder, types: Types, id: nat, v: Value, n: nat, name: string)
    returns (i: nat)
    requires WellFormed(types) && HasType(types, id, v) && types[id].kind.StructKind? && n <= |v.fields|
    requires name in EncodeFields(encoder, types, id, v, n)
    ensures i < n && types[id].kind.fields[i].name == name &&
      IsWritten(encoder, types, types[id].kind.fields[i], v.fields[i])
    ensures EncodeFields(encoder, types, id, v, n)[name] ==
      EncodeField(encoder, types, types[id].kind.fields[i], v.fields[i])
    decreases n
  {
    assert AreFields(types, types[id].kind.fields);
    hide EncodeField, WellFormed;
    i := n - 1;
    if name != types[id].kind.fields[i].name || !IsWritten(encoder, types, types[id].kind.fields[i], v.fields[i]) {
      i := MemberIsWritten(encoder, types, id, v, n - 1, name);
    }
  }

  /** An object schema accepts nothing but its properties, and all it requires. */
  lemma {:induction false} ObjectAccepts(
      properties: map<string, Schema>, required: seq<string>, members: map<string, Json>)
    ensures Accepts(ObjectSchema(properties, required), Object(members)) <==>
      && (forall name <- members :: name in properties && Accepts(properties[name], members[name]))
      && (forall name | name in required :: name in members)
  {
    var s := ObjectSchema(properties, required);
    assert s.properties.named == properties;
    if Accepts(s, Object(members)) {
      forall name <- members ensures name in properties && Accepts(properties[name], members[name]) {
        assert IsProperty(s, name);
      }
    }
  }

  /** A struct is accepted exactly if each field that is written fits. */
  lemma {:induction false} StructExactly(encoder: Encoder, types: Types, id: nat, inProgress: set<nat>, v: Value)
    requires WellFormed(types)
    requires HasType(types, id, v) && types[id].kind.StructKind?
    requires DeriveFields(types, types[id].kind.fields, |types[id].kind.fields|, inProgress).Some?
    ensures var collected := DeriveFields(types, types[id].kind.fields, |types[id].kind.fields|, inProgress).value;
      Accepts(ObjectSchema(collected.0, collected.1), Encode(encoder, types, id, v)) <==> NilsFit(encoder, types, id, v)
    decreases v, 1
  {
    var fields := types[id].kind.fields;
    var members := EncodeFields(encoder, types, id, v, |fields|);
    var (properties, required) := DeriveFields(types, fields, |fields|, inProgress).value;
    assert Encode(encoder, types, id, v) == Object(members);
    assert NilsFit(encoder, types, id, v) <==>
      forall i | 0 <= i < |fields| && IsWritten(encoder, types, fields[i], v.fields[i]) ::
        FieldFits(encoder, types, fields[i], v.fields[i]);
    hide DeriveFields, DescribeField, EncodeFields, Encode, Accepts, WellFormed, NilsFit, FieldFits,
      IsWritten;
    forall i | 0 <= i < |fields| && IsWritten(encoder, types, fields[i], v.fields[i])
      ensures var name := fields[i].name;
        && name in members && name in properties
        && (Accepts(properties[name], members[name]) <==> FieldFits(encoder, types, fields[i], v.fields[i]))
    {
      MemberExactly(encoder, types, id, inProgress, v, i);
    }
    forall name <- members ensures exists i ::
      0 <= i < |fields| && IsWritten(encoder, types, fields[i], v.fields[i]) && fields[i].name == name
    {
      var i := MemberIsWritten(encoder, types, id, v, |fields|, name);
    }
    RequiredAreMembers(encoder, types, id, inProgress, v);
    ObjectAccepts(properties, required, members);
  }

  lemma {:induction false} RequiredAreMembers(encoder: Encoder, types: Types, id: nat, inProgress: set<nat>, v: Value)
    requires WellFormed(types) && HasType(types, id, v) && types[id].kind.StructKind?
    requires DeriveFields(types, types[id].kind.fields, |types[id].kind.fields|, inProgress).Some?
    ensures var required := DeriveFields(types, types[id].kind.fields, |types[id].kind.fields|, inProgress).value.1;
      forall name | name in required :: name in EncodeFields(encoder, types, id, v, |types[id].kind.fields|)
  {
    var fields := types[id].kind.fields;
    var required := DeriveFields(types, fields, |fields|, inProgress).value.1;
    hide DeriveFields, EncodeFields, WellFormed;
    forall name | name in required ensures name in EncodeFields(encoder, types, id, v, |fields|) {
      var i := RequiredIsField(types, fields, |fields|, inProgress, name);
      WrittenIsMember(encoder, types, id, v, |fields|, i);
    }
  }

  lemma {:induction false} MemberExactly(
      encoder: Encoder, types: Types, id: nat, inProgress: set<nat>, v: Value, i: nat)
    requires WellFormed(types)
    requires HasType(types, id, v) && types[id].kind.StructKind? && i < |v.fields|
    requires IsWritten(encoder, types, types[id].kind.fields[i], v.fields[i])
    requires DeriveFields(types, types[id].kind.fields, |types[id].kind.fields|, inProgress).Some?
    ensures var fields := types[id].kind.fields;
      var name := fields[i].name;
      var properties := DeriveFields(types, fields, |fields|, inProgress).value.0;
      var members := EncodeFields(encoder, types, id, v, |fields|);
      && name in members && name in properties
      && (Accepts(properties[name], members[name]) <==> FieldFits(encoder, types, fields[i], v.fields[i]))
    decreases v, 0
  {
    var fields := types[id].kind.fields;
    assert AreFields(types, fields);
    WrittenIsMember(encoder, types, id, v, |fields|, i);
    var j := MemberIsWritten(encoder, types, id, v, |fields|, fields[i].name);
    assert j == i;
    hide DeriveFields, DescribeField, EncodeField, EncodeFields, Accepts, WellFormed, FieldFits;
    FieldIsProperty(types, fields, |fields|, inProgress, i);
    FieldExactly(encoder, types, fields[i], inProgress, v.fields[i]);
  }
}
