/** What a derived schema accepts of all of JSON, and not only of what is written for the
    values of the type: exactly what looks like one of them, at any depth
    (architecturekit/schema.go). */
module SchemaShapes {
  import opened Basics
  import opened Schemas
  import opened SchemaSoundness

  /** JSON that looks like a value of the type. */
  ghost predicate LooksLike(types: Types, id: nat, inProgress: set<nat>, j: Json)
    requires WellFormed(types) && id in types
    decreases types.Keys - inProgress, 0
  {
    if id in inProgress then false
    else
      assert id in types.Keys - inProgress;
      var deeper := inProgress + {id};
      match types[id].kind
      case BoolKind => j.Bool?
      case IntKind => j.Number? && j.number == j.number.Floor as real
      case FloatKind => j.Number?
      case NumberKind => j.Number?
      case StringKind => j.String?
      case TextKind => j.String?
      case TextInterfaceKind => j.String?
      case TimeKind => j.String?
      case BytesKind => j.Null? || j.String?
      case InterfaceKind => true
      case RawKind => true
      case PointerKind(target) => j.Null? || LooksLikePart(types, target, deeper, j)
      case SliceKind(item) =>
        j.Null? || (j.List? && forall i | 0 <= i < |j.items| :: LooksLikePart(types, item, deeper, j.items[i]))
      case ArrayKind(size, item) =>
        j.List? && |j.items| == size && forall i | 0 <= i < size :: LooksLikePart(types, item, deeper, j.items[i])
      case MapKind(_, element) =>
        j.Null? || (j.Object? && forall name <- j.members :: LooksLikePart(types, element, deeper, j.members[name]))
      case StructKind(fields) => j.Object? && LooksLikeFields(types, fields, deeper, j.members)
      case _ => false
  }

  /** What describes itself says itself what it looks like. */
  ghost predicate LooksLikePart(types: Types, id: nat, inProgress: set<nat>, j: Json)
    requires WellFormed(types) && id in types
    decreases types.Keys - inProgress, 1
  {
    if OwnOf(types[id]).Returns? then Accepts(OwnOf(types[id]).schema, j) else LooksLike(types, id, inProgress, j)
  }

  /** What a field looks like: one that is left out if it is empty is never null for its
      own sake, and the string option makes a text of anything but nil. */
  ghost predicate LooksLikeField(types: Types, field: Field, inProgress: set<nat>, j: Json)
    requires WellFormed(types) && field.valueType in types
    decreases types.Keys - inProgress, 2
  {
    var info := types[field.valueType];
    if field.isQuoted then j.String? || (j.Null? && info.kind.PointerKind? && !IsOptional(field))
    else if !IsOptional(field) || OwnOf(info).Returns? then LooksLikePart(types, field.valueType, inProgress, j)
    else
      match info.kind
      case PointerKind(target) => LooksLikePart(types, target, inProgress, j)
      case kind =>
        LooksLike(types, field.valueType, inProgress, j) &&
        (j.Null? ==> !kind.BytesKind? && !kind.SliceKind? && !kind.MapKind?)
  }

  /** Every member is a field, and every field that may not be left out is a member. */
  ghost predicate LooksLikeFields(types: Types, fields: seq<Field>, inProgress: set<nat>, members: map<string, Json>)
    requires WellFormed(types) && AreFields(types, fields)
    decreases types.Keys - inProgress, 3
  {
    && (forall name <- members :: exists i | 0 <= i < |fields| :: fields[i].name == name)
    && (forall i | 0 <= i < |fields| && fields[i].name in members ::
          LooksLikeField(types, fields[i], inProgress, members[fields[i].name]))
    && (forall i | 0 <= i < |fields| && !IsOptional(fields[i]) :: fields[i].name in members)
  }

  // ----- The keywords -----

  lemma {:induction false} ArrayAccepts(s: Schema, minItems: Option<nat>, maxItems: Option<nat>, j: Json)
    ensures Accepts(OfKind("array").(items := Some(s), minItems := minItems, maxItems := maxItems), j) <==>
      && j.List? && (forall i | 0 <= i < |j.items| :: Accepts(s, j.items[i]))
      && (minItems.Some? ==> minItems.value <= |j.items|) && (maxItems.Some? ==> |j.items| <= maxItems.value)
  {
    if j.List? {
      ListAccepts(s, minItems, maxItems, j.items);
    }
  }

  lemma {:induction false} MapSchemaAccepts(s: Schema, j: Json)
    ensures Accepts(OfKind("object").(additional := Described(s)), j) <==>
      j.Object? && forall name <- j.members :: Accepts(s, j.members[name])
  {
    if j.Object? {
      MapAccepts(s, j.members);
    }
  }

  lemma {:induction false} ObjectSchemaAccepts(properties: map<string, Schema>, required: seq<string>, j: Json)
    ensures Accepts(ObjectSchema(properties, required), j) <==>
      && j.Object?
      && (forall name <- j.members :: name in properties && Accepts(properties[name], j.members[name]))
      && (forall name | name in required :: name in j.members)
  {
    if j.Object? {
      ObjectAccepts(properties, required, j.members);
    }
  }

  // ----- Exactly -----

  /** A derived schema accepts exactly the JSON that looks like a value of its type. */
  lemma {:induction false} AcceptsExactlyWhatLooksLikeIt(types: Types, id: nat, inProgress: set<nat>, j: Json)
    requires WellFormed(types) && id in types && Derive(types, id, inProgress).Some?
    ensures Accepts(Derive(types, id, inProgress).value, j) <==> LooksLike(types, id, inProgress, j)
    decreases types.Keys - inProgress, 0
  {
    assert id in types.Keys - inProgress;
    match types[id].kind
    case PointerKind(_) => PointerLooksLike(types, id, inProgress, j);
    case SliceKind(_) => SliceLooksLike(types, id, inProgress, j);
    case ArrayKind(_, _) => ArrayLooksLike(types, id, inProgress, j);
    case MapKind(_, _) => MapLooksLike(types, id, inProgress, j);
    case StructKind(fields) =>
      StructLooksLike(types, fields, inProgress + {id}, j);
      hide Accepts, LooksLikeFields, DeriveFields;
    case _ => LeafLooksLike(types, id, inProgress, j);
  }

  lemma {:induction false} LeafLooksLike(types: Types, id: nat, inProgress: set<nat>, j: Json)
    requires WellFormed(types) && id in types && Derive(types, id, inProgress).Some?
    requires var kind := types[id].kind;
      !kind.PointerKind? && !kind.SliceKind? && !kind.ArrayKind? && !kind.MapKind? && !kind.StructKind?
    ensures Accepts(Derive(types, id, inProgress).value, j) <==> LooksLike(types, id, inProgress, j)
  {
    hide Accepts;
    if types[id].kind.BytesKind? {
      NullableAccepts(OfKind("string"), j);
      AcceptsOfKind(OfKind("string"), j);
    } else {
      AcceptsOfKind(Derive(types, id, inProgress).value, j);
    }
  }

  lemma {:induction false} PointerLooksLike(types: Types, id: nat, inProgress: set<nat>, j: Json)
    requires WellFormed(types) && id in types && id in types.Keys - inProgress
    requires types[id].kind.PointerKind? && Derive(types, id, inProgress).Some?
    ensures Accepts(Derive(types, id, inProgress).value, j) <==> LooksLike(types, id, inProgress, j)
    decreases types.Keys - (inProgress + {id}), 5
  {
    hide Accepts, LooksLikePart;
    var target, deeper := types[id].kind.target, inProgress + {id};
    PartLooksLike(types, target, deeper, j);
    NullableAccepts(Describe(types, target, deeper).value, j);
    hide Describe;
  }

  lemma {:induction false} SliceLooksLike(types: Types, id: nat, inProgress: set<nat>, j: Json)
    requires WellFormed(types) && id in types && id in types.Keys - inProgress
    requires types[id].kind.SliceKind? && Derive(types, id, inProgress).Some?
    ensures Accepts(Derive(types, id, inProgress).value, j) <==> LooksLike(types, id, inProgress, j)
    decreases types.Keys - (inProgress + {id}), 5
  {
    hide Accepts, LooksLikePart;
    var item, deeper := types[id].kind.item, inProgress + {id};
    var s := Describe(types, item, deeper).value;
    NullableAccepts(OfKind("array").(items := Some(s)), j);
    ArrayAccepts(s, None, None, j);
    ItemsLookLike(types, item, deeper, j);
    hide Describe;
  }

  lemma {:induction false} ArrayLooksLike(types: Types, id: nat, inProgress: set<nat>, j: Json)
    requires WellFormed(types) && id in types && id in types.Keys - inProgress
    requires types[id].kind.ArrayKind? && Derive(types, id, inProgress).Some?
    ensures Accepts(Derive(types, id, inProgress).value, j) <==> LooksLike(types, id, inProgress, j)
    decreases types.Keys - (inProgress + {id}), 5
  {
    hide Accepts, LooksLikePart;
    var size, item, deeper := types[id].kind.size, types[id].kind.item, inProgress + {id};
    ArrayAccepts(Describe(types, item, deeper).value, Some(size), Some(size), j);
    ItemsLookLike(types, item, deeper, j);
    hide Describe;
  }

  lemma {:induction false} ItemsLookLike(types: Types, item: nat, inProgress: set<nat>, j: Json)
    requires WellFormed(types) && item in types && Describe(types, item, inProgress).Some?
    ensures j.List? ==> forall i | 0 <= i < |j.items| ::
      Accepts(Describe(types, item, inProgress).value, j.items[i]) <==>
        LooksLikePart(types, item, inProgress, j.items[i])
    decreases types.Keys - inProgress, 4
  {
    hide Accepts, LooksLikePart, Describe;
    if j.List? {
      forall i | 0 <= i < |j.items|
        ensures Accepts(Describe(types, item, inProgress).value, j.items[i]) <==>
          LooksLikePart(types, item, inProgress, j.items[i])
      {
        PartLooksLike(types, item, inProgress, j.items[i]);
      }
    }
  }

  lemma {:induction false} MapLooksLike(types: Types, id: nat, inProgress: set<nat>, j: Json)
    requires WellFormed(types) && id in types && id in types.Keys - inProgress
    requires types[id].kind.MapKind? && Derive(types, id, inProgress).Some?
    ensures Accepts(Derive(types, id, inProgress).value, j) <==> LooksLike(types, id, inProgress, j)
    decreases types.Keys - (inProgress + {id}), 5
  {
    hide Accepts, LooksLikePart;
    var element, deeper := types[id].kind.element, inProgress + {id};
    var s := Describe(types, element, deeper).value;
    NullableAccepts(OfKind("object").(additional := Described(s)), j);
    MapSchemaAccepts(s, j);
    if j.Object? {
      forall name <- j.members ensures Accepts(s, j.members[name]) <==>
        LooksLikePart(types, element, deeper, j.members[name])
      {
        PartLooksLike(types, element, deeper, j.members[name]);
      }
    }
    hide Describe;
  }

  lemma {:induction false} PartLooksLike(types: Types, id: nat, inProgress: set<nat>, j: Json)
    requires WellFormed(types) && id in types && Describe(types, id, inProgress).Some?
    ensures Accepts(Describe(types, id, inProgress).value, j) <==> LooksLikePart(types, id, inProgress, j)
    decreases types.Keys - inProgress, 1
  {
    if !OwnOf(types[id]).Returns? {
      AcceptsExactlyWhatLooksLikeIt(types, id, inProgress, j);
    }
    hide Accepts, LooksLike, Derive;
  }

  lemma {:induction false} FieldLooksLike(types: Types, field: Field, inProgress: set<nat>, j: Json)
    requires WellFormed(types) && field.valueType in types && DescribeField(types, field, inProgress).Some?
    ensures Accepts(DescribeField(types, field, inProgress).value, j) <==> LooksLikeField(types, field, inProgress, j)
    decreases types.Keys - inProgress, 3
  {
    hide Accepts, LooksLike, LooksLikePart, Derive, DescribePresent, Describe;
    if field.isQuoted {
      NullableAccepts(OfKind("string"), j);
      AcceptsOfKind(OfKind("string"), j);
    } else if !IsOptional(field) {
      PartLooksLike(types, field.valueType, inProgress, j);
    } else {
      PresentLooksLike(types, field, inProgress, j);
    }
  }

  lemma {:induction false} PresentLooksLike(types: Types, field: Field, inProgress: set<nat>, j: Json)
    requires WellFormed(types) && field.valueType in types && IsOptional(field) && !field.isQuoted
    requires DescribePresent(types, field.valueType, inProgress).Some?
    ensures Accepts(DescribePresent(types, field.valueType, inProgress).value, j) <==>
      LooksLikeField(types, field, inProgress, j)
    decreases types.Keys - inProgress, 2
  {
    hide Accepts, LooksLike, Derive;
    var id := field.valueType;
    var kind := types[id].kind;
    if OwnOf(types[id]).NoFunction? && kind.PointerKind? {
      PartLooksLike(types, kind.target, inProgress, j);
    } else {
      PartLooksLike(types, id, inProgress, j);
      if OwnOf(types[id]).NoFunction? && (kind.BytesKind? || kind.SliceKind? || kind.MapKind?) {
        WithoutNullLooksLike(types, id, inProgress, j);
      }
    }
  }

  lemma {:induction false} WithoutNullLooksLike(types: Types, id: nat, inProgress: set<nat>, j: Json)
    requires WellFormed(types) && id in types && Derive(types, id, inProgress).Some?
    requires types[id].kind.BytesKind? || types[id].kind.SliceKind? || types[id].kind.MapKind?
    ensures var s := Derive(types, id, inProgress).value;
      Accepts(WithoutNull(s), j) <==> Accepts(s, j) && !j.Null?
  {
    var plain := Derive(types, id, inProgress).value.anyOf.schemas[0];
    NullableAccepts(plain, j);
    if j.Null? {
      assert plain.kind.Some? && !IsOfKind(j, plain.kind.value);
    }
  }

  // ----- Structs -----

  /** The collected properties are the fields, ... */
  lemma {:induction false} CollectsFields(types: Types, fields: seq<Field>, n: nat, inProgress: set<nat>)
    requires WellFormed(types) && AreFields(types, fields) && n <= |fields|
    requires DeriveFields(types, fields, n, inProgress).Some?
    ensures var properties := DeriveFields(types, fields, n, inProgress).value.0;
      && (forall i | 0 <= i < n ::
            && fields[i].name in properties
            && DescribeField(types, fields[i], inProgress) == Some(properties[fields[i].name]))
      && (forall name <- properties :: exists i | 0 <= i < n :: fields[i].name == name)
  {
    hide DescribeField, WellFormed;
    if n > 0 {
      CollectsFields(types, fields, n - 1, inProgress);
      assert forall i | 0 <= i < n - 1 :: fields[i].name != fields[n - 1].name;
    }
  }

  ghost predicate IsRequired(fields: seq<Field>, n: nat, name: string)
    requires n <= |fields|
  {
    exists i | 0 <= i < n :: fields[i].name == name && !IsOptional(fields[i])
  }

  /** ... and the required names those of the fields that may not be left out. */
  lemma {:induction false} CollectsRequired(types: Types, fields: seq<Field>, n: nat, inProgress: set<nat>)
    requires WellFormed(types) && AreFields(types, fields) && n <= |fields|
    requires DeriveFields(types, fields, n, inProgress).Some?
    ensures forall name :: name in DeriveFields(types, fields, n, inProgress).value.1 <==> IsRequired(fields, n, name)
  {
    hide DescribeField, WellFormed, IsOptional;
    if n > 0 {
      CollectsRequired(types, fields, n - 1, inProgress);
      forall name
        ensures IsRequired(fields, n, name) <==>
          IsRequired(fields, n - 1, name) || (name == fields[n - 1].name && !IsOptional(fields[n - 1]))
      {
      }
    }
  }

  lemma {:induction false} StructLooksLike(types: Types, fields: seq<Field>, inProgress: set<nat>, j: Json)
    requires WellFormed(types) && AreFields(types, fields) && DeriveFields(types, fields, |fields|, inProgress).Some?
    ensures var (properties, required) := DeriveFields(types, fields, |fields|, inProgress).value;
      Accepts(ObjectSchema(properties, required), j) <==>
        j.Object? && LooksLikeFields(types, fields, inProgress, j.members)
    decreases types.Keys - inProgress, 4
  {
    var (properties, required) := DeriveFields(types, fields, |fields|, inProgress).value;
    CollectsFields(types, fields, |fields|, inProgress);
    CollectsRequired(types, fields, |fields|, inProgress);
    ObjectSchemaAccepts(properties, required, j);
    hide Accepts, DeriveFields, DescribeField, LooksLikeField, ObjectSchema, WellFormed;
    if j.Object? {
      forall i | 0 <= i < |fields| && fields[i].name in j.members
        ensures Accepts(properties[fields[i].name], j.members[fields[i].name]) <==>
          LooksLikeField(types, fields[i], inProgress, j.members[fields[i].name])
      {
        FieldLooksLike(types, fields[i], inProgress, j.members[fields[i].name]);
      }
    }
  }
}
