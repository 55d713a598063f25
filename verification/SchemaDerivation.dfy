/** Deriving a schema as the deriver does, which marks the types it is deriving and
    collects the fields of a struct one by one (architecturekit/schema.go). */
module SchemaDerivation {
  import opened Basics
  import opened Schemas

  class Deriver {
    const types: Types
    var inProgress: set<nat>

    constructor (types: Types)
      ensures this.types == types && inProgress == {}
    {
      this.types := types;
      inProgress := {};
    }

    method Structure(id: nat) returns (schema: Option<Schema>)
      requires WellFormed(types) && id in types
      modifies this
      ensures inProgress == old(inProgress) && schema == Derive(types, id, inProgress)
      decreases types.Keys - inProgress, 0
    {
      if id in inProgress {
        return None;
      }
      assert id in types.Keys - inProgress;
      inProgress := inProgress + {id};
      schema := StructureOf(id);
      inProgress := inProgress - {id};
      assert inProgress == old(inProgress);
    }

    method StructureOf(id: nat) returns (schema: Option<Schema>)
      requires WellFormed(types) && id in types && id in inProgress
      modifies this
      ensures inProgress == old(inProgress) && schema == Derive(types, id, inProgress - {id})
      decreases types.Keys - inProgress, 5
    {
      assert inProgress - {id} + {id} == inProgress;
      match types[id].kind
      case PointerKind(target) =>
        var element := SchemaOf(target);
        schema := if element.Some? then Some(Nullable(element.value)) else None;
      case TimeKind => schema := Some(OfKind("string").(format := Some("date-time")));
      case NumberKind => schema := Some(OfKind("number"));
      case RawKind => schema := Some(ANYTHING);
      case SelfKind => schema := None;
      case TextKind => schema := Some(OfKind("string"));
      case BoolKind => schema := Some(OfKind("boolean"));
      case IntKind => schema := Some(OfKind("integer"));
      case FloatKind => schema := Some(OfKind("number"));
      case StringKind => schema := Some(OfKind("string"));
      case InterfaceKind => schema := Some(ANYTHING);
      case TextInterfaceKind => schema := Some(OfKind("string"));
      case BytesKind => schema := Some(Nullable(OfKind("string")));
      case SliceKind(item) =>
        var items := SchemaOf(item);
        schema := if items.Some? then Some(Nullable(OfKind("array").(items := items))) else None;
      case ArrayKind(size, item) =>
        var items := SchemaOf(item);
        var sized := OfKind("array").(items := items, minItems := Some(size), maxItems := Some(size));
        schema := if items.Some? then Some(sized) else None;
      case MapKind(isKey, element) =>
        if !isKey {
          return None;
        }
        var values := SchemaOf(element);
        if values.None? {
          return None;
        }
        schema := Some(Nullable(OfKind("object").(additional := Described(values.value))));
      case StructKind(fields) => schema := StructObject(fields);
      case OtherKind => schema := None;
    }

    method StructObject(fields: seq<Field>) returns (schema: Option<Schema>)
      requires WellFormed(types) && AreFields(types, fields)
      modifies this
      ensures inProgress == old(inProgress)
      ensures schema == var derived := DeriveFields(types, fields, |fields|, inProgress);
        if derived.Some? then Some(ObjectSchema(derived.value.0, derived.value.1)) else None
      decreases types.Keys - inProgress, 4
    {
      hide DescribeField;
      var properties: map<string, Schema>, required: seq<string> := map[], [];
      for i := 0 to |fields|
        invariant inProgress == old(inProgress)
        invariant DeriveFields(types, fields, i, inProgress) == Some((properties, required))
      {
        var described := FieldSchema(fields[i]);
        if described.None? {
          FieldsNeedEveryField(types, fields, |fields|, inProgress);
          return None;
        }
        properties := properties[fields[i].name := described.value];
        if !IsOptional(fields[i]) {
          required := required + [fields[i].name];
        }
      }
      schema := Some(ObjectSchema(properties, required));
    }

    method FieldSchema(field: Field) returns (schema: Option<Schema>)
      requires WellFormed(types) && field.valueType in types
      modifies this
      ensures inProgress == old(inProgress) && schema == DescribeField(types, field, inProgress)
      decreases types.Keys - inProgress, 3
    {
      if !field.isQuoted {
        if IsOptional(field) {
          schema := SchemaOfPresent(field.valueType);
        } else {
          schema := SchemaOf(field.valueType);
        }
      } else if types[field.valueType].kind.PointerKind? && !IsOptional(field) {
        schema := Some(Nullable(OfKind("string")));
      } else {
        schema := Some(OfKind("string"));
      }
    }

    method SchemaOfPresent(id: nat) returns (schema: Option<Schema>)
      requires WellFormed(types) && id in types
      modifies this
      ensures inProgress == old(inProgress) && schema == DescribePresent(types, id, inProgress)
      decreases types.Keys - inProgress, 2
    {
      if OwnOf(types[id]).NoFunction? && types[id].kind.PointerKind? {
        assert IsKnown(types, types[id].kind);
        schema := SchemaOf(types[id].kind.target);
      } else {
        schema := SchemaOf(id);
        if OwnOf(types[id]).NoFunction? && schema.Some? &&
          (types[id].kind.BytesKind? || types[id].kind.SliceKind? || types[id].kind.MapKind?) {
          schema := Some(WithoutNull(schema.value));
        }
      }
    }

    method SchemaOf(id: nat) returns (schema: Option<Schema>)
      requires WellFormed(types) && id in types
      modifies this
      ensures inProgress == old(inProgress) && schema == Describe(types, id, inProgress)
      decreases types.Keys - inProgress, 1
    {
      if IsRefused(types, id) {
        return None;
      }
      if OwnOf(types[id]).Returns? {
        return Some(OwnOf(types[id]).schema);
      }
      schema := Structure(id);
    }
  }

  /** DeriveSchema ends on every type, and finds a schema exactly if nothing is in
      the way of it. */
  method SchemaFor(types: Types, id: nat) returns (schema: Option<Schema>)
    requires WellFormed(types) && id in types
    ensures schema == DeriveSchema(types, id)
    ensures schema == None <==>
      (types[id].borrowsOwn && !types[id].kind.PointerKind?) || exists chain :: IsBlocked(types, id, chain, {})
  {
    UnderivedExactlyIfBlocked(types, id);
    if types[id].borrowsOwn && !types[id].kind.PointerKind? {
      return None;
    }
    var deriver := new Deriver(types);
    schema := deriver.Structure(id);
  }
}
