/** For which types a derived schema accepts what is written for every value: exactly
    those that do not lead to a nil that is written where the schema does not allow for
    null, or to what a schema of its own refuses (architecturekit/schema.go). */
module SchemaMisfits {
  import opened Basics
  import opened Schemas
  import opened SchemaSoundness

  ghost predicate HasValues(types: Types, id: nat) { exists v :: HasType(types, id, v) }

  /** Some value of the type is not its zero value. */
  ghost predicate HasUnblank(encoder: Encoder, types: Types, id: nat)
    requires WellFormed(types)
  {
    exists v :: HasType(types, id, v) && !IsBlank(encoder, types, id, v)
  }

  /** The nil of the field is written, although it does not allow null. */
  predicate WritesRefusedNil(encoder: Encoder, types: Types, field: Field)
    requires WellFormed(types) && field.valueType in types
  {
    && IsOptional(field) && HasType(types, field.valueType, Nil) && IsWritten(encoder, types, field, Nil)
    && !AllowsNull(types, field)
  }

  /** Within so many steps from the type to a part of its values, there is something that
      the schema does not allow for. Behind a pointer, only what is not null counts, and
      with omitzero, only what is in a value other than zero: by itself, or next to
      something that is not zero. */
  ghost predicate ReachesMisfit(
      encoder: Encoder, types: Types, id: nat, steps: nat, nullCounts: bool, zeroCounts: bool)
    requires WellFormed(types) && id in types
    decreases steps, 0
  {
    match types[id].kind
    case TextInterfaceKind => nullCounts && zeroCounts
    case PointerKind(target) => steps > 0 && PartMisfits(encoder, types, target, steps - 1, false, true)
    case SliceKind(item) => steps > 0 && PartMisfits(encoder, types, item, steps - 1, true, true)
    case ArrayKind(size, item) => steps > 0 && size > 0 &&
      (PartMisfits(encoder, types, item, steps - 1, true, false) ||
       (PartMisfits(encoder, types, item, steps - 1, true, true) &&
        (zeroCounts || (size > 1 && HasUnblank(encoder, types, item)))))
    case MapKind(isKey, element) => steps > 0 && isKey && PartMisfits(encoder, types, element, steps - 1, true, true)
    case StructKind(fields) => steps > 0 && HasValues(types, id) &&
      SomeFieldMisfits(encoder, types, id, steps - 1, zeroCounts)
    case _ => false
  }

  /** What describes itself can only be asked. */
  ghost predicate PartMisfits(encoder: Encoder, types: Types, id: nat, steps: nat, nullCounts: bool, zeroCounts: bool)
    requires WellFormed(types) && id in types
    decreases steps, 1
  {
    if OwnOf(types[id]).Returns? then OwnRefuses(encoder, types, id, nullCounts, zeroCounts)
    else ReachesMisfit(encoder, types, id, steps, nullCounts, zeroCounts)
  }

  ghost predicate OwnRefuses(encoder: Encoder, types: Types, id: nat, nullCounts: bool, zeroCounts: bool)
    requires WellFormed(types) && id in types && OwnOf(types[id]).Returns?
  {
    exists v | HasType(types, id, v) ::
      && !Accepts(OwnOf(types[id]).schema, Encode(encoder, types, id, v))
      && Counts(encoder, types, id, v, nullCounts, zeroCounts)
  }

  predicate Counts(encoder: Encoder, types: Types, id: nat, v: Value, nullCounts: bool, zeroCounts: bool)
    requires WellFormed(types) && HasType(types, id, v)
  {
    (nullCounts || !Encode(encoder, types, id, v).Null?) && (zeroCounts || !IsBlank(encoder, types, id, v))
  }

  ghost predicate SomeFieldMisfits(encoder: Encoder, types: Types, id: nat, steps: nat, zeroCounts: bool)
    requires WellFormed(types) && id in types && types[id].kind.StructKind?
    decreases steps, 3
  {
    var fields := types[id].kind.fields;
    exists i | 0 <= i < |fields| ::
      || FieldMisfits(encoder, types, fields[i], steps, false)
      || (FieldMisfits(encoder, types, fields[i], steps, true) && (zeroCounts || CanBeSetBeside(encoder, types, id, i)))
  }

  /** A struct is not zero as soon as an embedded pointer is not nil, or another field,
      maybe one that is not written, is not zero. */
  ghost predicate CanBeSetBeside(encoder: Encoder, types: Types, id: nat, i: nat)
    requires WellFormed(types) && id in types && types[id].kind.StructKind? && i < |types[id].kind.fields|
  {
    var fields := types[id].kind.fields;
    || types[id].hidesParts || fields[i].isBehindPointer
    || exists j | 0 <= j < |fields| && j != i :: CanBeSet(encoder, types, fields[j])
  }

  ghost predicate CanBeSet(encoder: Encoder, types: Types, field: Field)
    requires WellFormed(types)
  {
    if field.isBehindPointer then HasValues(types, field.valueType) else HasUnblank(encoder, types, field.valueType)
  }

  ghost predicate FieldMisfits(encoder: Encoder, types: Types, field: Field, steps: nat, zeroCounts: bool)
    requires WellFormed(types) && field.valueType in types
    decreases steps, 2
  {
    || (WritesRefusedNil(encoder, types, field) && zeroCounts)
    || (!field.isQuoted &&
        if DependsOnValue(types, field) then IsWrittenWithMisfit(encoder, types, field, zeroCounts)
        else if !IsOptional(field) then PartMisfits(encoder, types, field.valueType, steps, true, zeroCounts)
        else
          match types[field.valueType].kind
          case PointerKind(target) => PartMisfits(encoder, types, target, steps, true, true)
          case _ => PartMisfits(encoder, types, field.valueType, steps, false, zeroCounts && !field.omitsZero))
  }

  /** Whether an optional field is left out may depend on all of its value: by its IsZero
      function, or because a schema of its own says what is refused. */
  predicate DependsOnValue(types: Types, field: Field)
    requires field.valueType in types
  {
    var info := types[field.valueType];
    IsOptional(field) && (OwnOf(info).Returns? || (field.omitsZero && info.hasIsZero))
  }

  ghost predicate IsWrittenWithMisfit(encoder: Encoder, types: Types, field: Field, zeroCounts: bool)
    requires WellFormed(types) && field.valueType in types
  {
    exists v | HasType(types, field.valueType, v) ::
      && IsWritten(encoder, types, field, v) && !FieldFits(encoder, types, field, v)
      && (zeroCounts || !IsBlank(encoder, types, field.valueType, v))
  }

  // ----- From the type to a value -----

  /** It has content, and is not written as null. */
  ghost predicate IsFull(encoder: Encoder, types: Types, id: nat, v: Value)
    requires WellFormed(types) && HasType(types, id, v)
  {
    && !Encode(encoder, types, id, v).Null?
    && (v.Pointer? || v.Struct? || (v.Items? && v.items != []) || (v.Entries? && v.entries != map[]))
  }

  lemma {:induction false} MisfitExists(
      encoder: Encoder, types: Types, id: nat, steps: nat, nullCounts: bool, zeroCounts: bool)
    returns (v: Value)
    requires WellFormed(types) && id in types && ReachesMisfit(encoder, types, id, steps, nullCounts, zeroCounts)
    ensures HasType(types, id, v) && !NilsFit(encoder, types, id, v)
    ensures nullCounts || IsFull(encoder, types, id, v)
    ensures zeroCounts || !IsBlank(encoder, types, id, v)
    decreases steps, 0
  {
    match types[id].kind
    case TextInterfaceKind => v := Nil;
    case PointerKind(target) =>
      var part := PartMisfitExists(encoder, types, target, steps - 1, false, true);
      v := Pointer(part);
    case SliceKind(item) =>
      var part := PartMisfitExists(encoder, types, item, steps - 1, true, true);
      v := Items([part]);
      ItemMisfits(encoder, types, id, v);
    case ArrayKind(_, _) => v := ArrayMisfitExists(encoder, types, id, steps, zeroCounts);
    case MapKind(_, element) =>
      var part := PartMisfitExists(encoder, types, element, steps - 1, true, true);
      v := Entries(map["" := part]);
      assert !PartFits(encoder, types, element, v.entries[""]);
    case StructKind(fields) => v := StructMisfitExists(encoder, types, id, steps, zeroCounts);
  }

  lemma {:induction false} ItemMisfits(encoder: Encoder, types: Types, id: nat, v: Value)
    requires WellFormed(types) && HasType(types, id, v) && v.Items? && v.items != []
    requires match types[id].kind
      case SliceKind(item) => !PartFits(encoder, types, item, v.items[0])
      case ArrayKind(_, item) => !PartFits(encoder, types, item, v.items[0])
      case _ => false
    ensures !NilsFit(encoder, types, id, v) && IsFull(encoder, types, id, v)
  {
    hide PartFits;
  }

  lemma {:induction false} ArrayMisfitExists(encoder: Encoder, types: Types, id: nat, steps: nat, zeroCounts: bool)
    returns (v: Value)
    requires WellFormed(types) && id in types && types[id].kind.ArrayKind?
    requires ReachesMisfit(encoder, types, id, steps, true, zeroCounts)
    ensures HasType(types, id, v) && !NilsFit(encoder, types, id, v) && IsFull(encoder, types, id, v)
    ensures zeroCounts || !IsBlank(encoder, types, id, v)
    decreases steps - 1, 3
  {
    hide PartMisfits, PartFits, NilsFit;
    var size, item := types[id].kind.size, types[id].kind.item;
    if PartMisfits(encoder, types, item, steps - 1, true, false) {
      var part := PartMisfitExists(encoder, types, item, steps - 1, true, false);
      v := Items(seq(size, i => part));
      assert !IsBlank(encoder, types, item, v.items[0]);
    } else {
      var part := PartMisfitExists(encoder, types, item, steps - 1, true, true);
      var other := part;
      if !zeroCounts {
        other :| HasType(types, item, other) && !IsBlank(encoder, types, item, other);
      }
      v := Items(seq(size, i => if i == 0 then part else other));
      assert zeroCounts || !IsBlank(encoder, types, item, v.items[1]);
    }
    ItemMisfits(encoder, types, id, v);
  }

  lemma {:induction false} StructMisfitExists(encoder: Encoder, types: Types, id: nat, steps: nat, zeroCounts: bool)
    returns (v: Value)
    requires WellFormed(types) && id in types && types[id].kind.StructKind? && steps > 0 && HasValues(types, id)
    requires SomeFieldMisfits(encoder, types, id, steps - 1, zeroCounts)
    ensures HasType(types, id, v) && !NilsFit(encoder, types, id, v) && IsFull(encoder, types, id, v)
    ensures zeroCounts || !IsBlank(encoder, types, id, v)
    decreases steps - 1, 3
  {
    hide FieldMisfits, FieldFits, IsWritten, IsBlank, CanBeSetBeside, IsSetBeside, NilsFit, IsFull;
    var fields := types[id].kind.fields;
    var i :| 0 <= i < |fields| &&
      (FieldMisfits(encoder, types, fields[i], steps - 1, false) ||
       (FieldMisfits(encoder, types, fields[i], steps - 1, true) &&
        (zeroCounts || CanBeSetBeside(encoder, types, id, i))));
    var isSet := FieldMisfits(encoder, types, fields[i], steps - 1, false);
    var part := FieldMisfitExists(encoder, types, fields[i], steps - 1, !isSet);
    var some := Besides(encoder, types, id, i, zeroCounts || isSet);
    v := some.(fields := some.fields[i := part]);
    PartOfStructMisfits(encoder, types, id, some, i, part);
    if !zeroCounts {
      StaysSet(encoder, types, id, some, i, part);
    }
  }

  lemma {:induction false} PartOfStructMisfits(
      encoder: Encoder, types: Types, id: nat, some: Value, i: nat, part: Value)
    requires WellFormed(types) && HasType(types, id, some) && types[id].kind.StructKind? && i < |some.fields|
    requires var field := types[id].kind.fields[i];
      HasType(types, field.valueType, part) && IsWritten(encoder, types, field, part) &&
      !FieldFits(encoder, types, field, part)
    ensures var v := some.(fields := some.fields[i := part]);
      HasType(types, id, v) && !NilsFit(encoder, types, id, v) && IsFull(encoder, types, id, v)
  {
    hide FieldFits, IsWritten;
    var v := some.(fields := some.fields[i := part]);
    assert v.fields[i] == part;
  }

  lemma {:induction false} StaysSet(encoder: Encoder, types: Types, id: nat, some: Value, i: nat, part: Value)
    requires WellFormed(types) && HasType(types, id, some) && types[id].kind.StructKind? && i < |some.fields|
    requires HasType(types, types[id].kind.fields[i].valueType, part)
    requires IsSetBeside(encoder, types, id, some, i) ||
      !IsBlank(encoder, types, types[id].kind.fields[i].valueType, part)
    ensures var v := some.(fields := some.fields[i := part]); HasType(types, id, v) && !IsBlank(encoder, types, id, v)
  {
    var v := some.(fields := some.fields[i := part]);
    assert v.fields[i] == part;
    assert forall j | 0 <= j < |v.fields| && j != i :: v.fields[j] == some.fields[j];
  }

  /** A value of the struct that is not zero, whatever the given field is. */
  ghost predicate IsSetBeside(encoder: Encoder, types: Types, id: nat, v: Value, i: nat)
    requires WellFormed(types) && HasType(types, id, v) && types[id].kind.StructKind? && i < |v.fields|
  {
    var fields := types[id].kind.fields;
    || v.isMore || fields[i].isBehindPointer
    || exists j | 0 <= j < |fields| && j != i && !v.fields[j].Absent? ::
         fields[j].isBehindPointer || !IsBlank(encoder, types, fields[j].valueType, v.fields[j])
  }

  lemma {:induction false} Besides(encoder: Encoder, types: Types, id: nat, i: nat, anything: bool) returns (v: Value)
    requires WellFormed(types) && id in types && types[id].kind.StructKind? && i < |types[id].kind.fields|
    requires HasValues(types, id) && (anything || CanBeSetBeside(encoder, types, id, i))
    ensures HasType(types, id, v) && (anything || IsSetBeside(encoder, types, id, v, i))
  {
    hide IsBlank;
    var fields := types[id].kind.fields;
    v :| HasType(types, id, v);
    if types[id].hidesParts {
      v := v.(isMore := true);
    } else if !anything && !fields[i].isBehindPointer {
      var j :| 0 <= j < |fields| && j != i && CanBeSet(encoder, types, fields[j]);
      v := SetPart(encoder, types, id, v, j);
    }
  }

  lemma {:induction false} SetPart(encoder: Encoder, types: Types, id: nat, some: Value, j: nat) returns (v: Value)
    requires WellFormed(types) && HasType(types, id, some) && types[id].kind.StructKind? && j < |some.fields|
    requires CanBeSet(encoder, types, types[id].kind.fields[j])
    ensures HasType(types, id, v) && !v.fields[j].Absent?
    ensures var field := types[id].kind.fields[j];
      field.isBehindPointer || !IsBlank(encoder, types, field.valueType, v.fields[j])
  {
    hide IsBlank;
    var field := types[id].kind.fields[j];
    var part :| HasType(types, field.valueType, part) &&
      (field.isBehindPointer || !IsBlank(encoder, types, field.valueType, part));
    v := some.(fields := some.fields[j := part]);
    assert v.fields[j] == part;
  }

  lemma {:induction false} PartMisfitExists(
      encoder: Encoder, types: Types, id: nat, steps: nat, nullCounts: bool, zeroCounts: bool)
    returns (v: Value)
    requires WellFormed(types) && id in types && PartMisfits(encoder, types, id, steps, nullCounts, zeroCounts)
    ensures HasType(types, id, v) && !PartFits(encoder, types, id, v)
    ensures Counts(encoder, types, id, v, nullCounts, zeroCounts)
    ensures !nullCounts && !OwnOf(types[id]).Returns? ==> IsFull(encoder, types, id, v)
    decreases steps, 1
  {
    if OwnOf(types[id]).Returns? {
      v :| HasType(types, id, v) && !Accepts(OwnOf(types[id]).schema, Encode(encoder, types, id, v)) &&
        Counts(encoder, types, id, v, nullCounts, zeroCounts);
    } else {
      v := MisfitExists(encoder, types, id, steps, nullCounts, zeroCounts);
    }
    hide NilsFit;
  }

  lemma {:induction false} FieldMisfitExists(
      encoder: Encoder, types: Types, field: Field, steps: nat, zeroCounts: bool)
    returns (v: Value)
    requires WellFormed(types) && field.valueType in types && FieldMisfits(encoder, types, field, steps, zeroCounts)
    ensures HasType(types, field.valueType, v) && IsWritten(encoder, types, field, v)
    ensures !FieldFits(encoder, types, field, v) && (zeroCounts || !IsBlank(encoder, types, field.valueType, v))
    decreases steps, 2
  {
    hide NilsFit, Accepts, AllowsNull;
    if WritesRefusedNil(encoder, types, field) && zeroCounts {
      v := Nil;
    } else if DependsOnValue(types, field) {
      v :| HasType(types, field.valueType, v) &&
        IsWritten(encoder, types, field, v) && !FieldFits(encoder, types, field, v) &&
        (zeroCounts || !IsBlank(encoder, types, field.valueType, v));
    } else if !IsOptional(field) {
      v := PartMisfitExists(encoder, types, field.valueType, steps, true, zeroCounts);
    } else if types[field.valueType].kind.PointerKind? {
      var part := PartMisfitExists(encoder, types, types[field.valueType].kind.target, steps, true, true);
      v := Pointer(part);
    } else {
      v := PartMisfitExists(encoder, types, field.valueType, steps, false, zeroCounts && !field.omitsZero);
    }
  }

  // ----- From a value to its type -----

  lemma {:induction false} MisfitIsNotNull(encoder: Encoder, types: Types, id: nat, v: Value)
    requires WellFormed(types) && HasType(types, id, v) && !v.Nil? && !NilsFit(encoder, types, id, v)
    ensures !Encode(encoder, types, id, v).Null?
  {
  }

  /** What is found without null, or besides zero, is found all the more otherwise. */
  lemma {:induction false} MisfitCountsMore(
      encoder: Encoder, types: Types, id: nat, steps: nat, nullCounts: bool, zeroCounts: bool)
    requires WellFormed(types) && id in types && ReachesMisfit(encoder, types, id, steps, nullCounts, zeroCounts)
    ensures ReachesMisfit(encoder, types, id, steps, true, zeroCounts)
    ensures ReachesMisfit(encoder, types, id, steps, nullCounts, true)
    ensures ReachesMisfit(encoder, types, id, steps, true, true)
  {
    hide PartMisfits, FieldMisfits;
  }

  lemma {:induction false} PartCountsMore(
      encoder: Encoder, types: Types, id: nat, steps: nat, nullCounts: bool, zeroCounts: bool)
    requires WellFormed(types) && id in types && PartMisfits(encoder, types, id, steps, nullCounts, zeroCounts)
    ensures PartMisfits(encoder, types, id, steps, true, zeroCounts)
    ensures PartMisfits(encoder, types, id, steps, nullCounts, true)
    ensures PartMisfits(encoder, types, id, steps, true, true)
  {
    if !OwnOf(types[id]).Returns? {
      MisfitCountsMore(encoder, types, id, steps, nullCounts, zeroCounts);
    }
    hide ReachesMisfit;
  }

  lemma {:induction false} MisfitShows(encoder: Encoder, types: Types, id: nat, v: Value) returns (steps: nat)
    requires WellFormed(types) && HasType(types, id, v) && !NilsFit(encoder, types, id, v)
    ensures ReachesMisfit(
      encoder, types, id, steps, Encode(encoder, types, id, v).Null?, IsBlank(encoder, types, id, v))
    decreases v, 1
  {
    match types[id].kind
    case TextInterfaceKind => steps := 0;
    case PointerKind(target) =>
      var n := PartMisfitShows(encoder, types, target, v.target);
      steps := n + 1;
      PartCountsMore(encoder, types, target, n, false, IsBlank(encoder, types, target, v.target));
    case SliceKind(item) =>
      var n, _ := ItemMisfitShows(encoder, types, item, v);
      steps := n + 1;
    case ArrayKind(_, item) => steps := ArrayMisfitShows(encoder, types, id, v);
    case MapKind(_, element) =>
      var key :| key in v.entries && !PartFits(encoder, types, element, v.entries[key]);
      var n := AnyPartMisfitShows(encoder, types, element, v.entries[key]);
      steps := n + 1;
    case StructKind(fields) =>
      var n := StructMisfitShows(encoder, types, id, v);
      steps := n + 1;
  }

  lemma {:induction false} ArrayMisfitShows(encoder: Encoder, types: Types, id: nat, v: Value) returns (steps: nat)
    requires WellFormed(types) && HasType(types, id, v) && !NilsFit(encoder, types, id, v)
    requires types[id].kind.ArrayKind?
    ensures ReachesMisfit(encoder, types, id, steps, false, IsBlank(encoder, types, id, v))
    decreases v, 0, 1
  {
    hide PartMisfits, PartFits;
    var item := types[id].kind.item;
    var n, i := ItemMisfitShows(encoder, types, item, v);
    steps := n + 1;
    if !IsBlank(encoder, types, id, v) {
      var j :| 0 <= j < |v.items| && !IsBlank(encoder, types, item, v.items[j]);
      assert HasUnblank(encoder, types, item);
      assert j == i || |v.items| > 1;
    }
  }

  lemma {:induction false} ItemMisfitShows(encoder: Encoder, types: Types, item: nat, v: Value)
    returns (steps: nat, i: nat)
    requires WellFormed(types) && v.Items? && forall i | 0 <= i < |v.items| :: HasType(types, item, v.items[i])
    requires exists i :: 0 <= i < |v.items| && !PartFits(encoder, types, item, v.items[i])
    ensures item in types && i < |v.items| && PartMisfits(encoder, types, item, steps, true, true)
    ensures PartMisfits(encoder, types, item, steps, true, IsBlank(encoder, types, item, v.items[i]))
    decreases v, 0, 0
  {
    i :| 0 <= i < |v.items| && !PartFits(encoder, types, item, v.items[i]);
    steps := AnyPartMisfitShows(encoder, types, item, v.items[i]);
  }

  lemma {:induction false} StructMisfitShows(encoder: Encoder, types: Types, id: nat, v: Value) returns (steps: nat)
    requires WellFormed(types) && HasType(types, id, v) && !NilsFit(encoder, types, id, v) && types[id].kind.StructKind?
    ensures SomeFieldMisfits(encoder, types, id, steps, IsBlank(encoder, types, id, v))
    decreases v, 0
  {
    var fields := types[id].kind.fields;
    var i :| 0 <= i < |fields| && IsWritten(encoder, types, fields[i], v.fields[i]) &&
      !FieldFits(encoder, types, fields[i], v.fields[i]);
    hide NilsFit, FieldFits, IsWritten, FieldMisfits;
    steps := FieldMisfitShows(encoder, types, fields[i], v.fields[i]);
    if !IsBlank(encoder, types, id, v) && IsBlank(encoder, types, fields[i].valueType, v.fields[i]) {
      IsSetSomewhere(encoder, types, id, v, i);
    }
  }

  lemma {:induction false} IsSetSomewhere(encoder: Encoder, types: Types, id: nat, v: Value, i: nat)
    requires WellFormed(types) && HasType(types, id, v) && types[id].kind.StructKind? && i < |v.fields|
    requires !IsBlank(encoder, types, id, v)
    requires HasType(types, types[id].kind.fields[i].valueType, v.fields[i])
    requires IsBlank(encoder, types, types[id].kind.fields[i].valueType, v.fields[i])
    ensures CanBeSetBeside(encoder, types, id, i)
  {
    var fields := types[id].kind.fields;
    if !v.isMore && !fields[i].isBehindPointer {
      var j :| 0 <= j < |fields| && !v.fields[j].Absent? &&
        (fields[j].isBehindPointer || !IsBlank(encoder, types, fields[j].valueType, v.fields[j]));
      assert CanBeSet(encoder, types, fields[j]);
    }
  }

  lemma {:induction false} PartMisfitShows(encoder: Encoder, types: Types, id: nat, v: Value) returns (steps: nat)
    requires WellFormed(types) && HasType(types, id, v) && !PartFits(encoder, types, id, v)
    ensures PartMisfits(
      encoder, types, id, steps, Encode(encoder, types, id, v).Null?, IsBlank(encoder, types, id, v))
    decreases v, 2
  {
    steps := 0;
    if !OwnOf(types[id]).Returns? {
      steps := MisfitShows(encoder, types, id, v);
    }
    hide NilsFit;
  }

  lemma {:induction false} AnyPartMisfitShows(encoder: Encoder, types: Types, id: nat, v: Value) returns (steps: nat)
    requires WellFormed(types) && HasType(types, id, v) && !PartFits(encoder, types, id, v)
    ensures PartMisfits(encoder, types, id, steps, true, IsBlank(encoder, types, id, v))
    ensures PartMisfits(encoder, types, id, steps, true, true)
    decreases v, 3
  {
    hide PartFits, Encode, PartMisfits;
    steps := PartMisfitShows(encoder, types, id, v);
    PartCountsMore(
      encoder, types, id, steps, Encode(encoder, types, id, v).Null?, IsBlank(encoder, types, id, v));
  }

  lemma {:induction false} FieldMisfitShows(encoder: Encoder, types: Types, field: Field, v: Value) returns (steps: nat)
    requires WellFormed(types) && HasType(types, field.valueType, v) && IsWritten(encoder, types, field, v)
    requires !FieldFits(encoder, types, field, v)
    ensures FieldMisfits(encoder, types, field, steps, IsBlank(encoder, types, field.valueType, v))
    ensures FieldMisfits(encoder, types, field, steps, true)
    decreases v, 4
  {
    hide Accepts, AllowsNull, NilsFit;
    steps := 0;
    if (v.Nil? && IsOptional(field)) || DependsOnValue(types, field) {
    } else if !IsOptional(field) {
      steps := AnyPartMisfitShows(encoder, types, field.valueType, v);
    } else if types[field.valueType].kind.PointerKind? {
      steps := AnyPartMisfitShows(encoder, types, types[field.valueType].kind.target, v.target);
    } else {
      assert !PresentFits(encoder, types, field.valueType, v);
      assert !PartFits(encoder, types, field.valueType, v);
      MisfitIsNotNull(encoder, types, field.valueType, v);
      steps := PartMisfitShows(encoder, types, field.valueType, v);
      PartCountsMore(
        encoder, types, field.valueType, steps, false, IsBlank(encoder, types, field.valueType, v));
    }
  }

  // ----- Exactly -----

  ghost predicate HasMisfit(encoder: Encoder, types: Types, id: nat)
    requires WellFormed(types) && id in types
  {
    exists steps: nat :: ReachesMisfit(encoder, types, id, steps, true, true)
  }

  ghost predicate AcceptsAllOf(schema: Schema, encoder: Encoder, types: Types, id: nat)
    requires WellFormed(types)
  {
    forall v | HasType(types, id, v) :: Accepts(schema, Encode(encoder, types, id, v))
  }

  /** The derived schema accepts what is written for a value exactly if nothing is written
      that it does not allow for, and for every value of the type exactly if the type
      leads to nothing of the kind. */
  lemma {:induction false} DerivedSchemaIsSoundExactly(encoder: Encoder, types: Types, id: nat)
    requires WellFormed(types) && id in types && DeriveSchema(types, id).Some?
    ensures forall v | HasType(types, id, v) ::
      Accepts(DeriveSchema(types, id).value, Encode(encoder, types, id, v)) <==> NilsFit(encoder, types, id, v)
    ensures AcceptsAllOf(DeriveSchema(types, id).value, encoder, types, id) <==> !HasMisfit(encoder, types, id)
  {
    hide Accepts, Encode, NilsFit, ReachesMisfit;
    forall v | HasType(types, id, v)
      ensures Accepts(DeriveSchema(types, id).value, Encode(encoder, types, id, v)) <==> NilsFit(encoder, types, id, v)
      ensures !NilsFit(encoder, types, id, v) ==> HasMisfit(encoder, types, id)
    {
      DerivedExactly(encoder, types, id, {}, v);
      if !NilsFit(encoder, types, id, v) {
        var steps := MisfitShows(encoder, types, id, v);
        MisfitCountsMore(
          encoder, types, id, steps, Encode(encoder, types, id, v).Null?, IsBlank(encoder, types, id, v));
        assert ReachesMisfit(encoder, types, id, steps, true, true);
      }
    }
    if HasMisfit(encoder, types, id) {
      var steps: nat :| ReachesMisfit(encoder, types, id, steps, true, true);
      var v := MisfitExists(encoder, types, id, steps, true, true);
    }
  }

  // ----- Where it fails -----

  /** A nil that is written in a field of a struct that does not allow null makes the
      schema refuse the value. */
  lemma {:induction false} WrittenNilIsRefused(encoder: Encoder, types: Types, id: nat, v: Value, i: nat)
    requires WellFormed(types) && id in types && DeriveSchema(types, id).Some?
    requires types[id].kind.StructKind? && HasType(types, id, v) && i < |v.fields| && v.fields[i].Nil?
    requires WritesRefusedNil(encoder, types, types[id].kind.fields[i])
    ensures !Accepts(DeriveSchema(types, id).value, Encode(encoder, types, id, v))
  {
    hide Accepts, Encode, AllowsNull, IsWritten;
    DerivedExactly(encoder, types, id, {}, v);
    assert !FieldFits(encoder, types, types[id].kind.fields[i], v.fields[i]);
  }

  /** A struct with one field, of an embedded pointer or with omitzero, which is a
      quoted pointer to an integer, or a list of strings. */
  function OneField(isBehindPointer: bool, omitsZero: bool, isQuoted: bool): Types {
    map[
      0 := TypeInfo(
        StructKind([Field("field", 1, isBehindPointer, false, omitsZero, isQuoted)]), NoFunction, false, true, false),
      1 := TypeInfo(if isQuoted then PointerKind(2) else SliceKind(2), NoFunction, false, true, false),
      2 := TypeInfo(if isQuoted then IntKind else StringKind, NoFunction, false, true, false)]
  }

  lemma {:induction false} ListIsDescribed(types: Types, id: nat, item: nat, inProgress: set<nat>)
    requires WellFormed(types) && id in types && item in types && id !in inProgress && item !in inProgress && id != item
    requires types[id] == TypeInfo(SliceKind(item), NoFunction, false, true, false)
    requires types[item] == TypeInfo(StringKind, NoFunction, false, true, false)
    ensures DescribePresent(types, id, inProgress).Some?
  {
    assert Derive(types, item, inProgress + {id}) == Some(OfKind("string"));
    assert Describe(types, item, inProgress + {id}).Some?;
    assert Derive(types, id, inProgress).Some?;
    assert Describe(types, id, inProgress).Some?;
    hide Derive, Describe;
  }

  lemma {:induction false} OneFieldIsKnown(isBehindPointer: bool, omitsZero: bool, isQuoted: bool)
    ensures var types := OneField(isBehindPointer, omitsZero, isQuoted);
      && WellFormed(types) && HasType(types, 1, Nil) && HasType(types, 0, Struct([Nil], false))
      && (isQuoted ==> IsQuotable(types, 1))
  {
    hide HasType, WellFormed, IsQuotable;
    var types := OneField(isBehindPointer, omitsZero, isQuoted);
    OneFieldIsWellFormed(isBehindPointer, omitsZero, isQuoted);
    OneNilHasType(types, 0, 1);
  }

  lemma {:induction false} OneNilHasType(types: Types, id: nat, part: nat)
    requires id in types && types[id].kind.StructKind? && |types[id].kind.fields| == 1
    requires types[id].kind.fields[0].valueType == part
    requires part in types && (types[part].kind.PointerKind? || types[part].kind.SliceKind?)
    ensures HasType(types, part, Nil) && HasType(types, id, Struct([Nil], false))
  {
  }

  lemma {:induction false} OneFieldIsWellFormed(isBehindPointer: bool, omitsZero: bool, isQuoted: bool)
    ensures var types := OneField(isBehindPointer, omitsZero, isQuoted);
      WellFormed(types) && (isQuoted ==> IsQuotable(types, 1))
  {
    var types := OneField(isBehindPointer, omitsZero, isQuoted);
    assert AreFields(types, types[0].kind.fields);
  }

  lemma {:induction false} OneFieldIsDerived(isBehindPointer: bool, omitsZero: bool, isQuoted: bool)
    requires isBehindPointer || omitsZero
    ensures var types := OneField(isBehindPointer, omitsZero, isQuoted);
      && WellFormed(types) && DeriveSchema(types, 0).Some? && !AllowsNull(types, types[0].kind.fields[0])
  {
    OneFieldIsKnown(isBehindPointer, omitsZero, isQuoted);
    var types := OneField(isBehindPointer, omitsZero, isQuoted);
    var fields := types[0].kind.fields;
    assert types[1].kind.PointerKind? || types[1].kind.SliceKind?;
    if !isQuoted {
      ListIsDescribed(types, 1, 2, {} + {0});
    }
    hide HasType, WellFormed, DescribePresent, Describe;
    assert DescribeField(types, fields[0], {} + {0}).Some?;
    hide DescribeField;
    FieldsNeedEveryField(types, fields, 1, {} + {0});
    hide DeriveFields;
  }

  /** Its nil is written, and refused, in a field of an embedded pointer that is not nil
      itself, and also without any embedded pointer, for omitzero on a list whose own
      IsZero says that nil is not zero. */
  lemma {:induction false} OneFieldIsRefusedExactly(
      encoder: Encoder, isBehindPointer: bool, omitsZero: bool, isQuoted: bool)
    requires isBehindPointer || omitsZero
    ensures var types := OneField(isBehindPointer, omitsZero, isQuoted);
      && WellFormed(types) && HasType(types, 0, Struct([Nil], false)) && DeriveSchema(types, 0).Some?
      && (Accepts(DeriveSchema(types, 0).value, Encode(encoder, types, 0, Struct([Nil], false))) <==>
            omitsZero && (isQuoted || encoder.isZero(1, Nil)))
  {
    hide Accepts, Derive, AllowsNull, WellFormed, HasType, Encode, NilsFit;
    var types := OneField(isBehindPointer, omitsZero, isQuoted);
    OneFieldIsKnown(isBehindPointer, omitsZero, isQuoted);
    OneFieldIsDerived(isBehindPointer, omitsZero, isQuoted);
    DerivedExactly(encoder, types, 0, {}, Struct([Nil], false));
    OneNilFits(encoder, types, 0);
  }

  lemma {:induction false} OneNilFits(encoder: Encoder, types: Types, id: nat)
    requires WellFormed(types) && HasType(types, id, Struct([Nil], false)) && types[id].kind.StructKind?
    requires HasType(types, types[id].kind.fields[0].valueType, Nil)
    requires IsOptional(types[id].kind.fields[0]) && !AllowsNull(types, types[id].kind.fields[0])
    ensures NilsFit(encoder, types, id, Struct([Nil], false)) <==>
      !IsWritten(encoder, types, types[id].kind.fields[0], Nil)
  {
    hide AllowsNull, IsWritten;
    var v := Struct([Nil], false);
    assert types[id].kind.fields[0].valueType in types;
    assert FieldFits(encoder, types, types[id].kind.fields[0], v.fields[0]) == false;
  }

  /** A struct with a field of an interface that declares to write itself as text. */
  const TEXT_FIELD: Types := map[
    0 := TypeInfo(StructKind([Field("text", 1, false, false, false, false)]), NoFunction, false, false, false),
    1 := TypeInfo(TextInterfaceKind, NoFunction, false, false, false)]

  /** Its nil is written as null, although the field is not optional, and refused. */
  lemma {:induction false} NilTextIsRefused(encoder: Encoder)
    ensures WellFormed(TEXT_FIELD) && HasType(TEXT_FIELD, 0, Struct([Nil], false)) && DeriveSchema(TEXT_FIELD, 0).Some?
    ensures !Accepts(DeriveSchema(TEXT_FIELD, 0).value, Encode(encoder, TEXT_FIELD, 0, Struct([Nil], false)))
  {
    var types, v := TEXT_FIELD, Struct([Nil], false);
    TextFieldIsDerived();
    hide Accepts, Derive, WellFormed, HasType;
    DerivedExactly(encoder, types, 0, {}, v);
    hide Encode, DeriveSchema;
    assert IsWritten(encoder, types, types[0].kind.fields[0], v.fields[0]);
    assert !PartFits(encoder, types, 1, Nil);
    assert !FieldFits(encoder, types, types[0].kind.fields[0], v.fields[0]);
  }

  lemma {:induction false} TextFieldIsDerived()
    ensures WellFormed(TEXT_FIELD) && HasType(TEXT_FIELD, 1, Nil) && HasType(TEXT_FIELD, 0, Struct([Nil], false))
    ensures DeriveSchema(TEXT_FIELD, 0).Some?
  {
    var types, fields := TEXT_FIELD, TEXT_FIELD[0].kind.fields;
    assert HasType(types, 1, Nil);
    assert Describe(types, 1, {} + {0}) == Some(OfKind("string"));
    hide Derive, HasType;
    assert DescribeField(types, fields[0], {} + {0}).Some?;
    FieldsNeedEveryField(types, fields, 1, {} + {0});
    TextFieldIsStruct();
  }

  lemma {:induction false} TextFieldIsStruct()
    requires WellFormed(TEXT_FIELD)
    ensures DeriveSchema(TEXT_FIELD, 0) ==
      Map(DeriveFields(TEXT_FIELD, TEXT_FIELD[0].kind.fields, 1, {} + {0}),
          (d: (map<string, Schema>, seq<string>)) => ObjectSchema(d.0, d.1))
  {
    hide DeriveFields;
  }
}
