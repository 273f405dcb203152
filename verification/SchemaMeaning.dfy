/**
 What it means for a value to satisfy a schema, and what bending does to it, said of
 the schema's own keywords.
 */
module SchemaMeaning {
  import Fuzzy
  import FuzzyMeaning

  import opened ToolValidation
  import opened Wrappers

  const KNOWN_TYPES: set<string> := {"object", "array", "string", "number", "integer", "boolean", "null"}

  predicate HasType(lib: Library, v: Value, t: string) {
    match v
    case Null => t == "null"
    case Bool(_) => t == "boolean"
    case Number(numeral) => (t == "number" && lib.float(numeral).Some?) || (t == "integer" && lib.int64(numeral))
    case String(_) => t == "string"
    case Array(_) => t == "array"
    case Object(_) => t == "object"
  }

  /** A schema names no type, a single one nobody knows, or one the value has. */
  predicate TypeAllowed(lib: Library, v: Value, types: seq<string>) {
    types == [] || (|types| == 1 && types[0] !in KNOWN_TYPES) || exists i :: 0 <= i < |types| && HasType(lib, v, types[i])
  }

  predicate Listed(types: seq<string>, t: string) {
    exists i :: 0 <= i < |types| && types[i] == t
  }

  /** The value satisfies the schema. What is inside an object or an array counts only where the schema names that type. */
  ghost predicate Accepts(lib: Library, s: Schema, v: Value)
    decreases s, 1
  {
    && (forall i :: 0 <= i < |s.allOf| ==> Accepts(lib, s.allOf[i], v))
    && AlternativesAccepted(lib, s, v)
    && TypeAllowed(lib, v, s.types)
    && (v.Object? && Listed(s.types, "object") ==> FieldsAccepted(lib, s, v))
    && (v.Array? && Listed(s.types, "array") ==> ElementsAccepted(lib, s, v))
    && lib.holds(s.limits, v)
  }

  /** At least one of `anyOf`, exactly one of `oneOf`, and not what is forbidden. */
  ghost predicate AlternativesAccepted(lib: Library, s: Schema, v: Value)
    decreases s, 0
  {
    && (s.anyOf == [] || exists i :: 0 <= i < |s.anyOf| && Accepts(lib, s.anyOf[i], v))
    && (s.oneOf == [] ||
        exists i :: 0 <= i < |s.oneOf| && Accepts(lib, s.oneOf[i], v)
                    && (forall j :: 0 <= j < |s.oneOf| && j != i ==> !Accepts(lib, s.oneOf[j], v)))
    && (match s.forbidden case None => true case Some(f) => !Accepts(lib, f, v))
  }

  /** All required fields are there; a named field satisfies its schema; another one may be anything, may not be, or satisfies
      the schema for all others. */
  ghost predicate FieldsAccepted(lib: Library, s: Schema, v: Value)
    requires v.Object?
    decreases s, 0
  {
    && (forall i :: 0 <= i < |s.required| ==> s.required[i] in v.fields)
    && (forall k :: k in v.fields && k in s.properties ==> Accepts(lib, s.properties[k], v.fields[k]))
    && (match s.additional
        case Anything => true
        case Nothing => forall k :: k in v.fields ==> k in s.properties
        case Matching(other) => forall k :: k in v.fields && k !in s.properties ==> Accepts(lib, other, v.fields[k]))
  }

  /** Every element satisfies the one item schema, or each of the first elements the schema in its place. */
  ghost predicate ElementsAccepted(lib: Library, s: Schema, v: Value)
    requires v.Array?
    decreases s, 0
  {
    match s.items
    case NoItems => true
    case Each(item) => forall i :: 0 <= i < |v.elements| ==> Accepts(lib, item, v.elements[i])
    case Tuple(items) => forall i :: 0 <= i < |v.elements| && i < |items| ==> Accepts(lib, items[i], v.elements[i])
  }

  // ---------------------------------------------------------------- types

  lemma TypesAre(lib: Library, v: Value, t: string)
    ensures MatchesType(lib, v, t) <==> HasType(lib, v, t)
  {
  }

  lemma ChosenIs(lib: Library, v: Value, types: seq<string>)
    ensures ChosenType(lib, v, types).Some? &&
              (ChosenType(lib, v, types).value in KNOWN_TYPES ==> HasType(lib, v, ChosenType(lib, v, types).value)) <==>
            TypeAllowed(lib, v, types)
    ensures ChosenType(lib, v, types).Some? && HasType(lib, v, ChosenType(lib, v, types).value) ==>
              && (ChosenType(lib, v, types).value == "object" <==> v.Object? && Listed(types, "object"))
              && (ChosenType(lib, v, types).value == "array" <==> v.Array? && Listed(types, "array"))
    ensures ChosenType(lib, v, types).Some? && ChosenType(lib, v, types).value !in KNOWN_TYPES ==>
              !Listed(types, "object") && !Listed(types, "array")
  {
    hide MatchesType, FirstMatch;
    forall t ensures MatchesType(lib, v, t) <==> HasType(lib, v, t) { TypesAre(lib, v, t); }
  }

  // ---------------------------------------------------------------- the whole schema

  /** On every schema in this one, and every value in that one, the two readings agree. */
  ghost predicate AgreeBelow(lib: Library, s: Schema, v: Value) {
    && (forall i :: 0 <= i < |s.allOf| ==> (Valid(lib, s.allOf[i], v) <==> Accepts(lib, s.allOf[i], v)))
    && (forall i :: 0 <= i < |s.anyOf| ==> (Valid(lib, s.anyOf[i], v) <==> Accepts(lib, s.anyOf[i], v)))
    && (forall i :: 0 <= i < |s.oneOf| ==> (Valid(lib, s.oneOf[i], v) <==> Accepts(lib, s.oneOf[i], v)))
    && (s.forbidden.Some? ==> (Valid(lib, s.forbidden.value, v) <==> Accepts(lib, s.forbidden.value, v)))
    && (v.Object? ==> AgreeOnFields(lib, s, v))
    && (v.Array? ==> AgreeOnElements(lib, s, v))
  }

  ghost predicate AgreeOnFields(lib: Library, s: Schema, v: Value)
    requires v.Object?
  {
    && (forall k :: k in v.fields && k in s.properties ==> (Valid(lib, s.properties[k], v.fields[k]) <==> Accepts(lib, s.properties[k], v.fields[k])))
    && (s.additional.Matching? ==>
          forall k :: k in v.fields ==> (Valid(lib, s.additional.schema, v.fields[k]) <==> Accepts(lib, s.additional.schema, v.fields[k])))
  }

  ghost predicate AgreeOnElements(lib: Library, s: Schema, v: Value)
    requires v.Array?
  {
    && (s.items.Each? ==>
          forall i :: 0 <= i < |v.elements| ==> (Valid(lib, s.items.schema, v.elements[i]) <==> Accepts(lib, s.items.schema, v.elements[i])))
    && (s.items.Tuple? ==>
          forall i :: 0 <= i < |v.elements| && i < |s.items.schemas| ==>
            (Valid(lib, s.items.schemas[i], v.elements[i]) <==> Accepts(lib, s.items.schemas[i], v.elements[i])))
  }

  lemma AcceptsUnfolds(lib: Library, s: Schema, v: Value)
    ensures Accepts(lib, s, v) <==>
      && (forall i :: 0 <= i < |s.allOf| ==> Accepts(lib, s.allOf[i], v))
      && AlternativesAccepted(lib, s, v)
      && TypeAllowed(lib, v, s.types)
      && (v.Object? && Listed(s.types, "object") ==> FieldsAccepted(lib, s, v))
      && (v.Array? && Listed(s.types, "array") ==> ElementsAccepted(lib, s, v))
      && lib.holds(s.limits, v)
  {
    hide TypeAllowed, Listed, AlternativesAccepted, FieldsAccepted, ElementsAccepted;
  }

  lemma FieldsAgree(lib: Library, s: Schema, v: Value)
    requires v.Object? && AgreeOnFields(lib, s, v)
    ensures ObjectHolds(lib, s, v) <==> FieldsAccepted(lib, s, v)
  {
    hide Valid, Accepts;
    if ObjectHolds(lib, s, v) {
      forall k | k in v.fields
        ensures k in s.properties ==> Accepts(lib, s.properties[k], v.fields[k])
        ensures k !in s.properties && s.additional.Matching? ==> Accepts(lib, s.additional.schema, v.fields[k])
        ensures s.additional.Nothing? ==> k in s.properties
      {
        assert FieldHolds(lib, s, v, k);
      }
    }
  }

  lemma ElementsAgree(lib: Library, s: Schema, v: Value)
    requires v.Array? && AgreeOnElements(lib, s, v)
    ensures ArrayHolds(lib, s, v) <==> ElementsAccepted(lib, s, v)
  {
    hide Valid, Accepts;
  }

  lemma AlternativesAgree(lib: Library, s: Schema, v: Value)
    requires AgreeBelow(lib, s, v)
    ensures AlternativesHold(lib, s, v) <==> AlternativesAccepted(lib, s, v)
  {
    hide Valid, Accepts, AgreeOnFields, AgreeOnElements;
  }

  lemma TypesAgree(lib: Library, s: Schema, v: Value)
    requires AgreeBelow(lib, s, v)
    ensures TypeHolds(lib, s, v) <==>
      && TypeAllowed(lib, v, s.types)
      && (v.Object? && Listed(s.types, "object") ==> FieldsAccepted(lib, s, v))
      && (v.Array? && Listed(s.types, "array") ==> ElementsAccepted(lib, s, v))
  {
    hide Valid, Accepts, AgreeOnFields, AgreeOnElements, ObjectHolds, ArrayHolds, FieldsAccepted, ElementsAccepted, MatchesType,
         TypeAllowed, Listed, ChosenType;
    ChosenIs(lib, v, s.types);
    if v.Object? { FieldsAgree(lib, s, v); }
    if v.Array? { ElementsAgree(lib, s, v); }
    forall t ensures MatchesType(lib, v, t) <==> HasType(lib, v, t) { TypesAre(lib, v, t); }
  }

  /** The check accepts exactly the values that satisfy the schema. */
  lemma {:induction false} AcceptsIff(lib: Library, s: Schema, v: Value)
    ensures Valid(lib, s, v) <==> Accepts(lib, s, v)
    decreases s
  {
    hide Valid, Accepts, TypeHolds, AlternativesHold, AlternativesAccepted, TypeAllowed, Listed, FieldsAccepted, ElementsAccepted;
    assert AgreeBelow(lib, s, v) by {
      forall i | 0 <= i < |s.allOf| ensures Valid(lib, s.allOf[i], v) <==> Accepts(lib, s.allOf[i], v) { AcceptsIff(lib, s.allOf[i], v); }
      forall i | 0 <= i < |s.anyOf| ensures Valid(lib, s.anyOf[i], v) <==> Accepts(lib, s.anyOf[i], v) { AcceptsIff(lib, s.anyOf[i], v); }
      forall i | 0 <= i < |s.oneOf| ensures Valid(lib, s.oneOf[i], v) <==> Accepts(lib, s.oneOf[i], v) { AcceptsIff(lib, s.oneOf[i], v); }
      if s.forbidden.Some? { AcceptsIff(lib, s.forbidden.value, v); }
      if v.Object? {
        forall k | k in v.fields && k in s.properties
          ensures Valid(lib, s.properties[k], v.fields[k]) <==> Accepts(lib, s.properties[k], v.fields[k])
        {
          AcceptsIff(lib, s.properties[k], v.fields[k]);
        }
        if s.additional.Matching? {
          forall k | k in v.fields
            ensures Valid(lib, s.additional.schema, v.fields[k]) <==> Accepts(lib, s.additional.schema, v.fields[k])
          {
            AcceptsIff(lib, s.additional.schema, v.fields[k]);
          }
        }
      }
      if v.Array? {
        if s.items.Each? {
          forall i | 0 <= i < |v.elements|
            ensures Valid(lib, s.items.schema, v.elements[i]) <==> Accepts(lib, s.items.schema, v.elements[i])
          {
            AcceptsIff(lib, s.items.schema, v.elements[i]);
          }
        }
        if s.items.Tuple? {
          forall i | 0 <= i < |v.elements| && i < |s.items.schemas|
            ensures Valid(lib, s.items.schemas[i], v.elements[i]) <==> Accepts(lib, s.items.schemas[i], v.elements[i])
          {
            AcceptsIff(lib, s.items.schemas[i], v.elements[i]);
          }
        }
      }
    }
    ValidIsParts(lib, s, v);
    AcceptsUnfolds(lib, s, v);
    AlternativesAgree(lib, s, v);
    TypesAgree(lib, s, v);
  }

  // ---------------------------------------------------------------- bending one value

  predicate ReadsAs(lib: Library, numeral: string, r: real) {
    lib.float(numeral) == Some(Finite(r))
  }

  /** An integer, or infinite. */
  ghost predicate Integral(f: Float) {
    f.Infinite? || (f.Finite? && exists n: int :: Scaled(n) == f.value)
  }

  function Scaled(n: int): real {
    n as real
  }

  lemma WholeIff(f: Float)
    ensures Whole(f) <==> Integral(f)
  {
    if f.Finite? {
      if Whole(f) {
        assert Scaled(f.value.Floor) == f.value;
      }
      if n: int :| Scaled(n) == f.value {
        assert f.value.Floor == n;
      }
    }
  }

  /** Which values bend to which type at all. */
  ghost predicate Bends(lib: Library, v: Value, t: string) {
    match v
    case Null => t in {"number", "integer", "boolean", "string"}
    case Bool(flag) => t in {"number", "integer", "string"} || (t == "null" && !flag)
    case Number(numeral) =>
      || t == "string"
      || (t == "boolean" && (ReadsAs(lib, numeral, 0.0) || ReadsAs(lib, numeral, 1.0)))
      || (t == "null" && ReadsAs(lib, numeral, 0.0))
    case String(text) =>
      || (t == "number" && FuzzyMeaning.HasText(text) && lib.float(text).Some? && lib.float(text).value.Finite?)
      || (t == "integer" && FuzzyMeaning.HasText(text) && lib.float(text).Some? && Integral(lib.float(text).value))
      || (t == "boolean" && text in {"true", "false"})
      || (t == "null" && text == "")
    case Array(_) => false
    case Object(_) => false
  }

  lemma BendsIff(lib: Library, v: Value, t: string)
    ensures CoercePrimitive(lib, v, t).Some? <==> Bends(lib, v, t)
  {
    hide Fuzzy.Blank, FuzzyMeaning.HasText, Whole, Integral;
    if v.String? {
      FuzzyMeaning.BlankIff(v.text);
      if lib.float(v.text).Some? {
        WholeIff(lib.float(v.text).value);
      }
    }
  }

  /** Truth values bend to numbers and texts and back, null bends to what stands for nothing and back, and what bends from a
      text to a number reads as the text did. */
  lemma BendingKeepsMeaning(lib: Library, flag: bool, text: string)
    requires Lawful(lib)
    ensures forall t :: t in {"number", "integer", "string"} ==>
              exists w :: CoercePrimitive(lib, Bool(flag), t) == Some(w) && CoercePrimitive(lib, w, "boolean") == Some(Bool(flag))
    ensures forall t :: t in {"number", "integer", "string", "boolean"} ==>
              exists w :: CoercePrimitive(lib, Null, t) == Some(w) && CoercePrimitive(lib, w, "null") == Some(Null)
    ensures CoercePrimitive(lib, Number(text), "string") == Some(String(text))
    ensures FuzzyMeaning.HasText(text) && lib.float(text).Some? && lib.float(text).value.Finite? ==>
              CoercePrimitive(lib, String(text), "number") == Some(Number(text))
    ensures FuzzyMeaning.HasText(text) && lib.float(text).Some? && Integral(lib.float(text).value) ==>
              exists n :: CoercePrimitive(lib, String(text), "integer") == Some(Number(n)) && lib.float(n) == lib.float(text)
  {
    hide Fuzzy.Blank, FuzzyMeaning.HasText, Whole, Integral;
    FuzzyMeaning.BlankIff(text);
    if lib.float(text).Some? {
      WholeIff(lib.float(text).value);
    }
    TruthBendsBack(lib, flag, "number");
    TruthBendsBack(lib, flag, "integer");
    TruthBendsBack(lib, flag, "string");
    NullBendsBack(lib, "number");
    NullBendsBack(lib, "integer");
    NullBendsBack(lib, "string");
    NullBendsBack(lib, "boolean");
  }

  lemma TruthBendsBack(lib: Library, flag: bool, t: string)
    requires Lawful(lib) && t in {"number", "integer", "string"}
    ensures exists w :: CoercePrimitive(lib, Bool(flag), t) == Some(w) && CoercePrimitive(lib, w, "boolean") == Some(Bool(flag))
  {
    var w := CoercePrimitive(lib, Bool(flag), t).value;
    if t == "string" {
      assert w == String(if flag then "true" else "false");
      assert "true"[0] != "false"[0];
    } else {
      assert w == Number(if flag then "1" else "0");
    }
    assert CoercePrimitive(lib, w, "boolean") == Some(Bool(flag));
  }

  lemma NullBendsBack(lib: Library, t: string)
    requires Lawful(lib) && t in {"number", "integer", "string", "boolean"}
    ensures exists w :: CoercePrimitive(lib, Null, t) == Some(w) && CoercePrimitive(lib, w, "null") == Some(Null)
  {
    var w := CoercePrimitive(lib, Null, t).value;
    assert CoercePrimitive(lib, w, "null") == Some(Null);
  }

  // ---------------------------------------------------------------- bending along a schema

  /** The first type of the list the value bends to decides what it becomes. */
  lemma {:induction false} FirstTypeDecides(lib: Library, v: Value, types: seq<string>, i: nat)
    requires i <= |types|
    ensures (forall j :: i <= j < |types| ==> !Bends(lib, v, types[j])) ==> FirstChange(lib, v, types, i) == v
    ensures forall k :: i <= k < |types| && Bends(lib, v, types[k]) && (forall j :: i <= j < k ==> !Bends(lib, v, types[j])) ==>
              CoercePrimitive(lib, v, types[k]) == Some(FirstChange(lib, v, types, i))
    decreases |types| - i
  {
    hide CoercePrimitive, Bends;
    if i < |types| {
      BendsIff(lib, v, types[i]);
      FirstTypeDecides(lib, v, types, i + 1);
    }
  }

  /** A value that has one of several types stays; any other becomes what the first type it bends to makes of it. */
  lemma BentIs(lib: Library, v: Value, types: seq<string>)
    ensures |types| > 1 && (exists i :: 0 <= i < |types| && HasType(lib, v, types[i])) ==> Bent(lib, v, types) == v
    ensures !(|types| > 1 && exists i :: 0 <= i < |types| && HasType(lib, v, types[i])) ==>
              Bent(lib, v, types) == FirstChange(lib, v, types, 0)
  {
    hide MatchesType, HasType, FirstChange;
    forall i | 0 <= i < |types| ensures MatchesType(lib, v, types[i]) <==> HasType(lib, v, types[i]) {
      TypesAre(lib, v, types[i]);
    }
  }

  /** Where the schema names the type, each field is bent by its own schema or by the one for all others, and each element by
      the item schema or the one in its place; all else stays. */
  lemma InsideIs(lib: Library, v: Value, s: Schema)
    ensures v.Object? && Listed(s.types, "object") ==>
      var w := Inside(lib, v, s);
      && w.Object? && w.fields.Keys == v.fields.Keys
      && forall k :: k in v.fields ==>
           w.fields[k] == if k in s.properties then Coerce(lib, v.fields[k], s.properties[k])
                          else if s.additional.Matching? then Coerce(lib, v.fields[k], s.additional.schema)
                          else v.fields[k]
    ensures v.Array? && Listed(s.types, "array") ==>
      var w := Inside(lib, v, s);
      && w.Array? && |w.elements| == |v.elements|
      && forall i :: 0 <= i < |v.elements| ==>
           w.elements[i] == if s.items.Each? then Coerce(lib, v.elements[i], s.items.schema)
                            else if s.items.Tuple? && i < |s.items.schemas| then Coerce(lib, v.elements[i], s.items.schemas[i])
                            else v.elements[i]
    ensures !(v.Object? && Listed(s.types, "object")) && !(v.Array? && Listed(s.types, "array")) ==> Inside(lib, v, s) == v
  {
    hide Coerce;
  }

  /** The first alternative the value satisfies once bent to it is the one taken. */
  lemma {:induction false} FirstAlternativeDecides(lib: Library, v: Value, s: Schema, alternatives: seq<Schema>, i: nat)
    requires i <= |alternatives| && (alternatives == s.anyOf || alternatives == s.oneOf)
    ensures (forall j :: i <= j < |alternatives| ==> !Accepts(lib, alternatives[j], Coerce(lib, v, alternatives[j]))) ==>
              FirstAlternative(lib, v, s, alternatives, i) == v
    ensures forall k :: i <= k < |alternatives| && Accepts(lib, alternatives[k], Coerce(lib, v, alternatives[k]))
                        && (forall j :: i <= j < k ==> !Accepts(lib, alternatives[j], Coerce(lib, v, alternatives[j]))) ==>
              FirstAlternative(lib, v, s, alternatives, i) == Coerce(lib, v, alternatives[k])
    decreases |alternatives| - i
  {
    hide Coerce, Valid, Accepts;
    if i < |alternatives| {
      AcceptsIff(lib, alternatives[i], Coerce(lib, v, alternatives[i]));
      FirstAlternativeDecides(lib, v, s, alternatives, i + 1);
    }
  }
}
