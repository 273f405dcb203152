/** When bending leaves arguments that are already valid alone, and when bending them again changes nothing more. */
module ToolValidationTheorems {
  import Fuzzy

  import opened ToolValidation
  import opened Wrappers

  // ---------------------------------------------------------------- a valid value is left alone

  /** The alternative that counts: the first one the value satisfies after it was bent to it. */
  function Taken(lib: Library, v: Value, alternatives: seq<Schema>, i: nat): (taken: Option<nat>)
    requires i <= |alternatives|
    ensures taken.Some? ==> i <= taken.value < |alternatives|
    ensures taken.Some? ==> Valid(lib, alternatives[taken.value], Coerce(lib, v, alternatives[taken.value]))
    decreases |alternatives| - i
  {
    if i == |alternatives| then None
    else if Valid(lib, alternatives[i], Coerce(lib, v, alternatives[i])) then Some(i)
    else Taken(lib, v, alternatives, i + 1)
  }

  /** Wherever there are alternatives, at any depth that bending looks at, the one that counts is satisfied before
      anything is bent. */
  predicate Settled(lib: Library, v: Value, s: Schema)
    decreases s
  {
    && (forall i :: 0 <= i < |s.allOf| ==> Settled(lib, v, s.allOf[i]))
    && (match Taken(lib, v, s.anyOf, 0)
        case None => true
        case Some(i) => Valid(lib, s.anyOf[i], v) && Settled(lib, v, s.anyOf[i]))
    && (match Taken(lib, v, s.oneOf, 0)
        case None => true
        case Some(i) => Valid(lib, s.oneOf[i], v) && Settled(lib, v, s.oneOf[i]))
    && (v.Object? && "object" in s.types ==>
          forall k :: k in v.fields && FieldSchema(s, k).Some? ==> Settled(lib, v.fields[k], FieldSchema(s, k).value))
    && (v.Array? && "array" in s.types ==>
          forall i :: 0 <= i < |v.elements| && ElementSchema(s, i).Some? ==> Settled(lib, v.elements[i], ElementSchema(s, i).value))
  }

  lemma {:induction false} FirstIsTaken(lib: Library, v: Value, s: Schema, alternatives: seq<Schema>, i: nat)
    requires i <= |alternatives| && (alternatives == s.anyOf || alternatives == s.oneOf)
    ensures FirstAlternative(lib, v, s, alternatives, i) ==
            match Taken(lib, v, alternatives, i)
            case None => v
            case Some(k) => Coerce(lib, v, alternatives[k])
    decreases |alternatives| - i
  {
    hide Valid, Coerce;
    if i < |alternatives| {
      FirstIsTaken(lib, v, s, alternatives, i + 1);
    }
  }

  lemma ValidDoesNotBend(lib: Library, v: Value, s: Schema)
    requires Valid(lib, s, v)
    ensures Bent(lib, v, s.types) == v
  {
    hide FirstMatch, Fuzzy.Blank;
    if |s.types| == 1 {
      assert FirstChange(lib, v, s.types, 1) == v;
      assert CoercePrimitive(lib, v, s.types[0]).None?;
    } else if |s.types| > 1 {
      var t := ChosenType(lib, v, s.types).value;
      var i :| 0 <= i < |s.types| && s.types[i] == t;
      assert MatchesType(lib, v, s.types[i]);
    }
  }

  /** Bending what is inside twice comes to the same as once when that holds of every part. */
  ghost predicate InsideFixed(lib: Library, v: Value, s: Schema) {
    && (v.Object? && "object" in s.types ==> forall k :: k in v.fields && FieldSchema(s, k).Some? ==>
          Coerce(lib, v.fields[k], FieldSchema(s, k).value) == v.fields[k])
    && (v.Array? && "array" in s.types ==> forall i :: 0 <= i < |v.elements| && ElementSchema(s, i).Some? ==>
          Coerce(lib, v.elements[i], ElementSchema(s, i).value) == v.elements[i])
  }

  lemma InsideUnchanged(lib: Library, v: Value, s: Schema)
    requires InsideFixed(lib, v, s)
    ensures Inside(lib, v, s) == v
  {
    hide FieldSchema, ElementSchema, Coerce;
    var w := Inside(lib, v, s);
    if v.Object? && "object" in s.types {
      assert w.fields == v.fields;
    } else if v.Array? && "array" in s.types {
      assert w.elements == v.elements;
    }
  }

  /** The parts of a valid object or array are valid. */
  lemma PartsAreValid(lib: Library, v: Value, s: Schema)
    requires Valid(lib, s, v)
    ensures v.Object? && "object" in s.types ==>
      forall k :: k in v.fields && FieldSchema(s, k).Some? ==> Valid(lib, FieldSchema(s, k).value, v.fields[k])
    ensures v.Array? && "array" in s.types ==>
      forall i :: 0 <= i < |v.elements| && ElementSchema(s, i).Some? ==> Valid(lib, ElementSchema(s, i).value, v.elements[i])
  {
    hide FirstMatch, FieldSchema, ElementSchema;
  }

  lemma PartsArePlain(s: Schema)
    requires Plain(s)
    ensures forall k :: FieldSchema(s, k).Some? ==> Plain(FieldSchema(s, k).value)
    ensures forall i: nat :: ElementSchema(s, i).Some? ==> Plain(ElementSchema(s, i).value)
  {
  }

  lemma {:induction false} SettledAfterAllOf(lib: Library, v: Value, s: Schema, n: nat)
    requires Valid(lib, s, v) && Settled(lib, v, s) && n <= |s.allOf|
    ensures AfterAllOf(lib, v, s, n) == v
    decreases s, 0, n
  {
    hide Bent, ChosenType, Taken, FieldSchema, ElementSchema, Coerce, MatchesType;
    if n > 0 {
      SettledAfterAllOf(lib, v, s, n - 1);
      SettledStays(lib, v, s.allOf[n - 1]);
    }
  }

  lemma {:induction false} SettledAlternatives(lib: Library, v: Value, s: Schema, alternatives: seq<Schema>)
    requires alternatives == s.anyOf || alternatives == s.oneOf
    requires Settled(lib, v, s)
    ensures FirstAlternative(lib, v, s, alternatives, 0) == v
    decreases s, 0
  {
    hide Valid, Coerce, FieldSchema, ElementSchema;
    FirstIsTaken(lib, v, s, alternatives, 0);
    var taken := Taken(lib, v, alternatives, 0);
    if taken.Some? {
      SettledStays(lib, v, alternatives[taken.value]);
    }
  }

  lemma CoerceInSteps(lib: Library, v: Value, s: Schema)
    requires AfterAllOf(lib, v, s, |s.allOf|) == v
    requires FirstAlternative(lib, v, s, s.anyOf, 0) == v && FirstAlternative(lib, v, s, s.oneOf, 0) == v
    ensures Coerce(lib, v, s) == Inside(lib, Bent(lib, v, s.types), s)
  {
    hide Inside, Bent, AfterAllOf, FirstAlternative;
  }

  /** Whatever the schema, bending leaves a valid value as it is when every alternative that counts is satisfied already. */
  lemma {:induction false} SettledStays(lib: Library, v: Value, s: Schema)
    requires Valid(lib, s, v) && Settled(lib, v, s)
    ensures Coerce(lib, v, s) == v
    decreases s, 1
  {
    hide Inside, Bent, FieldSchema, ElementSchema, Taken, AfterAllOf, FirstAlternative, Coerce;
    SettledAfterAllOf(lib, v, s, |s.allOf|);
    SettledAlternatives(lib, v, s, s.anyOf);
    SettledAlternatives(lib, v, s, s.oneOf);
    CoerceInSteps(lib, v, s);
    ValidDoesNotBend(lib, v, s);
    PartsAreValid(lib, v, s);
    if v.Object? && "object" in s.types {
      forall k | k in v.fields && FieldSchema(s, k).Some?
        ensures Coerce(lib, v.fields[k], FieldSchema(s, k).value) == v.fields[k]
      {
        SettledStays(lib, v.fields[k], FieldSchema(s, k).value);
      }
    }
    if v.Array? && "array" in s.types {
      forall i | 0 <= i < |v.elements| && ElementSchema(s, i).Some?
        ensures Coerce(lib, v.elements[i], ElementSchema(s, i).value) == v.elements[i]
      {
        SettledStays(lib, v.elements[i], ElementSchema(s, i).value);
      }
    }
    InsideUnchanged(lib, v, s);
  }

  // ---------------------------------------------------------------- schemas without alternatives

  /** No alternatives, at any depth that bending looks at. */
  predicate Plain(s: Schema)
    decreases s
  {
    && s.anyOf == [] && s.oneOf == []
    && (forall i :: 0 <= i < |s.allOf| ==> Plain(s.allOf[i]))
    && (forall k :: k in s.properties ==> Plain(s.properties[k]))
    && (s.additional.Matching? ==> Plain(s.additional.schema))
    && (match s.items
        case NoItems => true
        case Each(schema) => Plain(schema)
        case Tuple(schemas) => forall i :: 0 <= i < |schemas| ==> Plain(schemas[i]))
  }

  lemma {:induction false} PlainIsSettled(lib: Library, v: Value, s: Schema)
    requires Plain(s)
    ensures Settled(lib, v, s)
    decreases s
  {
    hide Valid, Coerce, FieldSchema, ElementSchema;
    PartsArePlain(s);
    forall i | 0 <= i < |s.allOf| ensures Settled(lib, v, s.allOf[i]) {
      PlainIsSettled(lib, v, s.allOf[i]);
    }
    if v.Object? && "object" in s.types {
      forall k | k in v.fields && FieldSchema(s, k).Some? ensures Settled(lib, v.fields[k], FieldSchema(s, k).value) {
        PlainIsSettled(lib, v.fields[k], FieldSchema(s, k).value);
      }
    }
    if v.Array? && "array" in s.types {
      forall i | 0 <= i < |v.elements| && ElementSchema(s, i).Some? ensures Settled(lib, v.elements[i], ElementSchema(s, i).value) {
        PlainIsSettled(lib, v.elements[i], ElementSchema(s, i).value);
      }
    }
  }

  /** Without alternatives, bending leaves every value that is already valid as it is. */
  lemma ValidStays(lib: Library, v: Value, s: Schema)
    requires Plain(s) && Valid(lib, s, v)
    ensures Coerce(lib, v, s) == v
  {
    hide Coerce, Valid, Settled;
    PlainIsSettled(lib, v, s);
    SettledStays(lib, v, s);
  }

  /** Arguments accepted under such a schema are accepted as they are from then on. */
  lemma AcceptedArgumentsAreStable(lib: Library, v: Value, s: Schema)
    requires Plain(s) && Valid(lib, s, Coerce(lib, v, s))
    ensures Coerce(lib, Coerce(lib, v, s), s) == Coerce(lib, v, s)
  {
    hide Coerce, Valid;
    ValidStays(lib, Coerce(lib, v, s), s);
  }

  // ---------------------------------------------------------------- schemas with alternatives

  /** Names no type and combines nothing: nothing is bent to it. */
  predicate Bland(s: Schema) {
    s.allOf == [] && s.anyOf == [] && s.oneOf == [] && s.types == []
  }

  /** At any depth that bending looks at, a schema offers alternatives that bend or names types, but not both, and no
      `allOf` has alternatives in it. */
  predicate Apart(s: Schema)
    decreases s
  {
    && (forall i :: 0 <= i < |s.allOf| ==> Plain(s.allOf[i]))
    && (if s.types == [] then
          && (s.anyOf == [] || s.oneOf == [])
          && (forall i :: 0 <= i < |s.anyOf| ==> Apart(s.anyOf[i]))
          && (forall i :: 0 <= i < |s.oneOf| ==> Apart(s.oneOf[i]))
        else
          && (forall i :: 0 <= i < |s.anyOf| ==> Bland(s.anyOf[i]))
          && (forall i :: 0 <= i < |s.oneOf| ==> Bland(s.oneOf[i]))
          && (forall k :: k in s.properties ==> Apart(s.properties[k]))
          && (s.additional.Matching? ==> Apart(s.additional.schema))
          && (match s.items
              case NoItems => true
              case Each(schema) => Apart(schema)
              case Tuple(schemas) => forall i :: 0 <= i < |schemas| ==> Apart(schemas[i])))
  }

  lemma PartsAreApart(s: Schema)
    requires Apart(s) && s.types != []
    ensures forall k :: FieldSchema(s, k).Some? ==> Apart(FieldSchema(s, k).value)
    ensures forall i: nat :: ElementSchema(s, i).Some? ==> Apart(ElementSchema(s, i).value)
  {
  }

  lemma BlandBendsNothing(lib: Library, v: Value, s: Schema)
    requires Bland(s)
    ensures Coerce(lib, v, s) == v && Settled(lib, v, s)
  {
  }

  lemma PlainAllOf(lib: Library, v: Value, s: Schema, n: nat)
    requires Valid(lib, s, v) && n <= |s.allOf| && forall i :: 0 <= i < |s.allOf| ==> Plain(s.allOf[i])
    ensures AfterAllOf(lib, v, s, n) == v
    ensures forall i :: 0 <= i < |s.allOf| ==> Settled(lib, v, s.allOf[i])
  {
    hide Coerce, Settled, Bent, ChosenType, FieldSchema, ElementSchema;
    forall i | 0 <= i < |s.allOf| ensures Settled(lib, v, s.allOf[i]) {
      PlainIsSettled(lib, v, s.allOf[i]);
    }
    if n > 0 {
      PlainAllOf(lib, v, s, n - 1);
      ValidStays(lib, v, s.allOf[n - 1]);
    }
  }

  /** The whole of a schema that names no type is the alternative that counts. */
  lemma ChoiceCoerces(lib: Library, v: Value, s: Schema)
    requires s.types == [] && (s.anyOf == [] || s.oneOf == []) && AfterAllOf(lib, v, s, |s.allOf|) == v
    ensures Coerce(lib, v, s) == FirstAlternative(lib, v, s, if s.anyOf == [] then s.oneOf else s.anyOf, 0)
  {
    hide AfterAllOf, Valid;
    var all := if s.anyOf == [] then s.oneOf else s.anyOf;
    var one := FirstAlternative(lib, v, s, all, 0);
    assert Bent(lib, one, []) == one;
  }

  lemma ChoiceSettles(lib: Library, v: Value, s: Schema)
    requires s.types == [] && (s.anyOf == [] || s.oneOf == [])
    requires forall i :: 0 <= i < |s.allOf| ==> Settled(lib, v, s.allOf[i])
    ensures var all := if s.anyOf == [] then s.oneOf else s.anyOf;
      Settled(lib, v, s) <==>
      match Taken(lib, v, all, 0)
      case None => true
      case Some(i) => Valid(lib, all[i], v) && Settled(lib, v, all[i])
  {
    hide Valid, Coerce;
    assert Taken(lib, v, [], 0) == None;
  }

  lemma BlandSettles(lib: Library, v: Value, s: Schema, alternatives: seq<Schema>)
    requires alternatives == s.anyOf || alternatives == s.oneOf
    requires forall i :: 0 <= i < |alternatives| ==> Bland(alternatives[i])
    ensures FirstAlternative(lib, v, s, alternatives, 0) == v
    ensures match Taken(lib, v, alternatives, 0)
            case None => true
            case Some(i) => Valid(lib, alternatives[i], v) && Settled(lib, v, alternatives[i])
  {
    hide Coerce, Valid, Settled, Bland;
    FirstIsTaken(lib, v, s, alternatives, 0);
    var taken := Taken(lib, v, alternatives, 0);
    if taken.Some? {
      BlandBendsNothing(lib, v, alternatives[taken.value]);
    }
  }

  lemma InsideFixedIff(lib: Library, v: Value, s: Schema)
    ensures Inside(lib, v, s) == v <==> InsideFixed(lib, v, s)
  {
    hide FieldSchema, ElementSchema, Coerce;
    var w := Inside(lib, v, s);
    if InsideFixed(lib, v, s) {
      InsideUnchanged(lib, v, s);
    }
    if w == v && v.Object? && "object" in s.types {
      assert w.fields == v.fields;
      forall k | k in v.fields && FieldSchema(s, k).Some?
        ensures Coerce(lib, v.fields[k], FieldSchema(s, k).value) == v.fields[k]
      {
        assert w.fields[k] == v.fields[k];
      }
    } else if w == v && v.Array? && "array" in s.types {
      forall i | 0 <= i < |v.elements| && ElementSchema(s, i).Some?
        ensures Coerce(lib, v.elements[i], ElementSchema(s, i).value) == v.elements[i]
      {
        assert w.elements[i] == v.elements[i];
      }
    }
  }

  ghost predicate PartsSettled(lib: Library, v: Value, s: Schema) {
    && (v.Object? && "object" in s.types ==>
          forall k :: k in v.fields && FieldSchema(s, k).Some? ==> Settled(lib, v.fields[k], FieldSchema(s, k).value))
    && (v.Array? && "array" in s.types ==>
          forall i :: 0 <= i < |v.elements| && ElementSchema(s, i).Some? ==> Settled(lib, v.elements[i], ElementSchema(s, i).value))
  }

  lemma {:induction false} PartsSettle(lib: Library, v: Value, s: Schema)
    requires Apart(s) && s.types != [] && Valid(lib, s, v) && InsideFixed(lib, v, s)
    ensures PartsSettled(lib, v, s)
    decreases s, 0
  {
    hide Coerce, FieldSchema, ElementSchema, Settled, Apart, Valid;
    PartsAreValid(lib, v, s);
    PartsAreApart(s);
    if v.Object? && "object" in s.types {
      forall k | k in v.fields && FieldSchema(s, k).Some? ensures Settled(lib, v.fields[k], FieldSchema(s, k).value) {
        ValidStaysIff(lib, v.fields[k], FieldSchema(s, k).value);
      }
    }
    if v.Array? && "array" in s.types {
      forall i | 0 <= i < |v.elements| && ElementSchema(s, i).Some? ensures Settled(lib, v.elements[i], ElementSchema(s, i).value) {
        ValidStaysIff(lib, v.elements[i], ElementSchema(s, i).value);
      }
    }
  }

  lemma TypedSettles(lib: Library, v: Value, s: Schema)
    requires Valid(lib, s, v) && PartsSettled(lib, v, s)
    requires forall i :: 0 <= i < |s.allOf| ==> Plain(s.allOf[i])
    requires forall i :: 0 <= i < |s.anyOf| ==> Bland(s.anyOf[i])
    requires forall i :: 0 <= i < |s.oneOf| ==> Bland(s.oneOf[i])
    ensures Settled(lib, v, s)
  {
    hide Coerce, FieldSchema, ElementSchema, Taken, Plain, Bland, Valid;
    PlainAllOf(lib, v, s, 0);
    BlandSettles(lib, v, s, s.anyOf);
    BlandSettles(lib, v, s, s.oneOf);
  }

  /** Bending leaves a valid value as it is exactly when every alternative that counts is satisfied already. */
  lemma {:induction false} ValidStaysIff(lib: Library, v: Value, s: Schema)
    requires Apart(s) && Valid(lib, s, v)
    ensures Coerce(lib, v, s) == v <==> Settled(lib, v, s)
    decreases s, 1
  {
    hide Coerce, Settled, FieldSchema, ElementSchema, Taken, Inside, InsideFixed, AfterAllOf, FirstAlternative, Bent, Plain;
    if Settled(lib, v, s) {
      SettledStays(lib, v, s);
    } else if s.types == [] {
      PlainAllOf(lib, v, s, |s.allOf|);
      ChoiceCoerces(lib, v, s);
      ChoiceSettles(lib, v, s);
      var all := if s.anyOf == [] then s.oneOf else s.anyOf;
      FirstIsTaken(lib, v, s, all, 0);
      var i := Taken(lib, v, all, 0).value;
      if Valid(lib, all[i], v) {
        ValidStaysIff(lib, v, all[i]);
      }
    } else {
      PlainAllOf(lib, v, s, |s.allOf|);
      BlandSettles(lib, v, s, s.anyOf);
      BlandSettles(lib, v, s, s.oneOf);
      CoerceInSteps(lib, v, s);
      ValidDoesNotBend(lib, v, s);
      InsideFixedIff(lib, v, s);
      if InsideFixed(lib, v, s) {
        PartsSettle(lib, v, s);
        TypedSettles(lib, v, s);
      }
    }
  }

  /** Accepted arguments are accepted as they are from then on under the same condition. */
  lemma AcceptedTwiceIff(lib: Library, v: Value, s: Schema)
    requires Apart(s) && Valid(lib, s, Coerce(lib, v, s))
    ensures Coerce(lib, Coerce(lib, v, s), s) == Coerce(lib, v, s) <==> Settled(lib, Coerce(lib, v, s), s)
  {
    hide Coerce, Valid, Settled, Apart;
    ValidStaysIff(lib, Coerce(lib, v, s), s);
  }

  lemma {:induction false} PlainIsApart(s: Schema)
    requires Plain(s)
    ensures Apart(s)
    decreases s
  {
    forall k | k in s.properties ensures Apart(s.properties[k]) {
      PlainIsApart(s.properties[k]);
    }
    if s.additional.Matching? {
      PlainIsApart(s.additional.schema);
    }
    match s.items
    case NoItems =>
    case Each(schema) => PlainIsApart(schema);
    case Tuple(schemas) =>
      forall i | 0 <= i < |schemas| ensures Apart(schemas[i]) {
        PlainIsApart(schemas[i]);
      }
  }

  /** Among alternatives that have none themselves, a valid value stays as it is exactly when it satisfies the first one
      that it can be bent to. */
  lemma ChoiceStaysIff(lib: Library, v: Value, s: Schema)
    requires Valid(lib, s, v) && s.types == [] && s.allOf == [] && (s.anyOf == [] || s.oneOf == [])
    requires forall i :: 0 <= i < |s.anyOf| ==> Plain(s.anyOf[i])
    requires forall i :: 0 <= i < |s.oneOf| ==> Plain(s.oneOf[i])
    ensures var all := if s.anyOf == [] then s.oneOf else s.anyOf; var taken := Taken(lib, v, all, 0);
      Coerce(lib, v, s) == v <==> taken.None? || Valid(lib, all[taken.value], v)
  {
    hide Coerce, Valid, Settled, Plain, Taken;
    var all := if s.anyOf == [] then s.oneOf else s.anyOf;
    forall i | 0 <= i < |all| ensures Apart(all[i]) && Settled(lib, v, all[i]) {
      PlainIsApart(all[i]);
      PlainIsSettled(lib, v, all[i]);
    }
    ValidStaysIff(lib, v, s);
    ChoiceSettles(lib, v, s);
  }

  // ---------------------------------------------------------------- twice is once

  /** No `allOf`, at any depth that bending looks at. */
  predicate NoAllOf(s: Schema)
    decreases s
  {
    && s.allOf == []
    && (forall k :: k in s.properties ==> NoAllOf(s.properties[k]))
    && (s.additional.Matching? ==> NoAllOf(s.additional.schema))
    && (match s.items
        case NoItems => true
        case Each(schema) => NoAllOf(schema)
        case Tuple(schemas) => forall i :: 0 <= i < |schemas| ==> NoAllOf(schemas[i]))
  }

  lemma PartsHaveNoAllOf(s: Schema)
    requires NoAllOf(s)
    ensures forall k :: FieldSchema(s, k).Some? ==> NoAllOf(FieldSchema(s, k).value)
    ensures forall i: nat :: ElementSchema(s, i).Some? ==> NoAllOf(ElementSchema(s, i).value)
  {
  }

  /** What a value was bent to has the type it was bent to, but for integers too large to be read as such. */
  lemma BentMatches(lib: Library, v: Value, t: string)
    requires Lawful(lib) && CoercePrimitive(lib, v, t).Some?
    ensures var w := CoercePrimitive(lib, v, t).value;
      && CoercePrimitive(lib, w, t).None? && !w.Object? && !w.Array?
      && (MatchesType(lib, w, t) ||
          (t == "integer" && v.String? && w.Number? && !Reads(lib, w, 0.0) && !Reads(lib, w, 1.0) && lib.float(w.numeral).Some?))
  {
    hide Fuzzy.Blank;
  }

  lemma {:induction false} WhichChange(lib: Library, v: Value, types: seq<string>, i: nat) returns (k: nat)
    requires i <= |types| && FirstChange(lib, v, types, i) != v
    ensures i <= k < |types| && CoercePrimitive(lib, v, types[k]) == Some(FirstChange(lib, v, types, i))
    decreases |types| - i
  {
    hide CoercePrimitive;
    if i < |types| {
      if CoercePrimitive(lib, v, types[i]).Some? {
        k := i;
      } else {
        k := WhichChange(lib, v, types, i + 1);
      }
    }
  }

  lemma {:induction false} NoChange(lib: Library, v: Value, types: seq<string>, i: nat)
    requires i <= |types| && forall k :: i <= k < |types| ==> CoercePrimitive(lib, v, types[k]).None?
    ensures FirstChange(lib, v, types, i) == v
    decreases |types| - i
  {
    hide CoercePrimitive;
    if i < |types| {
      NoChange(lib, v, types, i + 1);
    }
  }

  lemma LargeNumberStays(lib: Library, w: Value, t: string)
    requires w.Number? && !Reads(lib, w, 0.0) && !Reads(lib, w, 1.0)
    ensures CoercePrimitive(lib, w, t).Some? ==> t == "string"
  {
  }

  lemma BentTwice(lib: Library, v: Value, types: seq<string>)
    requires Lawful(lib)
    ensures Bent(lib, Bent(lib, v, types), types) == Bent(lib, v, types)
  {
    hide CoercePrimitive, FirstChange, MatchesType, Lawful, Reads;
    var w := Bent(lib, v, types);
    if w != v {
      var k := WhichChange(lib, v, types, 0);
      BentMatches(lib, v, types[k]);
      if |types| == 1 {
        NoChange(lib, w, types, 0);
      } else if !AnyTypeMatches(lib, w, types) {
        forall j | 0 <= j < |types| ensures CoercePrimitive(lib, w, types[j]).None? {
          LargeNumberStays(lib, w, types[j]);
          StringMatches(lib, v, types[j]);
        }
        NoChange(lib, w, types, 0);
      }
    }
  }

  lemma StringMatches(lib: Library, v: Value, t: string)
    requires v.String?
    ensures t == "string" ==> MatchesType(lib, v, t)
  {
  }

  lemma ContainersDoNotBend(lib: Library, v: Value, types: seq<string>)
    requires (v.Object? && "object" in types) || (v.Array? && "array" in types)
    ensures Bent(lib, v, types) == v
  {
    hide FirstChange;
    forall k | 0 <= k < |types| ensures CoercePrimitive(lib, v, types[k]).None? {
    }
    NoChange(lib, v, types, 0);
  }

  lemma CoerceIs(lib: Library, v: Value, s: Schema)
    requires s.allOf == [] && s.anyOf == [] && s.oneOf == []
    ensures Coerce(lib, v, s) == Inside(lib, Bent(lib, v, s.types), s)
  {
    hide Inside, Bent;
  }

  /** Without alternatives and `allOf`, bending a value twice comes to the same as bending it once. */
  lemma {:induction false} CoerceTwice(lib: Library, v: Value, s: Schema)
    requires Lawful(lib) && Plain(s) && NoAllOf(s)
    ensures Coerce(lib, Coerce(lib, v, s), s) == Coerce(lib, v, s)
    decreases s
  {
    hide Coerce, Bent, FieldSchema, ElementSchema, Lawful;
    var w := Bent(lib, v, s.types);
    var x := Inside(lib, w, s);
    CoerceIs(lib, v, s);
    CoerceIs(lib, x, s);
    BentTwice(lib, v, s.types);
    PartsArePlain(s);
    PartsHaveNoAllOf(s);
    if w.Object? && "object" in s.types {
      ContainersDoNotBend(lib, x, s.types);
      forall k | k in x.fields && FieldSchema(s, k).Some?
        ensures Coerce(lib, x.fields[k], FieldSchema(s, k).value) == x.fields[k]
      {
        CoerceTwice(lib, w.fields[k], FieldSchema(s, k).value);
      }
      InsideUnchanged(lib, x, s);
    } else if w.Array? && "array" in s.types {
      ContainersDoNotBend(lib, x, s.types);
      forall i | 0 <= i < |x.elements| && ElementSchema(s, i).Some?
        ensures Coerce(lib, x.elements[i], ElementSchema(s, i).value) == x.elements[i]
      {
        CoerceTwice(lib, w.elements[i], ElementSchema(s, i).value);
      }
      InsideUnchanged(lib, x, s);
    }
  }

  // ---------------------------------------------------------------- twice under two types

  function OfType(t: string): Schema {
    Schema([], [], [], None, [t], map[], [], Anything, NoItems, 0)
  }

  function Combining(allOf: seq<Schema>, anyOf: seq<Schema>, types: seq<string>): Schema {
    Schema(allOf, anyOf, [], None, types, map[], [], Anything, NoItems, 0)
  }

  function Bend(lib: Library, v: Value, t: string): Value {
    CoercePrimitive(lib, v, t).GetOr(v)
  }

  lemma CoerceToType(lib: Library, v: Value, t: string)
    ensures Coerce(lib, v, OfType(t)) == Bend(lib, v, t)
  {
    hide CoercePrimitive;
    CoerceIs(lib, v, OfType(t));
    assert FirstChange(lib, v, [t], 1) == v;
    InsideUnchanged(lib, Bend(lib, v, t), OfType(t));
  }

  /** Bent to each of these types in turn. */
  function Chain(lib: Library, v: Value, types: seq<string>): Value {
    if types == [] then v else Bend(lib, Chain(lib, v, types[..|types| - 1]), types[|types| - 1])
  }

  function Members(types: seq<string>): (members: seq<Schema>)
    ensures |members| == |types| && forall i :: 0 <= i < |types| ==> members[i] == OfType(types[i])
  {
    seq(|types|, i requires 0 <= i < |types| => OfType(types[i]))
  }

  lemma {:induction false} MembersChain(lib: Library, v: Value, s: Schema, types: seq<string>, n: nat)
    requires s.allOf == Members(types) && n <= |types|
    ensures AfterAllOf(lib, v, s, n) == Chain(lib, v, types[..n])
    decreases n
  {
    hide Coerce, Bend;
    if n > 0 {
      MembersChain(lib, v, s, types, n - 1);
      CoerceToType(lib, Chain(lib, v, types[..n - 1]), types[n - 1]);
      assert types[..n][..n - 1] == types[..n - 1];
    }
  }

  lemma AllOfIsChain(lib: Library, v: Value, types: seq<string>)
    ensures Coerce(lib, v, Combining(Members(types), [], [])) == Chain(lib, v, types)
  {
    hide AfterAllOf, Chain;
    MembersChain(lib, v, Combining(Members(types), [], []), types, |types|);
    assert types[..|types|] == types;
  }

  lemma ChainOfTwo(lib: Library, v: Value, a: string, b: string)
    ensures Chain(lib, v, [a, b]) == Bend(lib, Bend(lib, v, a), b)
  {
    hide Bend;
    assert [a, b][..1] == [a] && [a][..0] == [];
    assert Chain(lib, v, [a]) == Bend(lib, v, a);
  }

  lemma CoerceBoth(lib: Library, v: Value, a: string, b: string)
    ensures Coerce(lib, v, Combining([OfType(a), OfType(b)], [], [])) == Bend(lib, Bend(lib, v, a), b)
  {
    hide Coerce, Chain, Bend;
    assert Members([a, b]) == [OfType(a), OfType(b)];
    AllOfIsChain(lib, v, [a, b]);
    ChainOfTwo(lib, v, a, b);
  }

  /** A type beside a member comes after it. */
  lemma CoerceBeside(lib: Library, v: Value, a: string, b: string)
    ensures Coerce(lib, v, Combining([OfType(a)], [], [b])) == Bend(lib, Bend(lib, v, a), b)
  {
    hide CoercePrimitive;
    var s := Combining([OfType(a)], [], [b]);
    var w := Bend(lib, v, a);
    CoerceToType(lib, v, a);
    assert AfterAllOf(lib, v, s, 1) == w;
    assert FirstChange(lib, w, [b], 1) == w;
    assert Bent(lib, w, [b]) == Bend(lib, w, b);
    InsideUnchanged(lib, Bend(lib, w, b), s);
  }

  /** A numeral that is bent away and back, and not written the same on its way back. */
  predicate Respelled(lib: Library, a: string, b: string, x: Value) {
    || (a == "integer" && b == "string" && x.String? && lib.float(x.text).Some? && Whole(lib.float(x.text).value)
        && lib.format(lib.float(x.text).value) != x.text)
    || (a == "boolean" && b == "number" && (Reads(lib, x, 0.0) || Reads(lib, x, 1.0)) && x.numeral != "0" && x.numeral != "1")
    || (a == "null" && b == "number" && Reads(lib, x, 0.0) && x.numeral != "0")
  }

  lemma BendAgain(lib: Library, v: Value, t: string)
    requires Lawful(lib)
    ensures CoercePrimitive(lib, Bend(lib, v, t), t).None?
  {
    hide CoercePrimitive, Lawful, Fuzzy.Blank;
    if CoercePrimitive(lib, v, t).Some? {
      BentMatches(lib, v, t);
    }
  }

  lemma RespelledBends(lib: Library, a: string, b: string, x: Value)
    requires Lawful(lib) && Respelled(lib, a, b, x)
    ensures CoercePrimitive(lib, x, a).Some?
  {
    hide Fuzzy.Blank;
  }

  /** What a value bent to text looks like when it is bent to another type and back. */
  lemma BackToText(lib: Library, y: Value, a: string)
    requires Lawful(lib) && CoercePrimitive(lib, y, "string").Some?
    ensures var x := CoercePrimitive(lib, y, "string").value;
      Bend(lib, Bend(lib, x, a), "string") == x <==> !Respelled(lib, a, "string", x)
  {
    hide Fuzzy.Blank;
  }

  lemma BackToNumber(lib: Library, y: Value, a: string)
    requires Lawful(lib) && CoercePrimitive(lib, y, "number").Some?
    ensures var x := CoercePrimitive(lib, y, "number").value;
      Bend(lib, Bend(lib, x, a), "number") == x <==> !Respelled(lib, a, "number", x)
  {
    hide Fuzzy.Blank;
  }

  lemma BackToInteger(lib: Library, y: Value, a: string)
    requires Lawful(lib) && CoercePrimitive(lib, y, "integer").Some?
    ensures var x := CoercePrimitive(lib, y, "integer").value;
      Bend(lib, Bend(lib, x, a), "integer") == x
  {
    hide Fuzzy.Blank;
  }

  lemma BackToOther(lib: Library, y: Value, a: string, b: string)
    requires Lawful(lib) && (b == "boolean" || b == "null") && CoercePrimitive(lib, y, b).Some?
    ensures var x := CoercePrimitive(lib, y, b).value;
      Bend(lib, Bend(lib, x, a), b) == x
  {
    hide Fuzzy.Blank;
  }

  lemma OnlyTypesBend(lib: Library, y: Value, b: string)
    requires CoercePrimitive(lib, y, b).Some?
    ensures b in ["string", "number", "integer", "boolean", "null"]
  {
    hide Fuzzy.Blank, Reads, Whole;
  }

  lemma TwiceIff(lib: Library, v: Value, a: string, b: string)
    requires Lawful(lib)
    ensures var x := Bend(lib, Bend(lib, v, a), b);
      Bend(lib, Bend(lib, x, a), b) == x <==> !Respelled(lib, a, b, x)
  {
    hide CoercePrimitive, Lawful, Respelled;
    var y := Bend(lib, v, a);
    BendAgain(lib, v, a);
    BendAgain(lib, y, b);
    if CoercePrimitive(lib, y, b).None? {
      if Respelled(lib, a, b, y) {
        RespelledBends(lib, a, b, y);
        assert false;
      }
    } else {
      OnlyTypesBend(lib, y, b);
      if b == "string" {
        BackToText(lib, y, a);
      } else if b == "number" {
        BackToNumber(lib, y, a);
      } else {
        NeverRespelled(lib, a, b, CoercePrimitive(lib, y, b).value);
        if b == "integer" {
          BackToInteger(lib, y, a);
        } else {
          BackToOther(lib, y, a, b);
        }
      }
    }
  }

  lemma NeverRespelled(lib: Library, a: string, b: string, x: Value)
    requires b != "string" && b != "number"
    ensures !Respelled(lib, a, b, x)
  {
  }

  /** The values whose numeral will be respelled: a whole number not written as it would be for `integer` and `string`, text
      that reads zero or one for `boolean` and `number`, text that reads zero for `null` and `number`. */
  predicate RespelledFrom(lib: Library, a: string, b: string, v: Value) {
    || (a == "integer" && b == "string" && v.Number? && lib.float(v.numeral).Some? && Whole(lib.float(v.numeral).value)
        && lib.format(lib.float(v.numeral).value) != v.numeral)
    || (a == "boolean" && b == "number" && v.String? && v.text !in ["0", "1", "true", "false"]
        && (lib.float(v.text) == Some(Finite(0.0)) || lib.float(v.text) == Some(Finite(1.0))))
    || (a == "null" && b == "number" && v.String? && v.text !in ["0", ""] && lib.float(v.text) == Some(Finite(0.0)))
  }

  lemma RespelledIff(lib: Library, v: Value, a: string, b: string)
    requires Lawful(lib)
    ensures Respelled(lib, a, b, Bend(lib, Bend(lib, v, a), b)) <==> RespelledFrom(lib, a, b, v)
  {
    hide Fuzzy.Blank;
  }

  /** Under `allOf` of two types, bending a value twice comes to the same as once exactly when the value is not one of those. */
  lemma AllOfTwiceIff(lib: Library, v: Value, a: string, b: string)
    requires Lawful(lib)
    ensures var s := Combining([OfType(a), OfType(b)], [], []);
      Coerce(lib, Coerce(lib, v, s), s) == Coerce(lib, v, s) <==> !RespelledFrom(lib, a, b, v)
  {
    hide Coerce, CoercePrimitive, Respelled, RespelledFrom, Lawful;
    CoerceBoth(lib, v, a, b);
    CoerceBoth(lib, Bend(lib, Bend(lib, v, a), b), a, b);
    TwiceIff(lib, v, a, b);
    RespelledIff(lib, v, a, b);
  }

  /** And likewise under `allOf` of one type beside another. */
  lemma BesideTwiceIff(lib: Library, v: Value, a: string, b: string)
    requires Lawful(lib)
    ensures var s := Combining([OfType(a)], [], [b]);
      Coerce(lib, Coerce(lib, v, s), s) == Coerce(lib, v, s) <==> !RespelledFrom(lib, a, b, v)
  {
    hide Coerce, CoercePrimitive, Respelled, RespelledFrom, Lawful;
    CoerceBeside(lib, v, a, b);
    CoerceBeside(lib, Bend(lib, Bend(lib, v, a), b), a, b);
    TwiceIff(lib, v, a, b);
    RespelledIff(lib, v, a, b);
  }

  // ---------------------------------------------------------------- where it does not hold

  lemma NumberOfOne(lib: Library)
    requires Lawful(lib) && forall v :: lib.holds(0, v)
    ensures var s := OfType("number");
      Coerce(lib, String("1"), s) == Number("1") && Valid(lib, s, Number("1")) && !Valid(lib, s, String("1"))
    ensures Valid(lib, OfType("string"), String("1"))
  {
    hide FirstMatch, Coerce;
    assert !Fuzzy.IsSpace("1"[0]);
    CoerceToType(lib, String("1"), "number");
  }

  lemma NumberIsTaken(lib: Library, s: Schema)
    requires Lawful(lib) && (forall v :: lib.holds(0, v)) && s.anyOf == [OfType("number"), OfType("string")]
    ensures Taken(lib, String("1"), s.anyOf, 0) == Some(0) && !Settled(lib, String("1"), s)
    ensures FirstAlternative(lib, String("1"), s, s.anyOf, 0) == Number("1")
  {
    hide Valid, Coerce;
    NumberOfOne(lib);
    FirstIsTaken(lib, String("1"), s, s.anyOf, 0);
  }

  lemma TextIsValid(lib: Library, s: Schema, v: Value)
    requires s == Combining([], [OfType("number"), OfType("string")], s.types) && (s.types == [] || s.types == ["string"]) && v.String?
    requires lib.holds(0, v) && Valid(lib, OfType("string"), v)
    ensures Valid(lib, s, v)
  {
    assert s.anyOf[1] == OfType("string");
  }

  lemma TypesAreApart(a: string, b: string)
    ensures Apart(Combining([], [OfType(a), OfType(b)], []))
  {
    assert Plain(OfType(a)) && Plain(OfType(b));
    PlainIsApart(OfType(a));
    PlainIsApart(OfType(b));
  }

  /** With alternatives a valid value may change: digits that are fine as text become a number. */
  lemma AlternativesChangeValid(lib: Library)
    requires Lawful(lib) && forall v :: lib.holds(0, v)
    ensures var s, v := Combining([], [OfType("number"), OfType("string")], []), String("1");
      Apart(s) && Valid(lib, s, v) && Coerce(lib, v, s) == Number("1")
  {
    hide Coerce, Valid, Apart, FirstAlternative;
    var s, v := Combining([], [OfType("number"), OfType("string")], []), String("1");
    NumberOfOne(lib);
    NumberIsTaken(lib, s);
    TextIsValid(lib, s, v);
    TypesAreApart("number", "string");
    ChoiceCoerces(lib, v, s);
  }

  /** A schema with both alternatives and types may bend the change back. */
  lemma TypesBendBack(lib: Library)
    requires Lawful(lib) && forall v :: lib.holds(0, v)
    ensures var s, v := Combining([], [OfType("number"), OfType("string")], ["string"]), String("1");
      Valid(lib, s, v) && Coerce(lib, v, s) == v && !Settled(lib, v, s)
  {
    hide Coerce, Valid, FirstAlternative;
    var s, v := Combining([], [OfType("number"), OfType("string")], ["string"]), String("1");
    NumberOfOne(lib);
    NumberIsTaken(lib, s);
    TextIsValid(lib, s, v);
    MixedCoerces(lib, v, s);
  }

  lemma MixedCoerces(lib: Library, v: Value, s: Schema)
    requires s.allOf == [] && s.oneOf == [] && s.types == ["string"] && FirstAlternative(lib, v, s, s.anyOf, 0) == Number("1")
    ensures Coerce(lib, v, s) == String("1")
  {
    hide Valid;
    assert Bent(lib, Number("1"), ["string"]) == String("1");
  }

  /** With `allOf` a second time may change the value again: a number that is whole but not written so becomes text, and
      that text becomes the shorter numeral. */
  lemma AllOfTwiceDiffers(lib: Library)
    requires Lawful(lib) && lib.float("1.0") == Some(Finite(1.0))
    ensures var s, v := Combining([OfType("integer"), OfType("string")], [], []), Number("1.0");
      Coerce(lib, v, s) == String("1.0") && Coerce(lib, Coerce(lib, v, s), s) == String("1")
  {
    hide Coerce;
    CoerceBoth(lib, Number("1.0"), "integer", "string");
    CoerceBoth(lib, String("1.0"), "integer", "string");
  }

  /** Along three types a change may also go unmade because another type came between: no numeral is respelled here. */
  lemma ThreeTypesDiffer(lib: Library)
    requires Lawful(lib) && lib.float("true").None?
    ensures var s, v := Combining(Members(["boolean", "string", "number"]), [], []), String("1");
      Coerce(lib, v, s) == Number("1") && Coerce(lib, Coerce(lib, v, s), s) == String("true")
  {
    hide Coerce, Chain;
    ThreeTypesBend(lib);
    AllOfIsChain(lib, String("1"), ["boolean", "string", "number"]);
    AllOfIsChain(lib, Number("1"), ["boolean", "string", "number"]);
    ChainOfThree(lib, String("1"), "boolean", "string", "number");
    ChainOfThree(lib, Number("1"), "boolean", "string", "number");
  }

  lemma ThreeTypesBend(lib: Library)
    requires Lawful(lib)
    ensures Bend(lib, String("1"), "boolean") == String("1") && Bend(lib, String("1"), "string") == String("1")
    ensures Bend(lib, String("1"), "number") == Number("1") && Bend(lib, Number("1"), "boolean") == Bool(true)
    ensures Bend(lib, Bool(true), "string") == String("true")
    ensures lib.float("true").None? ==> Bend(lib, String("true"), "number") == String("true")
  {
    hide Fuzzy.Blank;
  }

  lemma ChainOfThree(lib: Library, v: Value, a: string, b: string, c: string)
    ensures Chain(lib, v, [a, b, c]) == Bend(lib, Bend(lib, Bend(lib, v, a), b), c)
  {
    hide Bend;
    ChainOfTwo(lib, v, a, b);
    assert [a, b, c][..2] == [a, b];
  }

  // ---------------------------------------------------------------- changes that a later stage undoes

  function Both(anyOf: seq<Schema>, oneOf: seq<Schema>): Schema {
    Schema([], anyOf, oneOf, None, [], map[], [], Anything, NoItems, 0)
  }

  /** `oneOf` may undo what `anyOf` changed. */
  lemma OneOfBendsBack(lib: Library)
    requires Lawful(lib) && forall v :: lib.holds(0, v)
    ensures var s, v := Both([OfType("number"), OfType("string")], [OfType("string")]), String("1");
      Valid(lib, s, v) && Coerce(lib, v, s) == v && !Settled(lib, v, s)
  {
    hide Coerce, Valid, FirstAlternative;
    var s, v := Both([OfType("number"), OfType("string")], [OfType("string")]), String("1");
    NumberOfOne(lib);
    NumberIsTaken(lib, s);
    OnlyTextIsValid(lib, s, v);
    BackToOne(lib, s);
    BothCoerce(lib, v, s);
  }

  lemma OnlyTextIsValid(lib: Library, s: Schema, v: Value)
    requires s == Both([OfType("number"), OfType("string")], [OfType("string")]) && lib.holds(0, v) && Valid(lib, OfType("string"), v)
    ensures Valid(lib, s, v)
  {
    assert s.anyOf[1] == OfType("string") == s.oneOf[0];
  }

  lemma BackToOne(lib: Library, s: Schema)
    requires s.oneOf == [OfType("string")] && Valid(lib, OfType("string"), String("1"))
    ensures FirstAlternative(lib, Number("1"), s, s.oneOf, 0) == String("1")
  {
    hide Valid, Coerce;
    CoerceToType(lib, Number("1"), "string");
  }

  lemma BothCoerce(lib: Library, v: Value, s: Schema)
    requires s.allOf == [] && s.types == [] && FirstAlternative(lib, v, s, s.anyOf, 0) == Number("1")
    requires FirstAlternative(lib, Number("1"), s, s.oneOf, 0) == String("1")
    ensures Coerce(lib, v, s) == String("1")
  {
    hide Valid, FirstAlternative;
  }

  /** A later member of `allOf` may undo what alternatives in an earlier one changed. */
  lemma MembersBendBack(lib: Library)
    requires Lawful(lib) && forall v :: lib.holds(0, v)
    ensures var choice := Combining([], [OfType("number"), OfType("string")], []);
      var s, v := Combining([choice, OfType("string")], [], []), String("1");
      Valid(lib, s, v) && Coerce(lib, v, s) == v && !Settled(lib, v, s)
  {
    hide Coerce, Valid, Settled;
    var choice := Combining([], [OfType("number"), OfType("string")], []);
    var s, v := Combining([choice, OfType("string")], [], []), String("1");
    NumberOfOne(lib);
    NumberIsTaken(lib, choice);
    AlternativesChangeValid(lib);
    CoerceToType(lib, Number("1"), "string");
    TwoMembers(lib, v, s);
    MembersValid(lib, v, s);
    assert s.allOf[0] == choice;
    SettledMembers(lib, v, s);
  }

  lemma SettledMembers(lib: Library, v: Value, s: Schema)
    requires s.allOf != []
    ensures Settled(lib, v, s) ==> Settled(lib, v, s.allOf[0])
  {
  }

  lemma TwoMembers(lib: Library, v: Value, s: Schema)
    requires |s.allOf| == 2 && s == Combining(s.allOf, [], [])
    ensures Coerce(lib, v, s) == Coerce(lib, Coerce(lib, v, s.allOf[0]), s.allOf[1])
  {
    assert AfterAllOf(lib, v, s, 1) == Coerce(lib, v, s.allOf[0]);
  }

  lemma MembersValid(lib: Library, v: Value, s: Schema)
    requires |s.allOf| == 2 && s == Combining(s.allOf, [], []) && lib.holds(0, v)
    requires Valid(lib, s.allOf[0], v) && Valid(lib, s.allOf[1], v)
    ensures Valid(lib, s, v)
  {
  }
}
