/**
 Tool arguments against a JSON schema: a value is first bent towards the types the
 schema names, then checked.
 */
module ToolValidation {
  import Fuzzy

  import opened Wrappers

  datatype Value =
    | Null
    | Bool(flag: bool)
    | Number(numeral: string)
    | String(text: string)
    | Array(elements: seq<Value>)
    | Object(fields: map<string, Value>)

  datatype Additional = Anything | Nothing | Matching(schema: Schema)
  datatype Items = NoItems | Each(schema: Schema) | Tuple(schemas: seq<Schema>)

  /** `limits` stands for the keywords that look at one value and no schema: lengths, bounds, pattern, const, enum. */
  datatype Schema = Schema(allOf: seq<Schema>, anyOf: seq<Schema>, oneOf: seq<Schema>, forbidden: Option<Schema>,
                           types: seq<string>, properties: map<string, Schema>, required: seq<string>,
                           additional: Additional, items: Items, limits: nat)

  datatype Float = Finite(value: real) | Infinite(negative: bool) | NotANumber

  /** Reading and writing numerals, and checking limits. */
  datatype Library = Library(float: string -> Option<Float>, int64: string -> bool, format: Float -> string,
                             holds: (nat, Value) -> bool)

  /** White space is no number, a number that was read is read again from what it is written as, and zero and one are
      written with one digit. */
  ghost predicate Lawful(lib: Library) {
    && (forall t :: lib.float(t).Some? ==> !Fuzzy.Blank(t))
    && (forall t :: lib.float(t).Some? ==> lib.float(lib.format(lib.float(t).value)) == lib.float(t))
    && lib.format(Finite(0.0)) == "0" && lib.format(Finite(1.0)) == "1"
    && lib.int64("0") && lib.int64("1") && lib.float("0") == Some(Finite(0.0)) && lib.float("1") == Some(Finite(1.0))
  }

  predicate Whole(f: Float) {
    match f
    case Finite(r) => r.Floor as real == r
    case Infinite(_) => true
    case NotANumber => false
  }

  predicate Reads(lib: Library, v: Value, r: real) {
    v.Number? && lib.float(v.numeral) == Some(Finite(r))
  }

  predicate MatchesType(lib: Library, v: Value, t: string) {
    match t
    case "object" => v.Object?
    case "array" => v.Array?
    case "string" => v.String?
    case "number" => v.Number? && lib.float(v.numeral).Some?
    case "integer" => v.Number? && lib.int64(v.numeral)
    case "boolean" => v.Bool?
    case "null" => v.Null?
    case _ => false
  }

  /** The value bent to one type, if it bends. */
  function CoercePrimitive(lib: Library, v: Value, t: string): Option<Value> {
    match t
    case "number" =>
      (match v
       case Null => Some(Number("0"))
       case Bool(flag) => Some(Number(if flag then "1" else "0"))
       case String(text) =>
         if !Fuzzy.Blank(text) && lib.float(text).Some? && lib.float(text).value.Finite? then Some(Number(text)) else None
       case _ => None)
    case "integer" =>
      (match v
       case Null => Some(Number("0"))
       case Bool(flag) => Some(Number(if flag then "1" else "0"))
       case String(text) =>
         if !Fuzzy.Blank(text) && lib.float(text).Some? && Whole(lib.float(text).value)
         then Some(Number(lib.format(lib.float(text).value))) else None
       case _ => None)
    case "boolean" =>
      if v == Null then Some(Bool(false))
      else if v == String("true") || v == String("false") then Some(Bool(v == String("true")))
      else if Reads(lib, v, 0.0) || Reads(lib, v, 1.0) then Some(Bool(Reads(lib, v, 1.0)))
      else None
    case "string" =>
      (match v
       case Null => Some(String(""))
       case Number(numeral) => Some(String(numeral))
       case Bool(flag) => Some(String(if flag then "true" else "false"))
       case _ => None)
    case "null" =>
      if v == String("") || v == Bool(false) || Reads(lib, v, 0.0) then Some(Null) else None
    case _ => None
  }

  /** The value bent to the first type it bends to. */
  function FirstChange(lib: Library, v: Value, types: seq<string>, i: nat): Value
    requires i <= |types|
    decreases |types| - i
  {
    if i == |types| then v
    else
      match CoercePrimitive(lib, v, types[i])
      case Some(bent) => bent
      case None => FirstChange(lib, v, types, i + 1)
  }

  predicate AnyTypeMatches(lib: Library, v: Value, types: seq<string>) {
    exists i :: 0 <= i < |types| && MatchesType(lib, v, types[i])
  }

  function Bent(lib: Library, v: Value, types: seq<string>): Value {
    if |types| > 1 && AnyTypeMatches(lib, v, types) then v else FirstChange(lib, v, types, 0)
  }

  // ---------------------------------------------------------------- checking

  /** The type whose checks apply: the only one named, or the first the value has; none when it has none of several. */
  function ChosenType(lib: Library, v: Value, types: seq<string>): (t: Option<string>)
    ensures |types| > 1 && t.Some? ==> t.value in types && MatchesType(lib, v, t.value)
    ensures |types| > 1 && t.None? ==> !AnyTypeMatches(lib, v, types)
  {
    if types == [] then Some("") else if |types| == 1 then Some(types[0]) else FirstMatch(lib, v, types, 0)
  }

  function FirstMatch(lib: Library, v: Value, types: seq<string>, i: nat): (t: Option<string>)
    requires i <= |types|
    ensures t.Some? ==> t.value in types && MatchesType(lib, v, t.value)
    ensures t.None? ==> forall j :: i <= j < |types| ==> !MatchesType(lib, v, types[j])
    decreases |types| - i
  {
    if i == |types| then None else if MatchesType(lib, v, types[i]) then Some(types[i]) else FirstMatch(lib, v, types, i + 1)
  }

  /** The schema that applies to a field, if any. */
  function FieldSchema(s: Schema, key: string): (f: Option<Schema>)
    ensures f.Some? ==> f.value < s
  {
    if key in s.properties then Some(s.properties[key])
    else if s.additional.Matching? then Some(s.additional.schema)
    else None
  }

  /** The schema that applies to an array element, if any. */
  function ElementSchema(s: Schema, i: nat): (e: Option<Schema>)
    ensures e.Some? ==> e.value < s
  {
    match s.items
    case NoItems => None
    case Each(schema) => Some(schema)
    case Tuple(schemas) => if i < |schemas| then Some(schemas[i]) else None
  }

  predicate Valid(lib: Library, s: Schema, v: Value)
    decreases s
  {
    && (forall i :: 0 <= i < |s.allOf| ==> Valid(lib, s.allOf[i], v))
    && (s.anyOf != [] ==> exists i :: 0 <= i < |s.anyOf| && Valid(lib, s.anyOf[i], v))
    && (s.oneOf != [] ==> exists i :: 0 <= i < |s.oneOf| && Valid(lib, s.oneOf[i], v)
                            && forall j :: 0 <= j < |s.oneOf| && Valid(lib, s.oneOf[j], v) ==> j == i)
    && (s.forbidden.Some? ==> !Valid(lib, s.forbidden.value, v))
    && ChosenType(lib, v, s.types).Some?
    && (match ChosenType(lib, v, s.types).value
        case "object" =>
          && v.Object?
          && (forall i :: 0 <= i < |s.required| ==> s.required[i] in v.fields)
          && (forall k :: k in v.fields ==>
                && (k in s.properties || !s.additional.Nothing?)
                && (FieldSchema(s, k).Some? ==> Valid(lib, FieldSchema(s, k).value, v.fields[k])))
        case "array" =>
          && v.Array?
          && (forall i :: 0 <= i < |v.elements| && ElementSchema(s, i).Some? ==> Valid(lib, ElementSchema(s, i).value, v.elements[i]))
        case t => t in ["string", "number", "integer", "boolean", "null"] ==> MatchesType(lib, v, t))
    && lib.holds(s.limits, v)
  }

  // ---------------------------------------------------------------- bending

  function Coerce(lib: Library, v: Value, s: Schema): Value
    decreases s, 1
  {
    var all := AfterAllOf(lib, v, s, |s.allOf|);
    var some := FirstAlternative(lib, all, s, s.anyOf, 0);
    var one := FirstAlternative(lib, some, s, s.oneOf, 0);
    Inside(lib, Bent(lib, one, s.types), s)
  }

  /** Bends what is inside an object or an array the schema allows. */
  function Inside(lib: Library, v: Value, s: Schema): Value
    decreases s, 0
  {
    if v.Object? && "object" in s.types then
      Object(map k | k in v.fields ::
               if FieldSchema(s, k).Some? then Coerce(lib, v.fields[k], FieldSchema(s, k).value) else v.fields[k])
    else if v.Array? && "array" in s.types then
      Array(seq(|v.elements|, i requires 0 <= i < |v.elements| =>
              if ElementSchema(s, i).Some? then Coerce(lib, v.elements[i], ElementSchema(s, i).value) else v.elements[i]))
    else v
  }

  function AfterAllOf(lib: Library, v: Value, s: Schema, n: nat): Value
    requires n <= |s.allOf|
    decreases s, 0, n
  {
    if n == 0 then v else Coerce(lib, AfterAllOf(lib, v, s, n - 1), s.allOf[n - 1])
  }

  /** The value bent by the first alternative it then satisfies. */
  function FirstAlternative(lib: Library, v: Value, s: Schema, alternatives: seq<Schema>, i: nat): Value
    requires i <= |alternatives| && (alternatives == s.anyOf || alternatives == s.oneOf)
    decreases s, 0, |alternatives| - i
  {
    if i == |alternatives| then v
    else
      var candidate := Coerce(lib, v, alternatives[i]);
      if Valid(lib, alternatives[i], candidate) then candidate else FirstAlternative(lib, v, s, alternatives, i + 1)
  }

  // ---------------------------------------------------------------- checking, step by step

  datatype Step = Field(key: string) | Element(index: nat)

  datatype Problem =
    | NoneMatches | NotExactlyOne | Forbidden | WrongType | MissingProperty(key: string) | UnexpectedProperty | OutOfLimits

  datatype SchemaError = SchemaError(path: seq<Step>, problem: Problem)

  predicate AlternativesHold(lib: Library, s: Schema, v: Value) {
    && (s.anyOf != [] ==> exists i :: 0 <= i < |s.anyOf| && Valid(lib, s.anyOf[i], v))
    && (s.oneOf != [] ==> exists i :: 0 <= i < |s.oneOf| && Valid(lib, s.oneOf[i], v)
                            && forall j :: 0 <= j < |s.oneOf| && Valid(lib, s.oneOf[j], v) ==> j == i)
    && (s.forbidden.Some? ==> !Valid(lib, s.forbidden.value, v))
  }

  predicate AllOfHold(lib: Library, s: Schema, v: Value) {
    forall i :: 0 <= i < |s.allOf| ==> Valid(lib, s.allOf[i], v)
  }

  predicate FieldHolds(lib: Library, s: Schema, v: Value, k: string)
    requires v.Object? && k in v.fields
  {
    && (k in s.properties || !s.additional.Nothing?)
    && (FieldSchema(s, k).Some? ==> Valid(lib, FieldSchema(s, k).value, v.fields[k]))
  }

  predicate ObjectHolds(lib: Library, s: Schema, v: Value)
    requires v.Object?
  {
    && (forall i :: 0 <= i < |s.required| ==> s.required[i] in v.fields)
    && (forall k :: k in v.fields ==> FieldHolds(lib, s, v, k))
  }

  predicate ArrayHolds(lib: Library, s: Schema, v: Value)
    requires v.Array?
  {
    forall i :: 0 <= i < |v.elements| && ElementSchema(s, i).Some? ==> Valid(lib, ElementSchema(s, i).value, v.elements[i])
  }

  predicate TypeHolds(lib: Library, s: Schema, v: Value) {
    && ChosenType(lib, v, s.types).Some?
    && (match ChosenType(lib, v, s.types).value
        case "object" => v.Object? && ObjectHolds(lib, s, v)
        case "array" => v.Array? && ArrayHolds(lib, s, v)
        case t => t in ["string", "number", "integer", "boolean", "null"] ==> MatchesType(lib, v, t))
  }

  lemma ValidIsParts(lib: Library, s: Schema, v: Value)
    ensures Valid(lib, s, v) <==>
            AllOfHold(lib, s, v) && AlternativesHold(lib, s, v) && TypeHolds(lib, s, v) && lib.holds(s.limits, v)
  {
    hide ChosenType, MatchesType, FieldSchema, ElementSchema;
    if Valid(lib, s, v) {
      if ChosenType(lib, v, s.types).value == "object" {
        forall k | k in v.fields ensures FieldHolds(lib, s, v, k) {
        }
      }
    }
  }

  /** The problem is one of the value found at this place in it, by the schema that applies there. */
  predicate Wrong(lib: Library, s: Schema, v: Value, place: seq<Step>, problem: Problem)
    decreases s, 1
  {
    || (exists i :: 0 <= i < |s.allOf| && Wrong(lib, s.allOf[i], v, place, problem))
    || (place == [] && WrongHere(lib, s, v, problem))
    || (place != [] && place[0].Field? && WrongInField(lib, s, v, place[0].key, place[1..], problem))
    || (place != [] && place[0].Element? && WrongInElement(lib, s, v, place[0].index, place[1..], problem))
  }

  predicate WrongHere(lib: Library, s: Schema, v: Value, problem: Problem) {
    match problem
    case NoneMatches => s.anyOf != [] && forall i :: 0 <= i < |s.anyOf| ==> !Valid(lib, s.anyOf[i], v)
    case NotExactlyOne =>
      s.oneOf != [] && forall i :: 0 <= i < |s.oneOf| && Valid(lib, s.oneOf[i], v) ==>
        exists j :: 0 <= j < |s.oneOf| && j != i && Valid(lib, s.oneOf[j], v)
    case Forbidden => s.forbidden.Some? && Valid(lib, s.forbidden.value, v)
    case WrongType => !TypeFits(lib, v, s.types)
    case MissingProperty(key) => "object" in s.types && v.Object? && key in s.required && key !in v.fields
    case UnexpectedProperty => false
    case OutOfLimits => !lib.holds(s.limits, v)
  }

  predicate WrongInField(lib: Library, s: Schema, v: Value, key: string, rest: seq<Step>, problem: Problem)
    decreases s, 0
  {
    "object" in s.types && v.Object? && key in v.fields &&
    ((rest == [] && problem == UnexpectedProperty && key !in s.properties && s.additional.Nothing?)
     || (FieldSchema(s, key).Some? && Wrong(lib, FieldSchema(s, key).value, v.fields[key], rest, problem)))
  }

  predicate WrongInElement(lib: Library, s: Schema, v: Value, i: nat, rest: seq<Step>, problem: Problem)
    decreases s, 0
  {
    "array" in s.types && v.Array? && i < |v.elements|
    && ElementSchema(s, i).Some? && Wrong(lib, ElementSchema(s, i).value, v.elements[i], rest, problem)
  }

  /** The value has the type named, or one of those named. */
  predicate TypeFits(lib: Library, v: Value, types: seq<string>) {
    match ChosenType(lib, v, types)
    case None => false
    case Some(t) => t in ["object", "array", "string", "number", "integer", "boolean", "null"] ==> MatchesType(lib, v, t)
  }

  /** What was added to the errors are problems of the value, each under the path to it. */
  ghost predicate Reports(lib: Library, s: Schema, v: Value, path: seq<Step>, errors: seq<SchemaError>, out: seq<SchemaError>) {
    errors <= out && forall n :: |errors| <= n < |out| ==> Reported(lib, s, v, path, out[n])
  }

  ghost predicate Reported(lib: Library, s: Schema, v: Value, path: seq<Step>, e: SchemaError) {
    path <= e.path && Wrong(lib, s, v, e.path[|path|..], e.problem)
  }

  lemma ReportsNothing(lib: Library, s: Schema, v: Value, path: seq<Step>, errors: seq<SchemaError>)
    ensures Reports(lib, s, v, path, errors, errors)
  {
  }

  lemma ReportsOn(lib: Library, s: Schema, v: Value, path: seq<Step>, a: seq<SchemaError>, b: seq<SchemaError>, c: seq<SchemaError>)
    requires Reports(lib, s, v, path, a, b) && Reports(lib, s, v, path, b, c)
    ensures Reports(lib, s, v, path, a, c)
  {
    hide Reported;
  }

  lemma ReportsHere(lib: Library, s: Schema, v: Value, path: seq<Step>, errors: seq<SchemaError>, problem: Problem)
    requires WrongHere(lib, s, v, problem)
    ensures Reports(lib, s, v, path, errors, errors + [SchemaError(path, problem)])
  {
    hide WrongHere;
    assert path[|path|..] == [];
  }

  lemma ReportsMember(lib: Library, s: Schema, v: Value, i: nat, path: seq<Step>, errors: seq<SchemaError>, out: seq<SchemaError>)
    requires i < |s.allOf| && Reports(lib, s.allOf[i], v, path, errors, out)
    ensures Reports(lib, s, v, path, errors, out)
  {
    hide Wrong, WrongHere;
    forall n | |errors| <= n < |out| ensures Reported(lib, s, v, path, out[n]) {
      assert Reported(lib, s.allOf[i], v, path, out[n]);
      WrongMember(lib, s, v, i, out[n].path[|path|..], out[n].problem);
    }
  }

  lemma WrongMember(lib: Library, s: Schema, v: Value, i: nat, place: seq<Step>, problem: Problem)
    requires i < |s.allOf| && Wrong(lib, s.allOf[i], v, place, problem)
    ensures Wrong(lib, s, v, place, problem)
  {
    hide WrongHere, WrongInField, WrongInElement;
  }

  lemma ReportsField(lib: Library, s: Schema, v: Value, key: string, path: seq<Step>, errors: seq<SchemaError>, out: seq<SchemaError>)
    requires "object" in s.types && v.Object? && key in v.fields && FieldSchema(s, key).Some?
    requires Reports(lib, FieldSchema(s, key).value, v.fields[key], path + [Field(key)], errors, out)
    ensures Reports(lib, s, v, path, errors, out)
  {
    hide Wrong, WrongHere, FieldSchema;
    forall n | |errors| <= n < |out| ensures Reported(lib, s, v, path, out[n]) {
      var below, place := path + [Field(key)], out[n].path[|path|..];
      assert Reported(lib, FieldSchema(s, key).value, v.fields[key], below, out[n]);
      assert out[n].path[|path|] == below[|path|];
      assert place[0] == Field(key) && place[1..] == out[n].path[|below|..];
      WrongField(lib, s, v, key, place, out[n].problem);
    }
  }

  lemma WrongField(lib: Library, s: Schema, v: Value, key: string, place: seq<Step>, problem: Problem)
    requires place != [] && place[0] == Field(key) && WrongInField(lib, s, v, key, place[1..], problem)
    ensures Wrong(lib, s, v, place, problem)
  {
    hide WrongHere, WrongInField, WrongInElement;
  }

  lemma ReportsUnexpected(lib: Library, s: Schema, v: Value, key: string, path: seq<Step>, errors: seq<SchemaError>)
    requires "object" in s.types && v.Object? && key in v.fields && key !in s.properties && s.additional.Nothing?
    ensures Reports(lib, s, v, path, errors, errors + [SchemaError(path + [Field(key)], UnexpectedProperty)])
  {
    hide Wrong, WrongHere, FieldSchema;
    var place := (path + [Field(key)])[|path|..];
    assert place == [Field(key)] && place[1..] == [];
    WrongField(lib, s, v, key, place, UnexpectedProperty);
  }

  lemma ReportsElement(lib: Library, s: Schema, v: Value, i: nat, path: seq<Step>, errors: seq<SchemaError>, out: seq<SchemaError>)
    requires "array" in s.types && v.Array? && i < |v.elements| && ElementSchema(s, i).Some?
    requires Reports(lib, ElementSchema(s, i).value, v.elements[i], path + [Element(i)], errors, out)
    ensures Reports(lib, s, v, path, errors, out)
  {
    hide Wrong, WrongHere, ElementSchema;
    forall n | |errors| <= n < |out| ensures Reported(lib, s, v, path, out[n]) {
      var below, place := path + [Element(i)], out[n].path[|path|..];
      assert Reported(lib, ElementSchema(s, i).value, v.elements[i], below, out[n]);
      assert out[n].path[|path|] == below[|path|];
      assert place[0] == Element(i) && place[1..] == out[n].path[|below|..];
      WrongElement(lib, s, v, i, place, out[n].problem);
    }
  }

  lemma WrongElement(lib: Library, s: Schema, v: Value, i: nat, place: seq<Step>, problem: Problem)
    requires place != [] && place[0] == Element(i) && WrongInElement(lib, s, v, i, place[1..], problem)
    ensures Wrong(lib, s, v, place, problem)
  {
    hide WrongHere, WrongInField, WrongInElement;
  }

  /** Adds to the errors it is given, and adds none exactly when the value is valid; what it adds is true of the value. */
  method ValidateAt(lib: Library, s: Schema, v: Value, path: seq<Step>, errors: seq<SchemaError>) returns (out: seq<SchemaError>)
    ensures out == errors <==> Valid(lib, s, v)
    ensures Reports(lib, s, v, path, errors, out)
    decreases s, 2
  {
    hide Valid, TypeHolds, AllOfHold, AlternativesHold, Reported;
    ValidIsParts(lib, s, v);
    out := ValidateAllOf(lib, s, v, path, errors);
    ghost var first := out;
    out := ValidateAlternatives(lib, s, v, path, out);
    ghost var second := out;
    ReportsOn(lib, s, v, path, errors, first, second);
    var wrongType;
    out, wrongType := ValidateType(lib, s, v, path, out);
    ReportsOn(lib, s, v, path, errors, second, out);
    if wrongType {
      return;
    }
    if !lib.holds(s.limits, v) {
      ReportsHere(lib, s, v, path, out, OutOfLimits);
      ReportsOn(lib, s, v, path, errors, out, out + [SchemaError(path, OutOfLimits)]);
      out := out + [SchemaError(path, OutOfLimits)];
    }
  }

  method ValidateAllOf(lib: Library, s: Schema, v: Value, path: seq<Step>, errors: seq<SchemaError>) returns (out: seq<SchemaError>)
    ensures out == errors <==> AllOfHold(lib, s, v)
    ensures Reports(lib, s, v, path, errors, out)
    decreases s, 1
  {
    hide Valid, Reported;
    out := errors;
    for i := 0 to |s.allOf|
      invariant Reports(lib, s, v, path, errors, out)
      invariant out == errors <==> forall j :: 0 <= j < i ==> Valid(lib, s.allOf[j], v)
    {
      ghost var before := out;
      out := ValidateAt(lib, s.allOf[i], v, path, out);
      ReportsMember(lib, s, v, i, path, before, out);
      ReportsOn(lib, s, v, path, errors, before, out);
    }
  }

  /** The loop over `anyOf`, which stops at the first that is satisfied. */
  method SomeMatches(lib: Library, s: Schema, v: Value, path: seq<Step>) returns (matched: bool)
    ensures matched <==> exists i :: 0 <= i < |s.anyOf| && Valid(lib, s.anyOf[i], v)
    decreases s, 0
  {
    hide Valid;
    for i := 0 to |s.anyOf|
      invariant forall j :: 0 <= j < i ==> !Valid(lib, s.anyOf[j], v)
    {
      var found := ValidateAt(lib, s.anyOf[i], v, path, []);
      if |found| == 0 {
        return true;
      }
    }
    return false;
  }

  /** The loop over `oneOf`, which counts those that are satisfied. */
  method ExactlyOneMatches(lib: Library, s: Schema, v: Value, path: seq<Step>) returns (one: bool)
    ensures one <==> exists i :: 0 <= i < |s.oneOf| && Valid(lib, s.oneOf[i], v)
                                 && forall j :: 0 <= j < |s.oneOf| && Valid(lib, s.oneOf[j], v) ==> j == i
    decreases s, 0
  {
    hide Valid;
    var matched: nat := 0;
    ghost var which := 0;
    for i := 0 to |s.oneOf|
      invariant matched == 0 ==> forall j :: 0 <= j < i ==> !Valid(lib, s.oneOf[j], v)
      invariant matched > 0 ==> 0 <= which < i && Valid(lib, s.oneOf[which], v)
      invariant matched == 1 ==> forall j :: 0 <= j < i && Valid(lib, s.oneOf[j], v) ==> j == which
      invariant matched > 1 ==> exists j :: 0 <= j < which && Valid(lib, s.oneOf[j], v)
    {
      var found := ValidateAt(lib, s.oneOf[i], v, path, []);
      if |found| == 0 {
        matched, which := matched + 1, i;
      }
    }
    one := matched == 1;
  }

  method ValidateAlternatives(lib: Library, s: Schema, v: Value, path: seq<Step>, errors: seq<SchemaError>)
    returns (out: seq<SchemaError>)
    ensures out == errors <==> AlternativesHold(lib, s, v)
    ensures Reports(lib, s, v, path, errors, out)
    decreases s, 1
  {
    hide Valid, Reported;
    out := errors;
    if |s.anyOf| > 0 {
      var matched := SomeMatches(lib, s, v, path);
      if !matched {
        ReportsHere(lib, s, v, path, out, NoneMatches);
        out := out + [SchemaError(path, NoneMatches)];
      }
    }
    if |s.oneOf| > 0 {
      var one := ExactlyOneMatches(lib, s, v, path);
      if !one {
        ReportsHere(lib, s, v, path, out, NotExactlyOne);
        ReportsOn(lib, s, v, path, errors, out, out + [SchemaError(path, NotExactlyOne)]);
        out := out + [SchemaError(path, NotExactlyOne)];
      }
    }
    if s.forbidden.Some? {
      var found := ValidateAt(lib, s.forbidden.value, v, path, []);
      if |found| == 0 {
        ReportsHere(lib, s, v, path, out, Forbidden);
        ReportsOn(lib, s, v, path, errors, out, out + [SchemaError(path, Forbidden)]);
        out := out + [SchemaError(path, Forbidden)];
      }
    }
  }

  /** `wrong` when the value does not have the kind of type the remaining checks need. */
  method ValidateType(lib: Library, s: Schema, v: Value, path: seq<Step>, errors: seq<SchemaError>)
    returns (out: seq<SchemaError>, wrong: bool)
    ensures wrong ==> out != errors
    ensures out == errors <==> TypeHolds(lib, s, v)
    ensures Reports(lib, s, v, path, errors, out)
    decreases s, 1
  {
    hide ObjectHolds, ArrayHolds, FirstMatch, Reported;
    ReportsNothing(lib, s, v, path, errors);
    var chosen := ChosenType(lib, v, s.types);
    ChosenIsListed(lib, v, s.types);
    if !TypeFits(lib, v, s.types) {
      ReportsHere(lib, s, v, path, errors, WrongType);
    }
    if chosen.None? {
      return errors + [SchemaError(path, WrongType)], true;
    }
    wrong := false;
    match chosen.value
    case "object" =>
      if !v.Object? {
        return errors + [SchemaError(path, WrongType)], true;
      }
      out := ValidateObject(lib, s, v, path, errors);
    case "array" =>
      if !v.Array? {
        return errors + [SchemaError(path, WrongType)], true;
      }
      out := ValidateArray(lib, s, v, path, errors);
    case t =>
      out := errors;
      if t in ["string", "number", "integer", "boolean", "null"] && !MatchesType(lib, v, t) {
        out := out + [SchemaError(path, WrongType)];
      }
  }

  lemma ChosenIsListed(lib: Library, v: Value, types: seq<string>)
    ensures ChosenType(lib, v, types).Some? && ChosenType(lib, v, types).value != "" ==> ChosenType(lib, v, types).value in types
  {
    hide MatchesType, FirstMatch;
  }

  method ValidateObject(lib: Library, s: Schema, v: Value, path: seq<Step>, errors: seq<SchemaError>) returns (out: seq<SchemaError>)
    requires v.Object?
    ensures errors <= out
    ensures out == errors <==> ObjectHolds(lib, s, v)
    ensures "object" in s.types ==> Reports(lib, s, v, path, errors, out)
    decreases s, 0
  {
    hide Valid, FieldSchema, Reported;
    out := errors;
    for i := 0 to |s.required|
      invariant errors <= out && ("object" in s.types ==> Reports(lib, s, v, path, errors, out))
      invariant out == errors <==> forall j :: 0 <= j < i ==> s.required[j] in v.fields
    {
      if s.required[i] !in v.fields {
        if "object" in s.types {
          ReportsHere(lib, s, v, path, out, MissingProperty(s.required[i]));
          ReportsOn(lib, s, v, path, errors, out, out + [SchemaError(path, MissingProperty(s.required[i]))]);
        }
        out := out + [SchemaError(path, MissingProperty(s.required[i]))];
      }
    }
    ghost var before := out;
    var left := v.fields.Keys;
    while left != {}
      invariant left <= v.fields.Keys && before <= out && ("object" in s.types ==> Reports(lib, s, v, path, errors, out))
      invariant out == before <==> forall k :: k in v.fields && k !in left ==> FieldHolds(lib, s, v, k)
    {
      var key :| key in left;
      left := left - {key};
      var schema := FieldSchema(s, key);
      if key !in s.properties && s.additional.Nothing? {
        if "object" in s.types {
          ReportsUnexpected(lib, s, v, key, path, out);
          ReportsOn(lib, s, v, path, errors, out, out + [SchemaError(path + [Field(key)], UnexpectedProperty)]);
        }
        out := out + [SchemaError(path + [Field(key)], UnexpectedProperty)];
      } else if schema.Some? {
        ghost var already := out;
        out := ValidateAt(lib, schema.value, v.fields[key], path + [Field(key)], out);
        if "object" in s.types {
          ReportsField(lib, s, v, key, path, already, out);
          ReportsOn(lib, s, v, path, errors, already, out);
        }
      }
    }
  }

  method ValidateArray(lib: Library, s: Schema, v: Value, path: seq<Step>, errors: seq<SchemaError>) returns (out: seq<SchemaError>)
    requires v.Array?
    ensures errors <= out
    ensures out == errors <==> ArrayHolds(lib, s, v)
    ensures "array" in s.types ==> Reports(lib, s, v, path, errors, out)
    decreases s, 0
  {
    hide Valid, ElementSchema, Reported;
    out := errors;
    for i := 0 to |v.elements|
      invariant errors <= out && ("array" in s.types ==> Reports(lib, s, v, path, errors, out))
      invariant out == errors <==> forall j :: 0 <= j < i && ElementSchema(s, j).Some? ==>
                  Valid(lib, ElementSchema(s, j).value, v.elements[j])
    {
      var schema := ElementSchema(s, i);
      if schema.Some? {
        ghost var already := out;
        out := ValidateAt(lib, schema.value, v.elements[i], path + [Element(i)], out);
        if "array" in s.types {
          ReportsElement(lib, s, v, i, path, already, out);
          ReportsOn(lib, s, v, path, errors, already, out);
        }
      }
    }
  }

  // ---------------------------------------------------------------- bending in place

  /** The elements of a decoded array are replaced one by one. */
  method CoerceElements(lib: Library, elements: array<Value>, s: Schema)
    requires "array" in s.types
    modifies elements
    ensures Array(elements[..]) == Inside(lib, Array(old(elements[..])), s)
  {
    hide Coerce, ElementSchema;
    for i := 0 to elements.Length
      invariant forall j :: i <= j < elements.Length ==> elements[j] == old(elements[j])
      invariant forall j :: 0 <= j < i ==>
                  elements[j] == (if ElementSchema(s, j).Some? then Coerce(lib, old(elements[j]), ElementSchema(s, j).value)
                                  else old(elements[j]))
    {
      if ElementSchema(s, i).Some? {
        elements[i] := Coerce(lib, elements[i], ElementSchema(s, i).value);
      }
    }
    assert elements[..] == Inside(lib, Array(old(elements[..])), s).elements;
  }

  class Fields {
    var entries: map<string, Value>

    method CoerceNamed(lib: Library, s: Schema)
      modifies this
      ensures entries == map k | k in old(entries) ::
                if k in s.properties then Coerce(lib, old(entries)[k], s.properties[k]) else old(entries)[k]
    {
      hide Coerce;
      var left := s.properties.Keys;
      while left != {}
        invariant left <= s.properties.Keys
        invariant entries == map k | k in old(entries) ::
                    if k in s.properties && k !in left then Coerce(lib, old(entries)[k], s.properties[k]) else old(entries)[k]
      {
        var key :| key in left;
        left := left - {key};
        if key in entries {
          entries := entries[key := Coerce(lib, entries[key], s.properties[key])];
        }
      }
    }

    method CoerceOthers(lib: Library, s: Schema)
      requires s.additional.Matching?
      modifies this
      ensures entries == map k | k in old(entries) ::
                if k !in s.properties then Coerce(lib, old(entries)[k], s.additional.schema) else old(entries)[k]
    {
      hide Coerce;
      var left := entries.Keys;
      while left != {}
        invariant left <= old(entries).Keys
        invariant entries == map k | k in old(entries) ::
                    if k !in s.properties && k !in left then Coerce(lib, old(entries)[k], s.additional.schema)
                    else old(entries)[k]
      {
        var key :| key in left;
        left := left - {key};
        if key !in s.properties {
          entries := entries[key := Coerce(lib, entries[key], s.additional.schema)];
        }
      }
    }

    /** The named properties first, then, where the schema has one for them, all the others. */
    method CoerceFields(lib: Library, s: Schema)
      requires "object" in s.types
      modifies this
      ensures Object(entries) == Inside(lib, Object(old(entries)), s)
    {
      hide Coerce;
      CoerceNamed(lib, s);
      if s.additional.Matching? {
        CoerceOthers(lib, s);
      }
      assert entries == Inside(lib, Object(old(entries)), s).fields;
    }
  }
}
