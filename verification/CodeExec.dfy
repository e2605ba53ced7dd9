/** The dynamic types of code results (src/code_exec.rs:252-328): inference,
    normalisation and validation on printed type strings. */
module CodeExec {
  import opened Text
  import opened Json

  // ----- the three functions of the source -----

  /** `Array<element>`. */
  function Wrap(element: string): (s: string)
    ensures |s| == |element| + 7
    ensures s[..6] == "Array<" && s[0] == 'A' && s[5] == '<' && s[|s| - 1] == '>'
    ensures s[6..|s| - 1] == element
  {
    "Array<" + element + ">"
  }

  /** `infer_actual_type`. */
  function InferActualType(value: Value): string
    decreases value, 1
  {
    match value
    case Null => "Null"
    case Bool(_) => "Boolean"
    case Number(_) => "Number"
    case String(_) => "String"
    case Object(_) => "Object"
    case Array(items) =>
      if items == [] then "Array<Any>"
      else
        var inferred := InferAll(items);
        if |inferred| == 1 then Wrap(InferActualType(items[0])) else "Array<Any>"
  }

  function InferAll(items: seq<Value>): set<string>
    decreases items, 0
  {
    if items == [] then {} else {InferActualType(items[0])} + InferAll(items[1..])
  }

  function SimpleName(low: string): string {
    if low == "string" then "String"
    else if low == "number" then "Number"
    else if low == "boolean" then "Boolean"
    else if low == "object" then "Object"
    else if low == "null" then "Null"
    else if low == "any" then "Any"
    else ""
  }

  predicate ArrayShaped(low: string) {
    "array<" <= low && EndsWith(low, '>')
  }

  /** Between the first `<` and the last `>` of a trimmed type, trimmed. */
  function Inner(t: string): (r: string)
    requires ArrayShaped(Lower(t))
    ensures |r| < |t|
  {
    assert Lower(t)[5] == '<' && Lower(t)[|t| - 1] == '>';
    Trim(t[6..|t| - 1])
  }

  function NormalizeText(t: string): string
    decreases |t|
  {
    var low := Lower(t);
    if SimpleName(low) != "" then SimpleName(low)
    else if ArrayShaped(low) && Inner(t) != "" then Wrap(NormalizeText(Inner(t)))
    else t
  }

  /** `normalize_expected_type`. */
  function NormalizeExpectedType(expected: string): string {
    NormalizeText(Trim(expected))
  }

  datatype Check = Ok | Mismatch(expected: string, actual: string)

  predicate IsArrayType(etype: string) { "Array<" <= etype && EndsWith(etype, '>') && |etype| >= 7 }

  function ElementType(etype: string): string
    requires IsArrayType(etype)
  {
    etype[6..|etype| - 1]
  }

  /** `validate_expected_type`; the first offending item decides the error. */
  function ValidateExpectedType(expected: string, value: Value): Check
    decreases value, 1
  {
    var etype := NormalizeExpectedType(expected);
    if etype == "" || Lower(etype) == "any" then Ok
    else if IsArrayType(etype) then
      if value.Array? then ValidateItems(ElementType(etype), value.items)
      else Mismatch(etype, InferActualType(value))
    else if InferActualType(value) != etype then Mismatch(etype, InferActualType(value))
    else Ok
  }

  function ValidateItems(element: string, items: seq<Value>): Check
    decreases items, 0
  {
    if items == [] then Ok
    else
      var first := ValidateExpectedType(element, items[0]);
      if first.Ok? then ValidateItems(element, items[1..]) else first
  }

  // ----- types and their meaning -----

  datatype Ty = TyAny | TyNull | TyBoolean | TyNumber | TyString | TyObject | TyArray(element: Ty)

  function Print(ty: Ty): (s: string)
    ensures s != "" && !IsWhitespace(s[0]) && !IsWhitespace(s[|s| - 1])
  {
    match ty
    case TyAny => "Any"
    case TyNull => "Null"
    case TyBoolean => "Boolean"
    case TyNumber => "Number"
    case TyString => "String"
    case TyObject => "Object"
    case TyArray(element) => Wrap(Print(element))
  }

  /** The values a type stands for. */
  predicate Meaning(ty: Ty, value: Value) {
    match ty
    case TyAny => true
    case TyNull => value.Null?
    case TyBoolean => value.Bool?
    case TyNumber => value.Number?
    case TyString => value.String?
    case TyObject => value.Object?
    case TyArray(element) => value.Array? && forall i :: 0 <= i < |value.items| ==> Meaning(element, value.items[i])
  }

  /** The element type is kept only when all items agree on it. */
  ghost function TypeOf(value: Value): Ty {
    match value
    case Null => TyNull
    case Bool(_) => TyBoolean
    case Number(_) => TyNumber
    case String(_) => TyString
    case Object(_) => TyObject
    case Array(items) =>
      if items != [] && forall i :: 0 <= i < |items| ==> TypeOf(items[i]) == TypeOf(items[0])
      then TyArray(TypeOf(items[0])) else TyArray(TyAny)
  }

  /** `s` spells `ty`: any letter case, and white space around every part. */
  ghost predicate Spells(s: string, ty: Ty)
    decreases ty
  {
    var t := Trim(s);
    match ty
    case TyArray(element) =>
      && |t| >= 7 && Lower(t[..6]) == "array<" && t[|t| - 1] == '>'
      && Spells(t[6..|t| - 1], element)
    case _ => Lower(t) == Lower(Print(ty))
  }

  lemma SimplePrints(ty: Ty)
    requires !ty.TyArray?
    ensures SimpleName(Lower(Print(ty))) == Print(ty)
    ensures !ArrayShaped(Lower(Print(ty)))
  {
    match ty {
      case TyAny => assert Lower("Any") == "any";
      case TyNull => assert Lower("Null") == "null";
      case TyBoolean => assert Lower("Boolean") == "boolean";
      case TyNumber => assert Lower("Number") == "number";
      case TyString => assert Lower("String") == "string";
      case TyObject => assert Lower("Object") == "object";
    }
  }

  lemma SimpleNames(low: string)
    requires SimpleName(low) != ""
    ensures exists ty: Ty :: !ty.TyArray? && Print(ty) == SimpleName(low) && low == Lower(Print(ty))
  {
    var ty := if low == "string" then TyString else if low == "number" then TyNumber
              else if low == "boolean" then TyBoolean else if low == "object" then TyObject
              else if low == "null" then TyNull else TyAny;
    assert Lower("String") == "string" && Lower("Number") == "number" && Lower("Boolean") == "boolean";
    assert Lower("Object") == "object" && Lower("Null") == "null" && Lower("Any") == "any";
    assert !ty.TyArray? && Print(ty) == SimpleName(low) && low == Lower(Print(ty));
  }

  /** A string of array shape is no simple name. */
  lemma ArrayIsNotSimple(low: string)
    requires ArrayShaped(low)
    ensures SimpleName(low) == ""
  {
    assert low[5] == '<';
  }

  lemma ArrayShapeOf(t: string)
    ensures ArrayShaped(Lower(t)) <==> |t| >= 7 && Lower(t[..6]) == "array<" && t[|t| - 1] == '>'
  {
    var low := Lower(t);
    if |t| >= 6 {
      assert low[..6] == Lower(t[..6]);
    }
    if ArrayShaped(low) {
      assert low[..6] == "array<" && low[5] == '<';
    }
  }

  lemma WrappedShape(inner: string)
    requires inner != "" && !IsWhitespace(inner[0]) && !IsWhitespace(inner[|inner| - 1])
    ensures var s := Wrap(inner);
            && Trim(s) == s && ArrayShaped(Lower(s)) && SimpleName(Lower(s)) == "" && Inner(s) == inner
  {
    var s := Wrap(inner);
    TrimTrimmed(s);
    LowerArray(s);
    ArrayShapeOf(s);
    ArrayIsNotSimple(Lower(s));
    TrimTrimmed(inner);
  }

  lemma LowerArray(s: string)
    requires |s| >= 6 && s[..6] == "Array<"
    ensures Lower(s[..6]) == "array<"
  {
  }

  /** A normalised non-blank string is trimmed and not empty. */
  lemma {:induction false} NormalizeTrimmed(t: string)
    requires t != "" && !IsWhitespace(t[0]) && !IsWhitespace(t[|t| - 1])
    ensures var n := NormalizeText(t);
            n != "" && !IsWhitespace(n[0]) && !IsWhitespace(n[|n| - 1])
  {
    if SimpleName(Lower(t)) != "" { SimpleNames(Lower(t)); }
  }

  lemma {:induction false} NormalizeTextIdempotent(t: string)
    requires t == Trim(t)
    ensures NormalizeExpectedType(NormalizeText(t)) == NormalizeText(t)
    decreases |t|
  {
    var low := Lower(t);
    if SimpleName(low) != "" {
      SimpleNames(low);
      var ty: Ty :| !ty.TyArray? && Print(ty) == SimpleName(low) && low == Lower(Print(ty));
      PrintedIsNormal(ty);
    } else if ArrayShaped(low) && Inner(t) != "" {
      TrimTrimmed(Inner(t));
      NormalizeTextIdempotent(Inner(t));
      NormalizeTrimmed(Inner(t));
      TrimTrimmed(NormalizeText(Inner(t)));
      WrappedShape(NormalizeText(Inner(t)));
    }
  }

  /** Normalisation is idempotent on every string. */
  lemma NormalizeIdempotent(s: string)
    ensures NormalizeExpectedType(NormalizeExpectedType(s)) == NormalizeExpectedType(s)
  {
    TrimIdempotent(s);
    NormalizeTextIdempotent(Trim(s));
  }

  /** Printed types are fixed points of normalisation. */
  lemma {:induction false} PrintedIsNormal(ty: Ty)
    ensures NormalizeExpectedType(Print(ty)) == Print(ty)
  {
    TrimTrimmed(Print(ty));
    if ty.TyArray? {
      PrintedIsNormal(ty.element);
      WrappedShape(Print(ty.element));
    } else {
      SimplePrints(ty);
    }
  }

  lemma {:induction false} PrintInjective(a: Ty, b: Ty)
    ensures Print(a) == Print(b) <==> a == b
  {
    if Print(a) == Print(b) {
      if a.TyArray? && b.TyArray? {
        var p := Print(a);
        assert p[6..|p| - 1] == Print(a.element) && p[6..|p| - 1] == Print(b.element);
        PrintInjective(a.element, b.element);
      }
    }
  }

  /** Inference prints the type of the value. */
  lemma {:induction false} InferredIsPrinted(value: Value)
    ensures InferActualType(value) == Print(TypeOf(value))
    decreases value
  {
    if value.Array? && value.items != [] {
      var items := value.items;
      InferredIsPrinted(items[0]);
      forall i | 0 <= i < |items|
        ensures InferActualType(items[i]) == InferActualType(items[0]) <==> TypeOf(items[i]) == TypeOf(items[0])
      {
        InferredIsPrinted(items[i]);
        PrintInjective(TypeOf(items[i]), TypeOf(items[0]));
      }
      SingletonWhenEqual(items);
    }
  }

  lemma Singleton(s: set<string>, first: string)
    requires first in s
    ensures |s| == 1 <==> s == {first}
  {
    if |s| == 1 {
      assert |s - {first}| == 0;
      assert s == {first} + (s - {first});
    }
  }

  lemma {:induction false} InferAllElements(items: seq<Value>, i: nat)
    requires i < |items|
    ensures InferActualType(items[i]) in InferAll(items)
  {
    if i > 0 { InferAllElements(items[1..], i - 1); }
  }

  lemma {:induction false} InferAllEqual(items: seq<Value>, first: string)
    requires items != [] && forall i :: 0 <= i < |items| ==> InferActualType(items[i]) == first
    ensures InferAll(items) == {first}
  {
    assert InferActualType(items[0]) == first;
    if |items| > 1 {
      InferAllEqual(items[1..], first);
    } else {
      assert InferAll(items[1..]) == {};
    }
  }

  lemma SingletonWhenEqual(items: seq<Value>)
    requires items != []
    ensures |InferAll(items)| == 1 <==>
            forall i :: 0 <= i < |items| ==> InferActualType(items[i]) == InferActualType(items[0])
  {
    var first := InferActualType(items[0]);
    InferAllElements(items, 0);
    Singleton(InferAll(items), first);
    if InferAll(items) == {first} {
      forall i | 0 <= i < |items| ensures InferActualType(items[i]) == first {
        InferAllElements(items, i);
      }
    } else if forall i :: 0 <= i < |items| ==> InferActualType(items[i]) == first {
      InferAllEqual(items, first);
    }
  }

  /** Every value belongs to its own type. */
  lemma {:induction false} ValueHasItsType(value: Value)
    ensures Meaning(TypeOf(value), value)
    decreases value
  {
    if value.Array? {
      forall i | 0 <= i < |value.items| ensures Meaning(TypeOf(value.items[i]), value.items[i]) {
        ValueHasItsType(value.items[i]);
      }
    }
  }

  // ----- validation means membership -----

  lemma {:induction false} ItemsValidate(element: string, items: seq<Value>)
    ensures ValidateItems(element, items).Ok? <==>
            forall i :: 0 <= i < |items| ==> ValidateExpectedType(element, items[i]).Ok?
  {
    if items != [] {
      ItemsValidate(element, items[1..]);
      assert forall i :: 0 < i < |items| ==> items[i] == items[1..][i - 1];
    }
  }

  /** A string that normalises to an array checks the items against the element. */
  lemma ArrayCheck(expected: string, element: string, value: Value)
    requires NormalizeExpectedType(expected) == Wrap(element)
    ensures ValidateExpectedType(expected, value).Ok? <==> value.Array? && ValidateItems(element, value.items).Ok?
  {
    LowerArrayIsNotAny(element);
    assert IsArrayType(Wrap(element)) && ElementType(Wrap(element)) == element;
  }

  /** Validation accepts exactly the values in the type's meaning, for every string that
      normalises to the type. */
  lemma {:induction false} ValidateMeansMembership(expected: string, ty: Ty, value: Value)
    requires NormalizeExpectedType(expected) == Print(ty)
    ensures ValidateExpectedType(expected, value).Ok? <==> Meaning(ty, value)
    decreases ty
  {
    if ty.TyArray? {
      var element := Print(ty.element);
      ArrayCheck(expected, element, value);
      if value.Array? {
        ItemsValidate(element, value.items);
        PrintedIsNormal(ty.element);
        forall i | 0 <= i < |value.items|
          ensures ValidateExpectedType(element, value.items[i]).Ok? <==> Meaning(ty.element, value.items[i])
        {
          ValidateMeansMembership(element, ty.element, value.items[i]);
        }
      }
    } else {
      ValidateSimple(expected, ty, value);
    }
  }

  lemma LowerArrayIsNotAny(element: string)
    ensures Lower(Wrap(element)) != "any"
  {
    assert |Lower(Wrap(element))| >= 7;
  }

  lemma ValidateSimple(expected: string, ty: Ty, value: Value)
    requires NormalizeExpectedType(expected) == Print(ty) && !ty.TyArray?
    ensures ValidateExpectedType(expected, value).Ok? <==> Meaning(ty, value)
  {
    if ty == TyAny {
      assert Lower("Any") == "any";
    } else {
      NotAny(ty);
      assert ValidateExpectedType(expected, value).Ok? <==> InferActualType(value) == Print(ty);
      InferredSimple(value, ty);
    }
  }

  lemma InferredSimple(value: Value, ty: Ty)
    requires !ty.TyArray? && ty != TyAny
    ensures InferActualType(value) == Print(ty) <==> Meaning(ty, value)
  {
    InferredIsPrinted(value);
    PrintInjective(TypeOf(value), ty);
  }

  lemma ArrayTypeShape(t: string)
    requires IsArrayType(t)
    ensures ArrayShaped(Lower(t))
  {
    LowerArray(t);
    ArrayShapeOf(t);
  }

  lemma NotAny(ty: Ty)
    requires !ty.TyArray? && ty != TyAny
    ensures Lower(Print(ty)) != "any" && !IsArrayType(Print(ty))
  {
    SimplePrints(ty);
    PrintInjective(ty, TyAny);
    if IsArrayType(Print(ty)) { ArrayTypeShape(Print(ty)); }
  }

  /** Every JSON value validates against its own inferred type, and that type is normalised. */
  lemma SelfValidation(value: Value)
    ensures ValidateExpectedType(InferActualType(value), value).Ok?
    ensures NormalizeExpectedType(InferActualType(value)) == InferActualType(value)
  {
    InferredIsPrinted(value);
    PrintedIsNormal(TypeOf(value));
    ValueHasItsType(value);
    ValidateMeansMembership(InferActualType(value), TypeOf(value), value);
  }

  // ----- which strings are types -----

  /** A string normalises to a printed type exactly when it spells that type. */
  lemma {:induction false} SpellingIsNormalization(s: string, ty: Ty)
    ensures Spells(s, ty) <==> NormalizeExpectedType(s) == Print(ty)
    decreases ty
  {
    var low := Lower(Trim(s));
    ArrayShapeOf(Trim(s));
    if ArrayShaped(low) {
      if ty.TyArray? {
        SpellingIsNormalization(Trim(s)[6..|Trim(s)| - 1], ty.element);
        if Inner(Trim(s)) == "" { SpellingOfBlankArray(s, ty.element); } else { SpellingOfArray(s, ty.element); }
      } else {
        NotArrayPrint(s, ty);
      }
    } else {
      SpellingOfSimple(s, ty);
    }
  }

  lemma SpellingOfBlankArray(s: string, element: Ty)
    requires ArrayShaped(Lower(Trim(s))) && Inner(Trim(s)) == ""
    ensures !Spells(s, TyArray(element)) && NormalizeExpectedType(s) != Wrap(Print(element))
  {
    SpelledElement(s, element);
    EmptyInner(s, element);
    EmptyIsRaw(s);
  }

  lemma SpellingOfArray(s: string, element: Ty)
    requires ArrayShaped(Lower(Trim(s))) && Inner(Trim(s)) != ""
    requires var body := Trim(s)[6..|Trim(s)| - 1];
             Spells(body, element) <==> NormalizeExpectedType(body) == Print(element)
    ensures Spells(s, TyArray(element)) <==> NormalizeExpectedType(s) == Wrap(Print(element))
  {
    SpelledElement(s, element);
    WrappedNormal(s, Print(element));
  }

  lemma WrappedNormal(s: string, element: string)
    requires ArrayShaped(Lower(Trim(s))) && Inner(Trim(s)) != ""
    ensures NormalizeExpectedType(s) == Wrap(element)
       <==> NormalizeExpectedType(Trim(s)[6..|Trim(s)| - 1]) == element
  {
    NormalArray(Trim(s));
    WrapInjective(NormalizeExpectedType(Trim(s)[6..|Trim(s)| - 1]), element);
  }

  lemma EmptyIsRaw(s: string)
    requires ArrayShaped(Lower(Trim(s))) && Inner(Trim(s)) == ""
    ensures NormalizeExpectedType(s) == Trim(s)
  {
    ArrayIsNotSimple(Lower(Trim(s)));
  }

  lemma SpelledElement(s: string, element: Ty)
    requires ArrayShaped(Lower(Trim(s)))
    ensures Spells(s, TyArray(element)) <==> Spells(Trim(s)[6..|Trim(s)| - 1], element)
  {
    ArrayShapeOf(Trim(s));
  }

  lemma NormalArray(t: string)
    requires ArrayShaped(Lower(t)) && Inner(t) != ""
    ensures NormalizeText(t) == Wrap(NormalizeExpectedType(t[6..|t| - 1]))
  {
    ArrayIsNotSimple(Lower(t));
  }

  lemma SpellingOfSimple(s: string, ty: Ty)
    requires !ArrayShaped(Lower(Trim(s)))
    ensures Spells(s, ty) <==> NormalizeExpectedType(s) == Print(ty)
  {
    if ty.TyArray? {
      ArrayShapeOf(Trim(s));
      NoArrayFromSimple(s, ty.element);
    } else if SimpleName(Lower(Trim(s))) != "" {
      NamedIsSpelled(s, ty);
    } else {
      SimplePrints(ty);
    }
  }

  lemma NamedIsSpelled(s: string, ty: Ty)
    requires SimpleName(Lower(Trim(s))) != "" && !ty.TyArray?
    ensures Lower(Trim(s)) == Lower(Print(ty)) <==> SimpleName(Lower(Trim(s))) == Print(ty)
  {
    var low := Lower(Trim(s));
    SimplePrints(ty);
    SimpleNames(low);
    var base: Ty :| !base.TyArray? && Print(base) == SimpleName(low) && low == Lower(Print(base));
    PrintInjective(base, ty);
  }

  lemma NoArrayFromSimple(s: string, element: Ty)
    requires !ArrayShaped(Lower(Trim(s)))
    ensures NormalizeExpectedType(s) != Wrap(Print(element))
  {
    WrappedShape(Print(element));
    if SimpleName(Lower(Trim(s))) != "" { SimpleHasNoAngle(Lower(Trim(s))); }
  }

  lemma SimpleHasNoAngle(low: string)
    requires SimpleName(low) != ""
    ensures |SimpleName(low)| < 6 || SimpleName(low)[5] != '<'
  {
  }

  lemma WrapInjective(a: string, b: string)
    ensures Wrap(a) == Wrap(b) <==> a == b
  {
    var s := Wrap(a);
    if s == Wrap(b) {
      assert s[6..|s| - 1] == a && s[6..|s| - 1] == b;
    }
  }

  lemma EmptyInner(s: string, element: Ty)
    requires ArrayShaped(Lower(Trim(s))) && Inner(Trim(s)) == ""
    ensures Trim(s) != Wrap(Print(element))
    ensures !Spells(Trim(s)[6..|Trim(s)| - 1], element)
  {
    var t := Trim(s);
    var body := t[6..|t| - 1];
    assert Trim(body) == "";
    if t == Wrap(Print(element)) {
      assert body == Print(element);
      TrimTrimmed(body);
    }
    assert Lower("") == "";
  }

  lemma NotArrayPrint(s: string, ty: Ty)
    requires ArrayShaped(Lower(Trim(s))) && !ty.TyArray?
    ensures NormalizeExpectedType(s) != Print(ty) && Lower(Trim(s)) != Lower(Print(ty))
  {
    SimplePrints(ty);
    SimpleHasNoAngle(Lower(Print(ty)));
    ArrayIsNotSimple(Lower(Trim(s)));
    assert Trim(s)[5] == '<' by { assert Lower(Trim(s))[5] == '<'; }
    assert NormalizeExpectedType(s)[5] == '<';
  }

  /** Any spelling of a type accepts exactly the values of the type. */
  lemma SpelledTypeAccepts(s: string, ty: Ty, value: Value)
    requires Spells(s, ty)
    ensures ValidateExpectedType(s, value).Ok? <==> Meaning(ty, value)
  {
    SpellingIsNormalization(s, ty);
    ValidateMeansMembership(s, ty, value);
  }

  // ----- what any string accepts -----

  function SimpleTy(low: string): Ty {
    if low == "string" then TyString
    else if low == "number" then TyNumber
    else if low == "boolean" then TyBoolean
    else if low == "object" then TyObject
    else if low == "null" then TyNull
    else TyAny
  }

  /** What a string accepts, read off its trimmed text: nothing asks for nothing, a simple name for its values, an
      array for arrays of what its element accepts, and any other text for what does not exist. Where the element is
      blank letter case matters: capitalised the array takes every array, otherwise no value at all. */
  ghost predicate Accepts(s: string, value: Value)
    decreases |Trim(s)|
  {
    var t := Trim(s);
    var low := Lower(t);
    || t == ""
    || (SimpleName(low) != "" && Meaning(SimpleTy(low), value))
    || (ArrayShaped(low) && value.Array?
        && if Inner(t) == "" then "Array<" <= t
           else forall i :: 0 <= i < |value.items| ==> Accepts(Inner(t), value.items[i]))
  }

  /** Validation accepts exactly that, for every string and every value. */
  lemma {:induction false} ValidationIsAcceptance(s: string, value: Value)
    ensures ValidateExpectedType(s, value).Ok? <==> Accepts(s, value)
    decreases |Trim(s)|
  {
    var t := Trim(s);
    var low := Lower(t);
    if t == "" {
      assert low == "";
    } else if SimpleName(low) != "" {
      SimpleAccepts(s, value);
    } else if !ArrayShaped(low) {
      UnknownAccepts(s, value);
    } else if Inner(t) == "" {
      EmptyElementQuirk(s, value);
    } else {
      if value.Array? {
        forall i | 0 <= i < |value.items|
          ensures ValidateExpectedType(Inner(t), value.items[i]).Ok? <==> Accepts(Inner(t), value.items[i])
        {
          ValidationIsAcceptance(Inner(t), value.items[i]);
        }
      }
      ElementAccepts(s, value);
    }
  }

  lemma SimpleAccepts(s: string, value: Value)
    requires SimpleName(Lower(Trim(s))) != ""
    ensures ValidateExpectedType(s, value).Ok? <==> Meaning(SimpleTy(Lower(Trim(s))), value)
    ensures !ArrayShaped(Lower(Trim(s)))
  {
    var low := Lower(Trim(s));
    if ArrayShaped(low) { ArrayIsNotSimple(low); }
    assert Print(SimpleTy(low)) == SimpleName(low);
    ValidateMeansMembership(s, SimpleTy(low), value);
  }

  lemma UnknownAccepts(s: string, value: Value)
    requires var low := Lower(Trim(s)); Trim(s) != "" && SimpleName(low) == "" && !ArrayShaped(low)
    ensures !ValidateExpectedType(s, value).Ok?
  {
    var t := Trim(s);
    if IsArrayType(t) { ArrayTypeShape(t); }
    UnknownNotInferred(t, value);
  }

  lemma UnknownNotInferred(t: string, value: Value)
    requires t != "" && SimpleName(Lower(t)) == "" && !ArrayShaped(Lower(t))
    ensures InferActualType(value) != t
  {
    InferredIsPrinted(value);
    PrintedShape(TypeOf(value));
  }

  /** A printed type is a simple name or an array. */
  lemma PrintedShape(ty: Ty)
    ensures var t := Print(ty);
            if ty.TyArray? then ArrayShaped(Lower(t)) && "Array<" <= t
            else SimpleName(Lower(t)) == t && !ArrayShaped(Lower(t))
  {
    if ty.TyArray? { WrappedShape(Print(ty.element)); } else { SimplePrints(ty); }
  }

  /** An array of a blank element: capitalised it accepts every array, in any other letter case no value at all. */
  lemma EmptyElementQuirk(s: string, value: Value)
    requires ArrayShaped(Lower(Trim(s))) && Inner(Trim(s)) == ""
    ensures ValidateExpectedType(s, value).Ok? <==> "Array<" <= Trim(s) && value.Array?
  {
    EmptyIsRaw(s);
    if "Array<" <= Trim(s) { BlankCapitalised(s, value); } else { BlankOther(s, value); }
  }

  lemma BlankCapitalised(s: string, value: Value)
    requires NormalizeExpectedType(s) == Trim(s) && ArrayShaped(Lower(Trim(s)))
    requires "Array<" <= Trim(s) && Inner(Trim(s)) == ""
    ensures ValidateExpectedType(s, value).Ok? <==> value.Array?
  {
    var t := Trim(s);
    ArrayShapeOf(t);
    var element := t[6..|t| - 1];
    assert t == Wrap(element);
    ArrayCheck(s, element, value);
    if value.Array? { BlankElement(element, value.items); }
  }

  lemma BlankOther(s: string, value: Value)
    requires NormalizeExpectedType(s) == Trim(s) && ArrayShaped(Lower(Trim(s))) && !("Array<" <= Trim(s))
    ensures !ValidateExpectedType(s, value).Ok?
  {
    var t := Trim(s);
    ArrayIsNotSimple(Lower(t));
    assert |Lower(t)| >= 6;
    InferredIsPrinted(value);
    PrintedShape(TypeOf(value));
  }

  lemma BlankElement(element: string, items: seq<Value>)
    requires Trim(element) == ""
    ensures ValidateItems(element, items).Ok?
  {
    assert Lower("") == "";
    ItemsValidate(element, items);
  }

  /** Validation reads the normalised string only. */
  lemma SameNormalSameCheck(a: string, b: string, value: Value)
    requires NormalizeExpectedType(a) == NormalizeExpectedType(b)
    ensures ValidateExpectedType(a, value) == ValidateExpectedType(b, value)
  {
  }

  lemma ElementAccepts(s: string, value: Value)
    requires ArrayShaped(Lower(Trim(s))) && Inner(Trim(s)) != ""
    ensures ValidateExpectedType(s, value).Ok? <==>
              value.Array? && forall i :: 0 <= i < |value.items| ==>
                ValidateExpectedType(Inner(Trim(s)), value.items[i]).Ok?
  {
    var t := Trim(s);
    var element := NormalizeText(Inner(t));
    ArrayIsNotSimple(Lower(t));
    ArrayCheck(s, element, value);
    if value.Array? {
      ItemsValidate(element, value.items);
      NormalElement(Inner(t));
      forall i | 0 <= i < |value.items|
        ensures ValidateExpectedType(element, value.items[i]) == ValidateExpectedType(Inner(t), value.items[i])
      {
        SameNormalSameCheck(element, Inner(t), value.items[i]);
      }
    }
  }

  lemma NormalElement(inner: string)
    requires inner == "" || (!IsWhitespace(inner[0]) && !IsWhitespace(inner[|inner| - 1]))
    ensures NormalizeExpectedType(NormalizeText(inner)) == NormalizeExpectedType(inner)
  {
    TrimTrimmed(inner);
    NormalizeTextIdempotent(inner);
  }
}
