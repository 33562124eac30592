/**
 * The enumerations of the library and how a member is obtained from a value or a name.
 *
 * `ParsingEnum` is an enum base class whose constructor `Cls(x)` first looks `x` up among the
 * member values and, failing that, falls back to `_missing_`: a first-match search for a member
 * whose upper-cased name equals the upper-cased `str(x)`. `str(member)` is the bare name.
 * The plain `Enum` classes look values up only.
 */
module Enums {
  import opened Wrappers
  import opened Text

  /** What is handed to the enum constructor `Cls(x)`: an integer or a text. */
  datatype Arg = IntArg(i: int) | TextArg(s: string)

  /** `str(x)` of the constructor argument. */
  function ArgText(a: Arg): string {
    match a
    case IntArg(i) => IntToString(i)
    case TextArg(s) => s
  }

  /** Lookup by value (the enum's value-to-member table), first member in declaration order. */
  function ValueLookup<T>(members: seq<T>, value: T -> int, v: int): (r: Option<T>)
    ensures r.Some? ==> r.value in members && value(r.value) == v
    ensures r.None? <==> forall m :: m in members ==> value(m) != v
  {
    if members == [] then None
    else if value(members[0]) == v then Some(members[0])
    else ValueLookup(members[1..], value, v)
  }

  /** `ParsingEnum._missing_`: the first member whose upper-cased name equals the upper-cased text. */
  function MissingLookup<T>(members: seq<T>, name: T -> string, text: string): (r: Option<T>)
    ensures r.Some? ==> r.value in members && Upper(name(r.value)) == Upper(text)
    ensures r.None? <==> forall m :: m in members ==> Upper(name(m)) != Upper(text)
  {
    if members == [] then None
    else if Upper(name(members[0])) == Upper(text) then Some(members[0])
    else MissingLookup(members[1..], name, text)
  }

  /** `Cls(x)` for a `ParsingEnum` subclass: by value first, then by name through `_missing_`. */
  function ParsingConstruct<T>(members: seq<T>, name: T -> string, value: T -> int, a: Arg): Option<T>
  {
    match a
    case IntArg(v) =>
      (match ValueLookup(members, value, v)
       case Some(m) => Some(m)
       case None => MissingLookup(members, name, IntToString(v)))
    case TextArg(s) =>
      // member values are integers, so a text is never one of them
      MissingLookup(members, name, s)
  }

  /** `Cls(x)` for a plain `Enum` class: by value only; a text is never a value. */
  function PlainConstruct<T>(members: seq<T>, value: T -> int, a: Arg): Option<T>
  {
    match a
    case IntArg(v) => ValueLookup(members, value, v)
    case TextArg(_) => None
  }

  /** `@unique`: no two members share a value. */
  predicate UniqueValues<T>(members: seq<T>, value: T -> int) {
    forall i, j :: 0 <= i < j < |members| ==> value(members[i]) != value(members[j])
  }

  /** No two member names coincide once upper-cased. */
  predicate DistinctNames<T>(members: seq<T>, name: T -> string) {
    forall i, j :: 0 <= i < j < |members| ==> Upper(name(members[i])) != Upper(name(members[j]))
  }

  /** Every member name starts with a capital letter, so no `str(int)` can be mistaken for it. */
  predicate NamesHaveLetters<T>(members: seq<T>, name: T -> string) {
    forall i :: 0 <= i < |members| ==> |name(members[i])| > 0 && IsUpperLetter(name(members[i])[0])
  }

  /** What `Cls(x)` = `m` means for a well-formed `ParsingEnum`: same value, or same name ignoring case. */
  predicate Denotes(name: string, value: int, a: Arg) {
    match a
    case IntArg(v) => v == value
    case TextArg(s) => Upper(name) == Upper(s)
  }

  lemma IntTextIsNoName(v: int, n: string)
    requires |n| > 0 && IsUpperLetter(n[0])
    ensures Upper(n) != Upper(IntToString(v))
  {
    var t := IntToString(v);
    assert Upper(n)[0] == UpperChar(n[0]) == n[0];
    assert Upper(t)[0] == UpperChar(t[0]);
  }

  /**
   * For an enum whose values are unique, whose names differ even ignoring case and contain a
   * letter, `Cls(x)` yields exactly the member `x` denotes: the one with that value, or the one
   * with that name in any case. Out-of-range integers and partial names yield nothing.
   */
  lemma {:induction false} ParsingConstructDenotes<T>(members: seq<T>, name: T -> string, value: T -> int, a: Arg, m: T)
    requires UniqueValues(members, value) && DistinctNames(members, name) && NamesHaveLetters(members, name)
    requires m in members
    ensures ParsingConstruct(members, name, value, a) == Some(m) <==> Denotes(name(m), value(m), a)
  {
    var r := ParsingConstruct(members, name, value, a);
    match a
    case IntArg(v) =>
      var byValue := ValueLookup(members, value, v);
      if byValue.None? {
        forall i | 0 <= i < |members| ensures Upper(name(members[i])) != Upper(IntToString(v)) {
          IntTextIsNoName(v, name(members[i]));
        }
      } else if Denotes(name(m), value(m), a) {
        var i :| 0 <= i < |members| && members[i] == byValue.value;
        var j :| 0 <= j < |members| && members[j] == m;
        assert i == j;
      }
    case TextArg(s) =>
      if r.Some? && Denotes(name(m), value(m), a) {
        var i :| 0 <= i < |members| && members[i] == r.value;
        var j :| 0 <= j < |members| && members[j] == m;
        assert i == j;
      }
  }

  /** `Cls(str(m))` gives `m` back, and so does the lower-cased name a configuration file holds. */
  lemma NameRoundTrip<T>(members: seq<T>, name: T -> string, value: T -> int, m: T)
    requires UniqueValues(members, value) && DistinctNames(members, name) && NamesHaveLetters(members, name)
    requires m in members
    ensures ParsingConstruct(members, name, value, TextArg(name(m))) == Some(m)
    ensures ParsingConstruct(members, name, value, TextArg(Lower(name(m)))) == Some(m)
  {
    ParsingConstructDenotes(members, name, value, TextArg(name(m)), m);
    UpperOfLower(name(m));
    ParsingConstructDenotes(members, name, value, TextArg(Lower(name(m))), m);
  }

  /** A plain `Enum` finds a member by its value only; every text is rejected. */
  lemma PlainConstructDenotes<T>(members: seq<T>, value: T -> int, a: Arg, m: T)
    requires UniqueValues(members, value) && m in members
    ensures PlainConstruct(members, value, a) == Some(m) <==> a.IntArg? && a.i == value(m)
  {
    var r := PlainConstruct(members, value, a);
    if r.Some? && a.IntArg? && a.i == value(m) {
      var i :| 0 <= i < |members| && members[i] == r.value;
      var j :| 0 <= j < |members| && members[j] == m;
        assert i == j;
    }
  }

  // ---------------------------------------------------------------------------------------------
  // The library's enumerations, members in declaration order.

  /** Tells the algorithm either to minimise or maximise the objective. */
  datatype Sense = MINIMIZE | MAXIMIZE {
    function Value(): int { match this case MINIMIZE => 0 case MAXIMIZE => 1 }
    function Name(): string { match this case MINIMIZE => "MINIMIZE" case MAXIMIZE => "MAXIMIZE" }
  }
  const Senses: seq<Sense> := [MINIMIZE, MAXIMIZE]
  const SenseName: Sense -> string := (m: Sense) => m.Name()
  const SenseValue: Sense -> int := (m: Sense) => m.Value()

  /** The bias function used to weight parents by rank during mating. */
  datatype BiasFunctionType = CONSTANT | CUBIC | EXPONENTIAL | LINEAR | LOGINVERSE | QUADRATIC | CUSTOM {
    function Value(): int {
      match this
      case CONSTANT => 0 case CUBIC => 1 case EXPONENTIAL => 2 case LINEAR => 3
      case LOGINVERSE => 4 case QUADRATIC => 5 case CUSTOM => 6
    }
    function Name(): string {
      match this
      case CONSTANT => "CONSTANT" case CUBIC => "CUBIC" case EXPONENTIAL => "EXPONENTIAL"
      case LINEAR => "LINEAR" case LOGINVERSE => "LOGINVERSE" case QUADRATIC => "QUADRATIC"
      case CUSTOM => "CUSTOM"
    }
  }
  const BiasFunctionTypes: seq<BiasFunctionType> := [CONSTANT, CUBIC, EXPONENTIAL, LINEAR, LOGINVERSE, QUADRATIC, CUSTOM]
  const BiasName: BiasFunctionType -> string := (m: BiasFunctionType) => m.Name()
  const BiasValue: BiasFunctionType -> int := (m: BiasFunctionType) => m.Value()

  /** The kind of path relinking. */
  datatype PathRelinkingType = DIRECT | PERMUTATION {
    function Value(): int { match this case DIRECT => 0 case PERMUTATION => 1 }
    function Name(): string { match this case DIRECT => "DIRECT" case PERMUTATION => "PERMUTATION" }
  }
  const PathRelinkingTypes: seq<PathRelinkingType> := [DIRECT, PERMUTATION]
  const PrTypeName: PathRelinkingType -> string := (m: PathRelinkingType) => m.Name()
  const PrTypeValue: PathRelinkingType -> int := (m: PathRelinkingType) => m.Value()

  /** Which individuals the path relinking starts from. */
  datatype PathRelinkingSelection = BESTSOLUTION | RANDOMELITE {
    function Value(): int { match this case BESTSOLUTION => 0 case RANDOMELITE => 1 }
    function Name(): string { match this case BESTSOLUTION => "BESTSOLUTION" case RANDOMELITE => "RANDOMELITE" }
  }
  const PathRelinkingSelections: seq<PathRelinkingSelection> := [BESTSOLUTION, RANDOMELITE]
  const PrSelectionName: PathRelinkingSelection -> string := (m: PathRelinkingSelection) => m.Name()
  const PrSelectionValue: PathRelinkingSelection -> int := (m: PathRelinkingSelection) => m.Value()

  /** The perturbation a shaking applies. */
  datatype ShakingType = CHANGE | SWAP {
    function Value(): int { match this case CHANGE => 0 case SWAP => 1 }
    function Name(): string { match this case CHANGE => "CHANGE" case SWAP => "SWAP" }
  }
  const ShakingTypes: seq<ShakingType> := [CHANGE, SWAP]
  const ShakingName: ShakingType -> string := (m: ShakingType) => m.Name()
  const ShakingValue: ShakingType -> int := (m: ShakingType) => m.Value()

  /** What the lookup lemmas need of an enum: unique values, names distinct in any case, each with a letter. */
  predicate WellFormed<T>(members: seq<T>, name: T -> string, value: T -> int) {
    UniqueValues(members, value) && DistinctNames(members, name) && NamesHaveLetters(members, name)
  }

  /** Every enum of the library satisfies `@unique`, and its member list names every member. */
  lemma SensesWellFormed()
    ensures WellFormed(Senses, SenseName, SenseValue) && forall m: Sense :: m in Senses
  {
    assert Upper("MINIMIZE")[1] != Upper("MAXIMIZE")[1];
    forall m: Sense ensures m in Senses { assert Senses[m.Value()] == m; }
  }

  lemma BiasFunctionTypesWellFormed()
    ensures WellFormed(BiasFunctionTypes, BiasName, BiasValue) && forall m: BiasFunctionType :: m in BiasFunctionTypes
  {
    forall i | 0 <= i < |BiasFunctionTypes| ensures BiasValue(BiasFunctionTypes[i]) == i { }
    forall m: BiasFunctionType ensures m in BiasFunctionTypes { assert BiasFunctionTypes[m.Value()] == m; }
    BiasNamesUpper();
    BiasNamesDistinct();
  }

  // The seven bias names are checked apart from the values, to keep each proof small.
  lemma BiasNamesUpper()
    ensures forall m: BiasFunctionType :: Upper(m.Name()) == m.Name() && |m.Name()| > 0 && IsUpperLetter(m.Name()[0])
  {
    forall m: BiasFunctionType ensures Upper(m.Name()) == m.Name() && |m.Name()| > 0 && IsUpperLetter(m.Name()[0]) {
      UpperIdentity(m.Name());
    }
  }

  /** Bias names are non-empty words of capital letters. */
  lemma BiasNameLetters(m: BiasFunctionType)
    ensures IsCapitalWord(m.Name())
  {
    match m
    case CONSTANT => case CUBIC => case EXPONENTIAL => case LINEAR =>
    case LOGINVERSE => case QUADRATIC => case CUSTOM =>
  }

  predicate IsCapitalWord(s: string) {
    s != [] && forall i :: 0 <= i < |s| ==> IsUpperLetter(s[i])
  }

  lemma BiasNamesDistinct()
    ensures DistinctNames(BiasFunctionTypes, BiasName)
  {
    BiasNamesUpper();
    forall i, j | 0 <= i < j < |BiasFunctionTypes|
      ensures Upper(BiasName(BiasFunctionTypes[i])) != Upper(BiasName(BiasFunctionTypes[j]))
    {
      var x, y := BiasFunctionTypes[i], BiasFunctionTypes[j];
      assert x.Value() == i && y.Value() == j;
      assert |x.Name()| != |y.Name()| || x.Name()[0] != y.Name()[0];
    }
  }

  lemma PathRelinkingTypesWellFormed()
    ensures WellFormed(PathRelinkingTypes, PrTypeName, PrTypeValue) && forall m: PathRelinkingType :: m in PathRelinkingTypes
  {
    assert Upper("DIRECT")[0] != Upper("PERMUTATION")[0];
    forall m: PathRelinkingType ensures m in PathRelinkingTypes { assert PathRelinkingTypes[m.Value()] == m; }
  }

  lemma PathRelinkingSelectionsWellFormed()
    ensures WellFormed(PathRelinkingSelections, PrSelectionName, PrSelectionValue)
    ensures forall m: PathRelinkingSelection :: m in PathRelinkingSelections
  {
    assert Upper("BESTSOLUTION")[0] != Upper("RANDOMELITE")[0];
    forall m: PathRelinkingSelection ensures m in PathRelinkingSelections { assert PathRelinkingSelections[m.Value()] == m; }
  }

  lemma ShakingTypesWellFormed()
    ensures WellFormed(ShakingTypes, ShakingName, ShakingValue) && forall m: ShakingType :: m in ShakingTypes
  {
    assert Upper("CHANGE")[0] != Upper("SWAP")[0];
    forall m: ShakingType ensures m in ShakingTypes { assert ShakingTypes[m.Value()] == m; }
  }

  /** `Sense(x)`: the member with value `x`, or with name `x` in any case; nothing else. */
  function ParseSense(a: Arg): (r: Option<Sense>)
    ensures forall m: Sense :: r == Some(m) <==> Denotes(m.Name(), m.Value(), a)
  {
    SensesWellFormed();
    forall m: Sense ensures ParsingConstruct(Senses, SenseName, SenseValue, a) == Some(m) <==> Denotes(m.Name(), m.Value(), a) {
      ParsingConstructDenotes(Senses, SenseName, SenseValue, a, m);
    }
    ParsingConstruct(Senses, SenseName, SenseValue, a)
  }

  /** `BiasFunctionType(x)` */
  function ParseBiasFunctionType(a: Arg): (r: Option<BiasFunctionType>)
    ensures forall m: BiasFunctionType :: r == Some(m) <==> Denotes(m.Name(), m.Value(), a)
  {
    BiasFunctionTypesWellFormed();
    forall m: BiasFunctionType ensures ParsingConstruct(BiasFunctionTypes, BiasName, BiasValue, a) == Some(m) <==> Denotes(m.Name(), m.Value(), a) {
      ParsingConstructDenotes(BiasFunctionTypes, BiasName, BiasValue, a, m);
    }
    ParsingConstruct(BiasFunctionTypes, BiasName, BiasValue, a)
  }

  /** `PathRelinkingType(x)` */
  function ParsePathRelinkingType(a: Arg): (r: Option<PathRelinkingType>)
    ensures forall m: PathRelinkingType :: r == Some(m) <==> Denotes(m.Name(), m.Value(), a)
  {
    PathRelinkingTypesWellFormed();
    forall m: PathRelinkingType ensures ParsingConstruct(PathRelinkingTypes, PrTypeName, PrTypeValue, a) == Some(m) <==> Denotes(m.Name(), m.Value(), a) {
      ParsingConstructDenotes(PathRelinkingTypes, PrTypeName, PrTypeValue, a, m);
    }
    ParsingConstruct(PathRelinkingTypes, PrTypeName, PrTypeValue, a)
  }

  /** `PathRelinkingSelection(x)` */
  function ParsePathRelinkingSelection(a: Arg): (r: Option<PathRelinkingSelection>)
    ensures forall m: PathRelinkingSelection :: r == Some(m) <==> Denotes(m.Name(), m.Value(), a)
  {
    PathRelinkingSelectionsWellFormed();
    forall m: PathRelinkingSelection ensures ParsingConstruct(PathRelinkingSelections, PrSelectionName, PrSelectionValue, a) == Some(m) <==> Denotes(m.Name(), m.Value(), a) {
      ParsingConstructDenotes(PathRelinkingSelections, PrSelectionName, PrSelectionValue, a, m);
    }
    ParsingConstruct(PathRelinkingSelections, PrSelectionName, PrSelectionValue, a)
  }

  /** `ShakingType(x)` */
  function ParseShakingType(a: Arg): (r: Option<ShakingType>)
    ensures forall m: ShakingType :: r == Some(m) <==> Denotes(m.Name(), m.Value(), a)
  {
    ShakingTypesWellFormed();
    forall m: ShakingType ensures ParsingConstruct(ShakingTypes, ShakingName, ShakingValue, a) == Some(m) <==> Denotes(m.Name(), m.Value(), a) {
      ParsingConstructDenotes(ShakingTypes, ShakingName, ShakingValue, a, m);
    }
    ParsingConstruct(ShakingTypes, ShakingName, ShakingValue, a)
  }

  /** The plain-`Enum` copy of `Sense`: `Sense(x)` by value only, every text rejected. */
  function PlainSense(a: Arg): (r: Option<Sense>)
    ensures forall m: Sense :: r == Some(m) <==> a.IntArg? && a.i == m.Value()
  {
    SensesWellFormed();
    forall m: Sense ensures PlainConstruct(Senses, SenseValue, a) == Some(m) <==> a.IntArg? && a.i == m.Value() {
      PlainConstructDenotes(Senses, SenseValue, a, m);
    }
    PlainConstruct(Senses, SenseValue, a)
  }

  /** The plain-`Enum` copy of the bias type: by value only, every text rejected. */
  function PlainBiasFunction(a: Arg): (r: Option<BiasFunctionType>)
    ensures forall m: BiasFunctionType :: r == Some(m) <==> a.IntArg? && a.i == m.Value()
  {
    BiasFunctionTypesWellFormed();
    forall m: BiasFunctionType ensures PlainConstruct(BiasFunctionTypes, BiasValue, a) == Some(m) <==> a.IntArg? && a.i == m.Value() {
      PlainConstructDenotes(BiasFunctionTypes, BiasValue, a, m);
    }
    PlainConstruct(BiasFunctionTypes, BiasValue, a)
  }

  /** The behaviour the library's tests pin down for `Sense`. */
  lemma SenseExamples()
    ensures ParseSense(IntArg(0)) == Some(MINIMIZE) && ParseSense(IntArg(1)) == Some(MAXIMIZE)
    ensures ParseSense(TextArg("maximize")) == Some(MAXIMIZE)
    ensures ParseSense(TextArg("min")) == None && ParseSense(TextArg("max")) == None
    ensures ParseSense(IntArg(-1)) == None && ParseSense(IntArg(3)) == None
  {
    assert Upper("maximize") == "MAXIMIZE";
    assert |Upper("min")| == |Upper("max")| == 3;
  }

  // ---------------------------------------------------------------------------------------------
  // PathRelinkingResult is a `Flag`: results combine by bitwise or.

  /** The status of a path relinking; each value's bits include those of the values before it. */
  datatype PathRelinkingResult = TOO_HOMOGENEOUS | NO_IMPROVEMENT | ELITE_IMPROVEMENT | BEST_IMPROVEMENT {
    function Value(): bv8 {
      match this
      case TOO_HOMOGENEOUS => 0 case NO_IMPROVEMENT => 1
      case ELITE_IMPROVEMENT => 3 case BEST_IMPROVEMENT => 7
    }
    /** Position in the chain TOO_HOMOGENEOUS < NO_IMPROVEMENT < ELITE_IMPROVEMENT < BEST_IMPROVEMENT. */
    function Level(): nat {
      match this
      case TOO_HOMOGENEOUS => 0 case NO_IMPROVEMENT => 1
      case ELITE_IMPROVEMENT => 2 case BEST_IMPROVEMENT => 3
    }
  }

  /** `PathRelinkingResult(bits)` for the bit patterns that name a member. */
  function ResultFromBits(bits: bv8): Option<PathRelinkingResult> {
    if bits == 0 then Some(TOO_HOMOGENEOUS)
    else if bits == 1 then Some(NO_IMPROVEMENT)
    else if bits == 3 then Some(ELITE_IMPROVEMENT)
    else if bits == 7 then Some(BEST_IMPROVEMENT)
    else None
  }

  /** Bit-set inclusion between results is exactly their order in the chain. */
  lemma ResultBitsAreChain(a: PathRelinkingResult, b: PathRelinkingResult)
    ensures (a.Value() & b.Value() == a.Value()) <==> a.Level() <= b.Level()
    ensures a.Value() == b.Value() <==> a == b
  {
  }

  /**
   * `a | b`: the bitwise or of two results is again a result, and because the values form a
   * chain it is the larger of the two.
   */
  function Or(a: PathRelinkingResult, b: PathRelinkingResult): (r: PathRelinkingResult)
    ensures r.Value() == a.Value() | b.Value()
    ensures r.Level() == if a.Level() <= b.Level() then b.Level() else a.Level()
  {
    match ResultFromBits(a.Value() | b.Value())
    case Some(r) => r
    case None => assert false; TOO_HOMOGENEOUS
  }

  /** `|` on results is idempotent, commutative and associative, with TOO_HOMOGENEOUS as its identity. */
  lemma OrLaws(a: PathRelinkingResult, b: PathRelinkingResult, c: PathRelinkingResult)
    ensures Or(a, a) == a
    ensures Or(a, b) == Or(b, a)
    ensures Or(Or(a, b), c) == Or(a, Or(b, c))
    ensures Or(TOO_HOMOGENEOUS, a) == a
    ensures Or(a, BEST_IMPROVEMENT) == BEST_IMPROVEMENT
  {
  }
}
