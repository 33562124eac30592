/**
 * Reading and writing a configuration file of `name value` lines.
 *
 * The reader strips each line, skips blank lines and `#` comments, splits the rest into exactly
 * two lower-cased tokens, looks the name up among both records' attributes and converts the value
 * with the field's own type. It stops at the first faulty line and, after the last line, reports
 * every field no line has set. The writer emits one `name value` line per field, `BrkgaParams`
 * first, in declaration order. File access is left to the caller: the reader receives the file's
 * `readlines()`, the writer returns the text it would write.
 */
module TypesIO {
  import opened Wrappers
  import opened Text
  import opened Enums
  import opened Types

  /** The reasons `load_configuration` raises `LoadError`; line numbers count from 0. */
  datatype LoadError =
    | CannotRead(filename: string)
    | MissingParameterOrValue(line: nat)
    | UnknownParameter(line: nat, name: string)
    | InvalidValue(line: nat, name: string, value: string)
    | MissingParameters(names: seq<string>)

  /** The message the raised `LoadError` carries. */
  function Message(e: LoadError): string
  {
    match e
    case CannotRead(filename) => "Cannot read " + filename
    case MissingParameterOrValue(k) => "Line " + IntToString(k) + ": missing parameter or value"
    case UnknownParameter(k, name) => "Line " + IntToString(k) + ": parameter '" + name + "' unknown"
    case InvalidValue(k, name, value) => "Line " + IntToString(k) + ": invalid value for '" + name + "': " + value
    case MissingParameters(names) => "Missing parameters: " + Join(names, ", ")
  }

  /** How one line reads: skipped, not two tokens, or a lower-cased name and value. */
  datatype LineKind = Skip | BadTokens | Entry(name: string, value: string)

  function ParseLine(line: string): LineKind {
    ParseStripped(Strip(line))
  }

  /** A stripped line: blank or comment, else split into words. */
  function ParseStripped(stripped: string): LineKind {
    if |stripped| == 0 || stripped[0] == '#' then Skip
    else ParseTokens(Split(stripped))
  }

  /** Exactly two words give a name and a value, lower-cased; any other count is an error. */
  function ParseTokens(tokens: seq<string>): LineKind {
    if |tokens| != 2 then BadTokens
    else Entry(Lower(Strip(tokens[0])), Lower(Strip(tokens[1])))
  }

  /**
   * The field's type applied to the value text: `int` and `float` through the converters, the
   * enum fields through their case-insensitive name lookup.
   */
  function Convert(f: Field, text: string, conv: Converters): (r: Option<Value>)
    ensures r.Some? ==> r.value.Kind() == f.Kind()
  {
    match f.Kind()
    case IntKind => (match conv.parseInt(text) case Some(i) => Some(IntValue(i)) case None => None)
    case RealKind => (match conv.parseReal(text) case Some(x) => Some(RealValue(x)) case None => None)
    case BiasKind =>
      (match ParseBiasFunctionType(TextArg(text)) case Some(m) => Some(BiasValue(m)) case None => None)
    case PrTypeKind =>
      (match ParsePathRelinkingType(TextArg(text)) case Some(m) => Some(PrTypeValue(m)) case None => None)
    case PrSelectionKind =>
      (match ParsePathRelinkingSelection(TextArg(text)) case Some(m) => Some(PrSelectionValue(m)) case None => None)
  }

  /** What one line does: nothing, raise `e`, or set field `f` to `v`. */
  datatype LineOutcome = Skipped | Failed(e: LoadError) | Assign(f: Field, v: Value)

  /**
   * One turn of the line loop for line `k`, without the records: the three per-line errors, in
   * the order they are checked, all carry `k`.
   */
  function Examine(k: nat, line: string, conv: Converters): (r: LineOutcome)
    ensures r.Failed? ==> (r.e.MissingParameterOrValue? || r.e.UnknownParameter? || r.e.InvalidValue?) && r.e.line == k
    ensures r.Assign? ==> r.v.Kind() == r.f.Kind()
  {
    match ParseLine(line)
    case Skip => Skipped
    case BadTokens => Failed(MissingParameterOrValue(k))
    case Entry(name, value) =>
      match FieldNamed(name)
      case None => Failed(UnknownParameter(k, name))
      case Some(f) =>
        match Convert(f, value, conv)
        case None => Failed(InvalidValue(k, name, value))
        case Some(v) => Assign(f, v)
  }

  /** The outcome of every line of the file, line `k` at index `k`. */
  function Outcomes(lines: seq<string>, conv: Converters): (r: seq<LineOutcome>)
    ensures |r| == |lines| && WellKinded(r) && OnlyLineErrors(r)
    decreases |lines|
  {
    if lines == [] then []
    else Outcomes(lines[..|lines| - 1], conv) + [Examine(|lines| - 1, lines[|lines| - 1], conv)]
  }

  lemma {:induction false} OutcomesAt(lines: seq<string>, conv: Converters, k: nat)
    requires k < |lines|
    ensures Outcomes(lines, conv)[k] == Examine(k, lines[k], conv)
    decreases |lines|
  {
    if k < |lines| - 1 {
      OutcomesAt(lines[..|lines| - 1], conv, k);
    }
  }

  lemma {:induction false} OutcomesPrefix(lines: seq<string>, conv: Converters, n: nat)
    requires n <= |lines|
    ensures Outcomes(lines[..n], conv) == Outcomes(lines, conv)[..n]
    decreases |lines|
  {
    if n < |lines| {
      assert lines[..|lines| - 1][..n] == lines[..n];
      OutcomesPrefix(lines[..|lines| - 1], conv, n);
    } else {
      assert lines[..n] == lines;
    }
  }

  /** The two records being filled and the `param_given` flags, as the set of fields given. */
  datatype LoadState = LoadState(b: BrkgaParams, c: ExternalControlParams, given: set<Field>)

  const Initial: LoadState := LoadState(BrkgaParams(), ExternalControlParams(), {})

  /** Lines fail only with the three per-line errors. */
  predicate OnlyLineErrors(outs: seq<LineOutcome>) {
    forall k :: 0 <= k < |outs| && outs[k].Failed? ==>
      outs[k].e.MissingParameterOrValue? || outs[k].e.UnknownParameter? || outs[k].e.InvalidValue?
  }

  /** Every assignment puts a value of the field's own type. */
  predicate WellKinded(outs: seq<LineOutcome>) {
    forall k :: 0 <= k < |outs| && outs[k].Assign? ==> outs[k].v.Kind() == outs[k].f.Kind()
  }

  /** `setattr` plus `param_given[name] = True`, or the line's error. */
  function Apply(st: LoadState, o: LineOutcome): Result<LoadState, LoadError>
    requires o.Assign? ==> o.v.Kind() == o.f.Kind()
  {
    match o
    case Skipped => Ok(st)
    case Failed(e) => Err(e)
    case Assign(f, v) =>
      var r := Set(st.b, st.c, f, v);
      Ok(LoadState(r.0, r.1, st.given + {f}))
  }

  /** The line loop over all outcomes: the first failing line ends it. */
  function RunOutcomes(outs: seq<LineOutcome>): Result<LoadState, LoadError>
    requires WellKinded(outs)
    decreases |outs|
  {
    if outs == [] then Ok(Initial)
    else
      match RunOutcomes(outs[..|outs| - 1])
      case Err(e) => Err(e)
      case Ok(st) => Apply(st, outs[|outs| - 1])
  }

  /** One more line of the loop applies that line's outcome to the state reached so far. */
  lemma RunStep(outs: seq<LineOutcome>, k: nat, st: LoadState)
    requires WellKinded(outs) && k < |outs| && RunOutcomes(outs[..k]) == Ok(st)
    ensures RunOutcomes(outs[..k + 1]) == Apply(st, outs[k])
  {
    assert outs[..k + 1][..k] == outs[..k];
  }

  /** The fields of `fields` not in `given`, in the order of `fields`. */
  function MissingFields(fields: seq<Field>, given: set<Field>): (r: seq<Field>)
    ensures forall f :: f in r <==> f in fields && f !in given
    decreases |fields|
  {
    if fields == [] then []
    else
      var f := fields[|fields| - 1];
      var rest := MissingFields(fields[..|fields| - 1], given);
      if f in given then rest else rest + [f]
  }

  /** Fields listed in declaration order; in particular none is listed twice. */
  predicate InDeclarationOrder(fields: seq<Field>) {
    forall i, j :: 0 <= i < j < |fields| ==> Position(fields[i]) < Position(fields[j])
  }

  /** `param_given` lists the fields in declaration order. */
  lemma FieldsInOrder()
    ensures InDeclarationOrder(Fields)
  {
    FieldsPositions();
  }

  /** Leaving out the given fields keeps the others in the order they had. */
  lemma {:induction false} MissingFieldsOrdered(fields: seq<Field>, given: set<Field>)
    requires InDeclarationOrder(fields)
    ensures InDeclarationOrder(MissingFields(fields, given))
    decreases |fields|
  {
    if fields != [] {
      var front := fields[..|fields| - 1];
      var f := fields[|fields| - 1];
      MissingFieldsOrdered(front, given);
      var rest := MissingFields(front, given);
      if f !in given {
        forall k | 0 <= k < |rest| ensures Position(rest[k]) < Position(f) {
          assert rest[k] in rest;
          var i :| 0 <= i < |front| && front[i] == rest[k];
        }
      }
    }
  }

  /** In a list in declaration order, the last field comes after every other field it holds. */
  lemma OrderedLast(a: seq<Field>, f: Field)
    requires InDeclarationOrder(a) && f in a
    ensures Position(f) <= Position(a[|a| - 1])
    ensures f != a[|a| - 1] ==> f in a[..|a| - 1]
  {
    var k :| 0 <= k < |a| && a[k] == f;
    if k < |a| - 1 {
      assert a[..|a| - 1][k] == f;
    }
  }

  /** A field before the last one is in the list and comes strictly before the last one. */
  lemma OrderedFront(a: seq<Field>, f: Field)
    requires InDeclarationOrder(a) && a != [] && f in a[..|a| - 1]
    ensures f in a && Position(f) < Position(a[|a| - 1])
  {
    var k :| 0 <= k < |a| - 1 && a[..|a| - 1][k] == f;
    assert a[k] == f;
  }

  /** Two lists in declaration order that hold the same fields are the same list. */
  lemma {:induction false} OrderedUnique(a: seq<Field>, b: seq<Field>)
    requires InDeclarationOrder(a) && InDeclarationOrder(b)
    requires forall f :: f in a <==> f in b
    ensures a == b
    decreases |a|
  {
    if a != [] {
      assert a[|a| - 1] in a;
    }
    if b != [] {
      assert b[|b| - 1] in b;
    }
    if a != [] && b != [] {
      var x, y := a[|a| - 1], b[|b| - 1];
      OrderedLast(a, y);
      OrderedLast(b, x);
      FieldAtPosition(x);
      FieldAtPosition(y);
      var a', b' := a[..|a| - 1], b[..|b| - 1];
      forall f ensures f in a' <==> f in b' {
        if f in a' {
          OrderedFront(a, f);
          OrderedLast(b, f);
        }
        if f in b' {
          OrderedFront(b, f);
          OrderedLast(a, f);
        }
      }
      assert InDeclarationOrder(a') && InDeclarationOrder(b');
      OrderedUnique(a', b');
      assert a == a' + [x] && b == b' + [y];
    }
  }

  function NamesOf(fields: seq<Field>): (r: seq<string>)
    ensures |r| == |fields| && forall i :: 0 <= i < |fields| ==> r[i] == fields[i].Name()
  {
    seq(|fields|, i requires 0 <= i < |fields| => fields[i].Name())
  }

  /** What `load_configuration` returns or raises for a file whose `readlines()` are `lines`. */
  function Load(filename: string, lines: seq<string>, conv: Converters): Result<(BrkgaParams, ExternalControlParams), LoadError> {
    if lines == [] then Err(CannotRead(filename))
    else
      match RunOutcomes(Outcomes(lines, conv))
      case Err(e) => Err(e)
      case Ok(st) =>
        var missing := MissingFields(Fields, st.given);
        if missing == [] then Ok((st.b, st.c)) else Err(MissingParameters(NamesOf(missing)))
  }

  /** Once a prefix of the lines has failed, the rest of the file is never looked at. */
  lemma {:induction false} RunErrorPersists(outs: seq<LineOutcome>, n: nat)
    requires WellKinded(outs)
    requires n <= |outs| && RunOutcomes(outs[..n]).Err?
    ensures RunOutcomes(outs) == RunOutcomes(outs[..n])
    decreases |outs| - n
  {
    if n < |outs| {
      assert outs[..n + 1][..n] == outs[..n];
      RunErrorPersists(outs, n + 1);
    } else {
      assert outs[..n] == outs;
    }
  }

  /** The closing loop of `load_configuration`: the names of the fields not given, in declaration order. */
  method MissingNames(given: set<Field>) returns (missing: seq<string>)
    ensures missing == NamesOf(MissingFields(Fields, given))
  {
    missing := [];
    var i := 0;
    while i < |Fields|
      invariant i <= |Fields|
      invariant missing == NamesOf(MissingFields(Fields[..i], given))
    {
      assert Fields[..i + 1][..i] == Fields[..i];
      if Fields[i] !in given {
        missing := missing + [Fields[i].Name()];
      }
      i := i + 1;
    }
    assert Fields[..i] == Fields;
  }

  /**
   * The line loop of `load_configuration` over the outcome of each line (`Examine`, which
   * depends on the line and its number only): a skipped line changes nothing, a failing line
   * raises its error, an assignment sets its field and marks it given.
   */
  method RunLines(lines: seq<string>, conv: Converters) returns (r: Result<LoadState, LoadError>)
    ensures r == RunOutcomes(Outcomes(lines, conv))
  {
    var b := BrkgaParams();
    var c := ExternalControlParams();
    var given: set<Field> := {};
    var outs := Outcomes(lines, conv);
    var k := 0;
    while k < |outs|
      invariant k <= |outs|
      invariant RunOutcomes(outs[..k]) == Ok(LoadState(b, c, given))
    {
      RunStep(outs, k, LoadState(b, c, given));
      match outs[k] {
        case Skipped =>
        case Failed(e) =>
          RunErrorPersists(outs, k + 1);
          return Err(e);
        case Assign(f, v) =>
          var updated := Set(b, c, f, v);
          b, c := updated.0, updated.1;
          given := given + {f};
      }
      k := k + 1;
    }
    assert outs[..k] == outs;
    return Ok(LoadState(b, c, given));
  }

  /** `load_configuration`: read the lines, run the line loop, then report the fields not given. */
  method LoadConfiguration(filename: string, lines: seq<string>, conv: Converters)
    returns (r: Result<(BrkgaParams, ExternalControlParams), LoadError>)
    ensures r == Load(filename, lines, conv)
  {
    if |lines| == 0 {
      return Err(CannotRead(filename));
    }
    var run := RunLines(lines, conv);
    if run.Err? {
      return Err(run.error);
    }
    var st := run.value;
    var missing := MissingNames(st.given);
    if missing != [] {
      return Err(MissingParameters(missing));
    }
    return Ok((st.b, st.c));
  }

  /** Outcome `o` sets field `f`. */
  predicate Sets(o: LineOutcome, f: Field) {
    o.Assign? && o.f == f
  }

  /** The value the last line setting `f` gives it, if any line does. */
  function LastAssign(outs: seq<LineOutcome>, f: Field): (r: Option<Value>)
    ensures r.None? <==> forall k :: 0 <= k < |outs| ==> !Sets(outs[k], f)
    decreases |outs|
  {
    if outs == [] then None
    else if Sets(outs[|outs| - 1], f) then Some(outs[|outs| - 1].v)
    else LastAssign(outs[..|outs| - 1], f)
  }

  /** The line loop succeeds exactly when no line fails. */
  lemma {:induction false} RunOkIffNoFailure(outs: seq<LineOutcome>)
    requires WellKinded(outs)
    ensures RunOutcomes(outs).Ok? <==> forall k :: 0 <= k < |outs| ==> !outs[k].Failed?
    decreases |outs|
  {
    if outs != [] {
      var prefix := outs[..|outs| - 1];
      RunOkIffNoFailure(prefix);
      if RunOutcomes(prefix).Err? {
        var k :| 0 <= k < |prefix| && prefix[k].Failed?;
        assert outs[k] == prefix[k];
      }
    }
  }

  /** The line loop raises only per-line errors. */
  lemma {:induction false} RunRaisesLineErrors(outs: seq<LineOutcome>)
    requires WellKinded(outs) && OnlyLineErrors(outs)
    ensures RunOutcomes(outs).Err? ==>
      RunOutcomes(outs).error.MissingParameterOrValue? || RunOutcomes(outs).error.UnknownParameter? || RunOutcomes(outs).error.InvalidValue?
    decreases |outs|
  {
    if outs != [] {
      RunRaisesLineErrors(outs[..|outs| - 1]);
    }
  }

  /**
   * The loop raises the error of the first failing line, whatever the lines after it hold: the
   * earliest error wins.
   */
  lemma FirstErrorWins(outs: seq<LineOutcome>, k: nat)
    requires WellKinded(outs)
    requires k < |outs| && outs[k].Failed?
    requires forall j :: 0 <= j < k ==> !outs[j].Failed?
    ensures RunOutcomes(outs) == Err(outs[k].e)
  {
    var prefix := outs[..k];
    assert outs[..k + 1][..k] == prefix;
    RunOkIffNoFailure(prefix);
    RunErrorPersists(outs, k + 1);
  }

  /** The index of the first failing line, when one fails. */
  lemma FirstFailure(outs: seq<LineOutcome>) returns (k: nat)
    requires exists j :: 0 <= j < |outs| && outs[j].Failed?
    ensures k < |outs| && outs[k].Failed?
    ensures forall j :: 0 <= j < k ==> !outs[j].Failed?
  {
    k := 0;
    while !outs[k].Failed?
      invariant k < |outs|
      invariant forall j :: 0 <= j < k ==> !outs[j].Failed?
      decreases |outs| - k
    {
      k := k + 1;
    }
  }

  /**
   * After a successful line loop, a field is marked given exactly when some line sets it; it
   * then holds the value of the LAST such line, and otherwise keeps the record's default.
   */
  lemma {:induction false} LastAssignWins(outs: seq<LineOutcome>, st: LoadState)
    requires WellKinded(outs)
    requires RunOutcomes(outs) == Ok(st)
    ensures forall f :: f in st.given <==> LastAssign(outs, f).Some?
    ensures forall f :: LastAssign(outs, f).Some? ==> Get(st.b, st.c, f) == LastAssign(outs, f).value
    ensures forall f :: LastAssign(outs, f).None? ==> Get(st.b, st.c, f) == Get(BrkgaParams(), ExternalControlParams(), f)
    decreases |outs|
  {
    if outs != [] {
      var prefix := outs[..|outs| - 1];
      var st0 := RunOutcomes(prefix).value;
      LastAssignWins(prefix, st0);
    }
  }

  /** Blank lines and comment lines never raise and change nothing. */
  lemma SkippedLine(k: nat, line: string, conv: Converters)
    requires Strip(line) == [] || Strip(line)[0] == '#'
    ensures Examine(k, line, conv) == Skipped
  {
  }

  /** A file with lines, all blank or comments, is reported as missing every parameter, in order. */
  lemma AllSkippedMissesEverything(filename: string, lines: seq<string>, conv: Converters)
    requires lines != []
    requires forall k :: 0 <= k < |lines| ==> Strip(lines[k]) == [] || Strip(lines[k])[0] == '#'
    ensures Load(filename, lines, conv) == Err(MissingParameters(NamesOf(Fields)))
  {
    var outs := Outcomes(lines, conv);
    forall j | 0 <= j < |lines| ensures outs[j] == Skipped {
      OutcomesAt(lines, conv, j);
    }
    RunOfSkipped(outs);
    MissingNothingGiven(Fields);
  }

  lemma {:induction false} RunOfSkipped(outs: seq<LineOutcome>)
    requires forall k :: 0 <= k < |outs| ==> outs[k] == Skipped
    ensures WellKinded(outs) && RunOutcomes(outs) == Ok(Initial)
    decreases |outs|
  {
    if outs != [] {
      RunOfSkipped(outs[..|outs| - 1]);
    }
  }

  lemma {:induction false} MissingNothingGiven(fields: seq<Field>)
    ensures MissingFields(fields, {}) == fields
    decreases |fields|
  {
    if fields != [] {
      MissingNothingGiven(fields[..|fields| - 1]);
    }
  }

  /**
   * A line error names the first failing line: its own outcome is that error and no line before
   * it failed. An empty file is the only one that cannot be read.
   */
  lemma LineErrorExplained(filename: string, lines: seq<string>, conv: Converters)
    requires Load(filename, lines, conv).Err?
    ensures var e := Load(filename, lines, conv).error;
      && (e.CannotRead? <==> lines == [])
      && (e.CannotRead? ==> e.filename == filename)
      && (e.MissingParameterOrValue? || e.UnknownParameter? || e.InvalidValue? ==>
            && e.line < |lines|
            && Examine(e.line, lines[e.line], conv) == Failed(e)
            && forall j :: 0 <= j < e.line ==> !Examine(j, lines[j], conv).Failed?)
  {
    if lines != [] {
      var outs := Outcomes(lines, conv);
      if RunOutcomes(outs).Err? {
        var k := RunFailure(outs);
        OutcomesAt(lines, conv, k);
        forall j | 0 <= j < k ensures !Examine(j, lines[j], conv).Failed? {
          OutcomesAt(lines, conv, j);
        }
      }
    }
  }

  /** A failed line loop failed at its first failing outcome, with that outcome's error. */
  lemma RunFailure(outs: seq<LineOutcome>) returns (k: nat)
    requires WellKinded(outs) && RunOutcomes(outs).Err?
    ensures k < |outs| && outs[k].Failed? && RunOutcomes(outs) == Err(outs[k].e)
    ensures forall j :: 0 <= j < k ==> !outs[j].Failed?
  {
    RunOkIffNoFailure(outs);
    k := FirstFailure(outs);
    FirstErrorWins(outs, k);
  }

  /**
   * `Missing parameters` is raised only when no line failed, and it names exactly the fields no
   * line sets, at least one.
   */
  lemma MissingExplained(filename: string, lines: seq<string>, conv: Converters) returns (missing: seq<Field>)
    requires Load(filename, lines, conv).Err? && Load(filename, lines, conv).error.MissingParameters?
    ensures forall j :: 0 <= j < |lines| ==> !Examine(j, lines[j], conv).Failed?
    ensures Load(filename, lines, conv).error.names != []
    ensures forall f: Field :: f.Name() in Load(filename, lines, conv).error.names <==> NoLineSets(lines, conv, f)
    ensures Load(filename, lines, conv).error.names == NamesOf(missing)
    ensures InDeclarationOrder(missing) && forall f :: f in missing <==> NoLineSets(lines, conv, f)
  {
    var outs := Outcomes(lines, conv);
    forall j | 0 <= j < |lines| ensures outs[j] == Examine(j, lines[j], conv) {
      OutcomesAt(lines, conv, j);
    }
    RunOkIffNoFailure(outs);
    RunRaisesLineErrors(outs);
    var st := RunOutcomes(outs).value;
    var names := NamesOf(MissingFields(Fields, st.given));
    assert Load(filename, lines, conv) == Err(MissingParameters(names));
    LastAssignWins(outs, st);
    MissingNamesExact(st.given);
    forall f: Field ensures f.Name() in names <==> NoLineSets(lines, conv, f) {
      assert f.Name() in names <==> LastAssign(outs, f).None?;
    }
    missing := MissingFields(Fields, st.given);
    FieldsInOrder();
    MissingFieldsOrdered(Fields, st.given);
    FieldsEnumerated();
    forall f: Field ensures f in missing <==> NoLineSets(lines, conv, f) {
      assert f in missing <==> LastAssign(outs, f).None?;
    }
  }

  /** Every parameter except `population_size`, `mutants_percentage`, `total_parents` and `bias_type`. */
  const AllButFour: set<Field> := {ElitePercentage, NumEliteParents, NumIndependentPopulations, PrNumberPairs,
                                   PrMinimumDistance, PrType, PrSelection, AlphaBlockSize, PrPercentage,
                                   ExchangeInterval, NumExchangeIndividuals, ResetInterval}

  /** When only those four are not given, they are the missing fields, in declaration order. */
  lemma MissingFourFields()
    ensures MissingFields(Fields, AllButFour) == [PopulationSize, MutantsPercentage, TotalParents, BiasType]
  {
    var four := [PopulationSize, MutantsPercentage, TotalParents, BiasType];
    var missing := MissingFields(Fields, AllButFour);
    FieldsInOrder();
    MissingFieldsOrdered(Fields, AllButFour);
    FieldsEnumerated();
    forall f ensures f in missing <==> f in four {
      assert f in Fields;
    }
    OrderedUnique(missing, four);
  }

  /** The message naming those four fields, in that order. */
  lemma FourNamesMessage()
    ensures Message(MissingParameters(NamesOf([PopulationSize, MutantsPercentage, TotalParents, BiasType]))) ==
      "Missing parameters: " + Join(["population_size", "mutants_percentage", "total_parents", "bias_type"], ", ")
  {
    var names := NamesOf([PopulationSize, MutantsPercentage, TotalParents, BiasType]);
    assert names == ["population_size", "mutants_percentage", "total_parents", "bias_type"];
  }

  /**
   * The message for a file that gives every parameter except `population_size`,
   * `mutants_percentage`, `total_parents` and `bias_type`: they are named in declaration order.
   */
  lemma MissingMessageExample()
    ensures Message(MissingParameters(NamesOf(MissingFields(Fields, AllButFour)))) ==
      "Missing parameters: " + Join(["population_size", "mutants_percentage", "total_parents", "bias_type"], ", ")
  {
    MissingFourFields();
    FourNamesMessage();
  }

  /** No line of the file sets `f`. */
  predicate NoLineSets(lines: seq<string>, conv: Converters, f: Field) {
    forall j :: 0 <= j < |lines| ==> !Sets(Examine(j, lines[j], conv), f)
  }

  /** The missing list names exactly the fields not given. */
  lemma MissingNamesExact(given: set<Field>)
    ensures forall f: Field :: f.Name() in NamesOf(MissingFields(Fields, given)) <==> f !in given
  {
    var missing := MissingFields(Fields, given);
    FieldsEnumerated();
    forall f: Field ensures f.Name() in NamesOf(missing) <==> f !in given {
      if f !in given {
        var i :| 0 <= i < |missing| && missing[i] == f;
        assert NamesOf(missing)[i] == f.Name();
      }
      if f.Name() in NamesOf(missing) {
        var i :| 0 <= i < |missing| && NamesOf(missing)[i] == f.Name();
        NameInjective(missing[i], f);
      }
    }
  }

  /** `f"{value}"`: `str` of an int, the float's text (left abstract), an enum member's bare name. */
  function ShowValue(v: Value, showReal: real -> string): string {
    match v
    case IntValue(i) => IntToString(i)
    case RealValue(x) => showReal(x)
    case BiasValue(m) => m.Name()
    case PrTypeValue(m) => m.Name()
    case PrSelectionValue(m) => m.Name()
  }

  /** The line `f"{name} {value}\n"` written for field `f`. */
  function FieldLine(f: Field, b: BrkgaParams, c: ExternalControlParams, showReal: real -> string): string {
    f.Name() + " " + ShowValue(Get(b, c, f), showReal) + "\n"
  }

  /** Field by field, the line written for it. */
  function Writer(b: BrkgaParams, c: ExternalControlParams, showReal: real -> string): Field -> string {
    f => FieldLine(f, b, c, showReal)
  }

  /** The text written for `fields`, one line each, in order. */
  function WrittenText(fields: seq<Field>, line: Field -> string): string
    decreases |fields|
  {
    if fields == [] then ""
    else WrittenText(fields[..|fields| - 1], line) + line(fields[|fields| - 1])
  }

  /** The text `write_configuration` writes to its file. */
  function Serialize(b: BrkgaParams, c: ExternalControlParams, showReal: real -> string): string {
    WrittenText(Fields, Writer(b, c, showReal))
  }

  /** Writing two lists of fields one after the other writes their concatenation. */
  lemma {:induction false} WrittenTextAppend(xs: seq<Field>, ys: seq<Field>, line: Field -> string)
    ensures WrittenText(xs + ys, line) == WrittenText(xs, line) + WrittenText(ys, line)
    decreases |ys|
  {
    if ys == [] {
      assert xs + ys == xs;
    } else {
      var init, last := ys[..|ys| - 1], ys[|ys| - 1];
      assert (xs + ys)[..|xs + ys| - 1] == xs + init;
      assert (xs + ys)[|xs + ys| - 1] == last;
      WrittenTextAppend(xs, init, line);
      AppendAssociative(WrittenText(xs, line), WrittenText(init, line), line(last));
    }
  }

  /** One loop of `write_configuration`: a `name value` line per attribute of one record, appended. */
  method AppendFieldLines(output: string, fields: seq<Field>, b: BrkgaParams, c: ExternalControlParams, showReal: real -> string)
    returns (out: string)
    ensures out == output + WrittenText(fields, Writer(b, c, showReal))
  {
    ghost var w := Writer(b, c, showReal);
    out := output;
    var i := 0;
    while i < |fields|
      invariant i <= |fields|
      invariant out == output + WrittenText(fields[..i], w)
    {
      var f := fields[i];
      assert fields[..i + 1][..i] == fields[..i];
      var line := f.Name() + " " + ShowValue(Get(b, c, f), showReal) + "\n";
      assert line == w(f);
      AppendAssociative(output, WrittenText(fields[..i], w), line);
      out := out + line;
      i := i + 1;
    }
    assert fields[..i] == fields;
  }

  /** `write_configuration`: the text it writes, `BrkgaParams` attributes first. */
  method WriteConfiguration(b: BrkgaParams, c: ExternalControlParams, showReal: real -> string) returns (output: string)
    ensures output == Serialize(b, c, showReal)
  {
    output := WriteRecords(BrkgaFields, ControlFields, b, c, showReal);
  }

  /** The two loops of `write_configuration`, over the attributes `xs` and then `ys`. */
  method WriteRecords(xs: seq<Field>, ys: seq<Field>, b: BrkgaParams, c: ExternalControlParams, showReal: real -> string)
    returns (output: string)
    ensures output == WrittenText(xs + ys, Writer(b, c, showReal))
  {
    ghost var w := Writer(b, c, showReal);
    output := AppendFieldLines("", xs, b, c, showReal);
    assert output == WrittenText(xs, w);
    output := AppendFieldLines(output, ys, b, c, showReal);
    WrittenTextAppend(xs, ys, w);
  }

  /** Enum member names are upper-case letters only. */
  lemma EnumNameShape(v: Value)
    requires v.BiasValue? || v.PrTypeValue? || v.PrSelectionValue?
    ensures var n := ShowValue(v, x => "");
      n != [] && forall i :: 0 <= i < |n| ==> IsUpperLetter(n[i])
  {
    match v
    case BiasValue(m) => BiasNameLetters(m);
    case PrTypeValue(m) => assert IsCapitalWord(m.Name());
    case PrSelectionValue(m) => assert IsCapitalWord(m.Name());
  }

  /**
   * The text written for a value is one non-empty word, and the field's converter reads its
   * lower-cased form back as that value, given that `int(str(i)) == i` and that the float text
   * is one word that `float` reads back.
   */
  lemma ShownValueReadsBack(f: Field, v: Value, showReal: real -> string, conv: Converters)
    requires v.Kind() == f.Kind()
    requires forall i: int :: conv.parseInt(IntToString(i)) == Some(i)
    requires forall x: real :: showReal(x) != [] && NoSpace(showReal(x)) && conv.parseReal(Lower(showReal(x))) == Some(x)
    ensures ShowValue(v, showReal) != [] && NoSpace(ShowValue(v, showReal))
    ensures Convert(f, Lower(ShowValue(v, showReal)), conv) == Some(v)
  {
    match v
    case IntValue(i) =>
      LowerIdentity(IntToString(i));
    case RealValue(x) =>
    case BiasValue(m) =>
      EnumNameShape(v);
      UpperOfLower(m.Name());
    case PrTypeValue(m) =>
      EnumNameShape(v);
      UpperOfLower(m.Name());
    case PrSelectionValue(m) =>
      EnumNameShape(v);
      UpperOfLower(m.Name());
  }

  /** A written line reads back as its field's name and the lower-cased value text. */
  lemma ParseWrittenLine(name: string, value: string)
    requires IsAttributeName(name)
    requires value != [] && NoSpace(value)
    ensures ParseLine(name + " " + value + "\n") == Entry(name, Lower(value))
  {
    AttributeNameIsWord(name);
    ParseWordPair(name, value);
  }

  /** An attribute name is one word that does not start a comment and is its own `lower()`. */
  lemma AttributeNameIsWord(name: string)
    requires IsAttributeName(name)
    ensures name != [] && NoSpace(name) && name[0] != '#' && Lower(name) == name
  {
    LowerIdentity(name);
  }

  /** A line holding two words, the first not starting a comment, reads as those words lower-cased. */
  lemma ParseWordPair(name: string, value: string)
    requires name != [] && NoSpace(name) && name[0] != '#'
    requires value != [] && NoSpace(value)
    ensures ParseLine(name + " " + value + "\n") == Entry(Lower(name), Lower(value))
  {
    StripWrittenLine(name, value);
    SplitTwoWords(name, value);
    StripTrimmed(name);
    StripTrimmed(value);
    ParseLineOf(name + " " + value + "\n", name + " " + value, name, value);
  }

  /** Stripping a written line leaves the name, the space and the value. */
  lemma StripWrittenLine(name: string, value: string)
    requires name != [] && NoSpace(name) && value != [] && NoSpace(value)
    ensures Strip(name + " " + value + "\n") == name + " " + value
    ensures (name + " " + value)[0] == name[0]
  {
    var s := name + " " + value;
    assert name + " " + value + "\n" == s + ['\n'];
    StripTrailingSpace(s, '\n');
    assert s[0] == name[0] && s[|s| - 1] == value[|value| - 1];
    StripTrimmed(s);
  }

  /** `ParseLine` on a line that strips to two words. */
  lemma ParseLineOf(line: string, s: string, a: string, b: string)
    requires Strip(line) == s && s != [] && s[0] != '#'
    requires Split(s) == [a, b] && Strip(a) == a && Strip(b) == b
    ensures ParseLine(line) == Entry(Lower(a), Lower(b))
  {
    assert ParseTokens([a, b]) == Entry(Lower(a), Lower(b));
    assert ParseStripped(s) == ParseTokens([a, b]);
  }

  /** A written line is newline-terminated and holds no other newline. */
  lemma WrittenLineTerminated(name: string, value: string)
    requires NoSpace(name) && NoSpace(value)
    ensures IsTerminatedLine(name + " " + value + "\n")
  {
  }

  /** The lines written for `fields`, one each, in order. */
  function LinesOf(fields: seq<Field>, line: Field -> string): (r: seq<string>)
    ensures |r| == |fields| && forall i :: 0 <= i < |fields| ==> r[i] == line(fields[i])
    decreases |fields|
  {
    if fields == [] then []
    else LinesOf(fields[..|fields| - 1], line) + [line(fields[|fields| - 1])]
  }

  /** The written text is the concatenation of the written lines. */
  lemma {:induction false} WrittenTextLines(fields: seq<Field>, line: Field -> string)
    ensures WrittenText(fields, line) == Concat(LinesOf(fields, line))
    decreases |fields|
  {
    if fields != [] {
      var init := fields[..|fields| - 1];
      WrittenTextLines(init, line);
      ConcatSnoc(LinesOf(init, line), line(fields[|fields| - 1]));
    }
  }

  /** Each written line is one newline-terminated line that sets its field back to its value. */
  lemma WrittenLineReadsBack(k: nat, f: Field, b: BrkgaParams, c: ExternalControlParams, showReal: real -> string, conv: Converters)
    requires forall i: int :: conv.parseInt(IntToString(i)) == Some(i)
    requires forall x: real :: showReal(x) != [] && NoSpace(showReal(x)) && conv.parseReal(Lower(showReal(x))) == Some(x)
    ensures IsTerminatedLine(FieldLine(f, b, c, showReal))
    ensures Examine(k, FieldLine(f, b, c, showReal), conv) == Assign(f, Get(b, c, f))
  {
    var v := Get(b, c, f);
    FieldNameShape(f);
    ShownValueReadsBack(f, v, showReal, conv);
    WrittenLineTerminated(f.Name(), ShowValue(v, showReal));
    ParseWrittenLine(f.Name(), ShowValue(v, showReal));
    FieldNamedName(f);
  }

  /** The last line setting `f` is line `k` when no later line sets it. */
  lemma {:induction false} LastAssignAt(outs: seq<LineOutcome>, f: Field, k: nat, v: Value)
    requires k < |outs| && outs[k] == Assign(f, v)
    requires forall j :: k < j < |outs| ==> !Sets(outs[j], f)
    ensures LastAssign(outs, f) == Some(v)
    decreases |outs|
  {
    if k < |outs| - 1 {
      LastAssignAt(outs[..|outs| - 1], f, k, v);
    }
  }

  /**
   * Reading back what `write_configuration` wrote gives the same two records: every field is
   * found under its written name, its value converts back, and nothing is reported missing.
   * The hypotheses are what Python's `int` and `float` do on `str` of a number.
   */
  lemma WriteThenLoad(filename: string, b: BrkgaParams, c: ExternalControlParams, showReal: real -> string, conv: Converters)
    requires forall i: int :: conv.parseInt(IntToString(i)) == Some(i)
    requires forall x: real :: showReal(x) != [] && NoSpace(showReal(x)) && conv.parseReal(Lower(showReal(x))) == Some(x)
    ensures Load(filename, ReadLines(Serialize(b, c, showReal)), conv) == Ok((b, c))
  {
    var w := Writer(b, c, showReal);
    var lines := LinesOf(Fields, w);
    var outs := Outcomes(lines, conv);
    FieldsEnumerated();
    forall i | 0 <= i < |lines|
      ensures IsTerminatedLine(lines[i])
      ensures outs[i] == Assign(Fields[i], Get(b, c, Fields[i]))
    {
      WrittenLineReadsBack(i, Fields[i], b, c, showReal, conv);
      OutcomesAt(lines, conv, i);
    }
    WrittenTextLines(Fields, w);
    ReadLinesOfConcat(lines);
    LoadOfAssignments(filename, lines, conv, b, c);
  }

  /** Outcomes that assign every field, in declaration order, its value in `b` and `c` run to exactly `b` and `c`. */
  lemma AssignmentsRun(outs: seq<LineOutcome>, b: BrkgaParams, c: ExternalControlParams)
    requires |outs| == |Fields| && WellKinded(outs)
    requires forall i :: 0 <= i < |outs| ==> outs[i] == Assign(Fields[i], Get(b, c, Fields[i]))
    ensures RunOutcomes(outs).Ok?
    ensures RunOutcomes(outs).value.b == b && RunOutcomes(outs).value.c == c
    ensures forall f :: f in RunOutcomes(outs).value.given
  {
    FieldsEnumerated();
    RunOkIffNoFailure(outs);
    var st := RunOutcomes(outs).value;
    LastAssignWins(outs, st);
    forall f: Field ensures LastAssign(outs, f) == Some(Get(b, c, f)) {
      LastAssignAt(outs, f, Position(f), Get(b, c, f));
    }
    RecordsExtensional(st.b, st.c, b, c);
  }

  /** A file whose line `i` sets field `Fields[i]` to its value in `b` and `c` loads as `b` and `c`. */
  lemma LoadOfAssignments(filename: string, lines: seq<string>, conv: Converters, b: BrkgaParams, c: ExternalControlParams)
    requires |lines| == |Fields|
    requires forall i :: 0 <= i < |lines| ==> Outcomes(lines, conv)[i] == Assign(Fields[i], Get(b, c, Fields[i]))
    ensures Load(filename, lines, conv) == Ok((b, c))
  {
    AssignmentsRun(Outcomes(lines, conv), b, c);
    LoadOfRun(filename, lines, conv);
  }

  /** A run in which every field was given loads as the records the run built. */
  lemma LoadOfRun(filename: string, lines: seq<string>, conv: Converters)
    requires lines != []
    requires RunOutcomes(Outcomes(lines, conv)).Ok?
    requires forall f :: f in RunOutcomes(Outcomes(lines, conv)).value.given
    ensures Load(filename, lines, conv) == Ok((RunOutcomes(Outcomes(lines, conv)).value.b, RunOutcomes(Outcomes(lines, conv)).value.c))
  {
    var st := RunOutcomes(Outcomes(lines, conv)).value;
    MissingNone(Fields, st.given);
  }

  lemma {:induction false} MissingNone(fields: seq<Field>, given: set<Field>)
    requires forall f :: f in fields ==> f in given
    ensures MissingFields(fields, given) == []
    decreases |fields|
  {
    if fields != [] {
      assert forall f :: f in fields[..|fields| - 1] ==> f in fields;
      MissingNone(fields[..|fields| - 1], given);
    }
  }
}
