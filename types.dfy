/**
 * The parameter records: `BrkgaParams` (the BRKGA and path-relinking hyper-parameters) and
 * `ExternalControlParams` (intervals for a driver loop), with their defaults and the order in
 * which their fields are declared. That order fixes what the configuration reader accepts, the
 * order in which it reports missing parameters, and the order in which the writer emits them.
 */
module Types {
  import opened Wrappers
  import opened Text
  import opened Enums

  /** A fresh `BrkgaParams()`: every number zero, bias CONSTANT, relinking DIRECT from BESTSOLUTION. */
  datatype BrkgaParams = BrkgaParams(
    populationSize: int := 0,
    elitePercentage: real := 0.0,
    mutantsPercentage: real := 0.0,
    numEliteParents: int := 0,
    totalParents: int := 0,
    biasType: BiasFunctionType := CONSTANT,
    numIndependentPopulations: int := 0,
    prNumberPairs: int := 0,
    prMinimumDistance: real := 0.0,
    prType: PathRelinkingType := DIRECT,
    prSelection: PathRelinkingSelection := BESTSOLUTION,
    alphaBlockSize: real := 0.0,
    prPercentage: real := 0.0)

  /** `ExternalControlParams(exchange_interval=0, num_exchange_indivuduals=0, reset_interval=0)` */
  datatype ExternalControlParams = ExternalControlParams(
    exchangeInterval: int := 0,
    numExchangeIndividuals: int := 0,
    resetInterval: int := 0)

  /** The Python type of a field's default value, which is also the converter applied to its text. */
  datatype Kind = IntKind | RealKind | BiasKind | PrTypeKind | PrSelectionKind

  /** A value held by some parameter field. */
  datatype Value =
    | IntValue(i: int)
    | RealValue(x: real)
    | BiasValue(bias: BiasFunctionType)
    | PrTypeValue(prType: PathRelinkingType)
    | PrSelectionValue(prSelection: PathRelinkingSelection)
  {
    function Kind(): Kind {
      match this
      case IntValue(_) => IntKind
      case RealValue(_) => RealKind
      case BiasValue(_) => BiasKind
      case PrTypeValue(_) => PrTypeKind
      case PrSelectionValue(_) => PrSelectionKind
    }
  }

  /** The attributes of both records; the name is the attribute name `vars()` reports. */
  datatype Field =
    | PopulationSize | ElitePercentage | MutantsPercentage | NumEliteParents | TotalParents
    | BiasType | NumIndependentPopulations | PrNumberPairs | PrMinimumDistance | PrType
    | PrSelection | AlphaBlockSize | PrPercentage
    | ExchangeInterval | NumExchangeIndividuals | ResetInterval
  {
    function Name(): string {
      match this
      case PopulationSize => "population_size"
      case ElitePercentage => "elite_percentage"
      case MutantsPercentage => "mutants_percentage"
      case NumEliteParents => "num_elite_parents"
      case TotalParents => "total_parents"
      case BiasType => "bias_type"
      case NumIndependentPopulations => "num_independent_populations"
      case PrNumberPairs => "pr_number_pairs"
      case PrMinimumDistance => "pr_minimum_distance"
      case PrType => "pr_type"
      case PrSelection => "pr_selection"
      case AlphaBlockSize => "alpha_block_size"
      case PrPercentage => "pr_percentage"
      case ExchangeInterval => "exchange_interval"
      case NumExchangeIndividuals => "num_exchange_indivuduals"
      case ResetInterval => "reset_interval"
    }

    function Kind(): Kind {
      match this
      case ElitePercentage | MutantsPercentage | PrMinimumDistance | AlphaBlockSize | PrPercentage => RealKind
      case BiasType => BiasKind
      case PrType => PrTypeKind
      case PrSelection => PrSelectionKind
      case _ => IntKind
    }
  }

  /** `BrkgaParams` attributes in declaration order. */
  const BrkgaFields: seq<Field> := [
    PopulationSize, ElitePercentage, MutantsPercentage, NumEliteParents, TotalParents,
    BiasType, NumIndependentPopulations, PrNumberPairs, PrMinimumDistance, PrType,
    PrSelection, AlphaBlockSize, PrPercentage]

  /** `ExternalControlParams` attributes in declaration order. */
  const ControlFields: seq<Field> := [ExchangeInterval, NumExchangeIndividuals, ResetInterval]

  /** Both records' attributes, `BrkgaParams` first: the order of `chain(vars(...), vars(...))`. */
  const Fields: seq<Field> := BrkgaFields + ControlFields

  /** Position of a field in `Fields`. */
  function Position(f: Field): nat {
    match f
    case PopulationSize => 0
    case ElitePercentage => 1
    case MutantsPercentage => 2
    case NumEliteParents => 3
    case TotalParents => 4
    case BiasType => 5
    case NumIndependentPopulations => 6
    case PrNumberPairs => 7
    case PrMinimumDistance => 8
    case PrType => 9
    case PrSelection => 10
    case AlphaBlockSize => 11
    case PrPercentage => 12
    case ExchangeInterval => 13
    case NumExchangeIndividuals => 14
    case ResetInterval => 15
  }

  /** The two records list every field exactly once between them, and no field belongs to both. */
  lemma FieldsEnumerated()
    ensures |Fields| == 16
    ensures forall f: Field :: Position(f) < 16 && Fields[Position(f)] == f
    ensures forall i :: 0 <= i < |Fields| ==> Position(Fields[i]) == i
    ensures forall i, j :: 0 <= i < j < |Fields| ==> Fields[i] != Fields[j]
    ensures forall f: Field :: f in BrkgaFields <==> Position(f) < 13
    ensures forall f: Field :: f in ControlFields <==> Position(f) >= 13
  {
    FieldsPositions();
    forall f: Field ensures Position(f) < 16 && Fields[Position(f)] == f {
      FieldAtPosition(f);
    }
    forall f: Field ensures f in BrkgaFields <==> Position(f) < 13 {
      FieldAtPosition(f);
      if Position(f) < 13 {
        assert BrkgaFields[Position(f)] == Fields[Position(f)];
      }
    }
    forall f: Field ensures f in ControlFields <==> Position(f) >= 13 {
      FieldAtPosition(f);
      if Position(f) >= 13 {
        assert ControlFields[Position(f) - 13] == Fields[Position(f)];
      }
    }
  }

  /** Field `i` of `Fields` sits at position `i`, the control fields after the 13 `BrkgaParams` ones. */
  lemma FieldsPositions()
    ensures |BrkgaFields| == 13 && |ControlFields| == 3 && |Fields| == 16
    ensures forall i :: 0 <= i < |BrkgaFields| ==> Position(BrkgaFields[i]) == i
    ensures forall i :: 0 <= i < |ControlFields| ==> Position(ControlFields[i]) == 13 + i
    ensures forall i :: 0 <= i < |Fields| ==> Position(Fields[i]) == i
  {
    assert forall i :: 0 <= i < |BrkgaFields| ==> Position(BrkgaFields[i]) == i;
    assert forall i :: 0 <= i < |ControlFields| ==> Position(ControlFields[i]) == 13 + i;
    forall i | 0 <= i < |Fields| ensures Position(Fields[i]) == i {
      if i < 13 {
        assert Fields[i] == BrkgaFields[i];
      } else {
        assert Fields[i] == ControlFields[i - 13];
      }
    }
  }

  /** Every field is found in `Fields` at its position. */
  lemma FieldAtPosition(f: Field)
    ensures Position(f) < 16 && Fields[Position(f)] == f
  {
    assert |Fields| == 16;
  }

  /** `getattr(data, f.Name())` on the record that owns `f`. */
  function Get(b: BrkgaParams, c: ExternalControlParams, f: Field): (v: Value)
    ensures v.Kind() == f.Kind()
  {
    match f
    case PopulationSize => IntValue(b.populationSize)
    case ElitePercentage => RealValue(b.elitePercentage)
    case MutantsPercentage => RealValue(b.mutantsPercentage)
    case NumEliteParents => IntValue(b.numEliteParents)
    case TotalParents => IntValue(b.totalParents)
    case BiasType => BiasValue(b.biasType)
    case NumIndependentPopulations => IntValue(b.numIndependentPopulations)
    case PrNumberPairs => IntValue(b.prNumberPairs)
    case PrMinimumDistance => RealValue(b.prMinimumDistance)
    case PrType => PrTypeValue(b.prType)
    case PrSelection => PrSelectionValue(b.prSelection)
    case AlphaBlockSize => RealValue(b.alphaBlockSize)
    case PrPercentage => RealValue(b.prPercentage)
    case ExchangeInterval => IntValue(c.exchangeInterval)
    case NumExchangeIndividuals => IntValue(c.numExchangeIndividuals)
    case ResetInterval => IntValue(c.resetInterval)
  }

  /**
   * `setattr(data, f.Name(), v)`: the field `f` now holds `v`, every other field of both records
   * is unchanged, and a `BrkgaParams` field never touches the control record (nor the reverse).
   */
  function Set(b: BrkgaParams, c: ExternalControlParams, f: Field, v: Value): (r: (BrkgaParams, ExternalControlParams))
    requires v.Kind() == f.Kind()
    ensures Get(r.0, r.1, f) == v
    ensures forall g: Field :: g != f ==> Get(r.0, r.1, g) == Get(b, c, g)
    ensures f in BrkgaFields ==> r.1 == c
    ensures f in ControlFields ==> r.0 == b
  {
    match f
    case PopulationSize => (b.(populationSize := v.i), c)
    case ElitePercentage => (b.(elitePercentage := v.x), c)
    case MutantsPercentage => (b.(mutantsPercentage := v.x), c)
    case NumEliteParents => (b.(numEliteParents := v.i), c)
    case TotalParents => (b.(totalParents := v.i), c)
    case BiasType => (b.(biasType := v.bias), c)
    case NumIndependentPopulations => (b.(numIndependentPopulations := v.i), c)
    case PrNumberPairs => (b.(prNumberPairs := v.i), c)
    case PrMinimumDistance => (b.(prMinimumDistance := v.x), c)
    case PrType => (b.(prType := v.prType), c)
    case PrSelection => (b.(prSelection := v.prSelection), c)
    case AlphaBlockSize => (b.(alphaBlockSize := v.x), c)
    case PrPercentage => (b.(prPercentage := v.x), c)
    case ExchangeInterval => (b, c.(exchangeInterval := v.i))
    case NumExchangeIndividuals => (b, c.(numExchangeIndividuals := v.i))
    case ResetInterval => (b, c.(resetInterval := v.i))
  }

  /** Two pairs of records are equal exactly when they agree on every field. */
  lemma RecordsExtensional(b: BrkgaParams, c: ExternalControlParams, b': BrkgaParams, c': ExternalControlParams)
    requires forall f: Field :: Get(b, c, f) == Get(b', c', f)
    ensures b == b' && c == c'
  {
    assert Get(b, c, PopulationSize) == Get(b', c', PopulationSize);
    assert Get(b, c, ElitePercentage) == Get(b', c', ElitePercentage);
    assert Get(b, c, MutantsPercentage) == Get(b', c', MutantsPercentage);
    assert Get(b, c, NumEliteParents) == Get(b', c', NumEliteParents);
    assert Get(b, c, TotalParents) == Get(b', c', TotalParents);
    assert Get(b, c, BiasType) == Get(b', c', BiasType);
    assert Get(b, c, NumIndependentPopulations) == Get(b', c', NumIndependentPopulations);
    assert Get(b, c, PrNumberPairs) == Get(b', c', PrNumberPairs);
    assert Get(b, c, PrMinimumDistance) == Get(b', c', PrMinimumDistance);
    assert Get(b, c, PrType) == Get(b', c', PrType);
    assert Get(b, c, PrSelection) == Get(b', c', PrSelection);
    assert Get(b, c, AlphaBlockSize) == Get(b', c', AlphaBlockSize);
    assert Get(b, c, PrPercentage) == Get(b', c', PrPercentage);
    assert Get(b, c, ExchangeInterval) == Get(b', c', ExchangeInterval);
    assert Get(b, c, NumExchangeIndividuals) == Get(b', c', NumExchangeIndividuals);
    assert Get(b, c, ResetInterval) == Get(b', c', ResetInterval);
  }

  /** The first field of `fields` called `name`: a dictionary lookup among `vars(...)` keys. */
  function FindField(fields: seq<Field>, name: string): (r: Option<Field>)
    ensures r.Some? ==> r.value in fields && r.value.Name() == name
    ensures r.None? ==> forall i :: 0 <= i < |fields| ==> fields[i].Name() != name
  {
    if fields == [] then None
    else if fields[0].Name() == name then Some(fields[0])
    else FindField(fields[1..], name)
  }

  /**
   * `name in vars(brkga_params)`, else `name in vars(control_params)`: the field called `name`,
   * if any. Names are compared exactly; the reader lower-cases them first.
   */
  function FieldNamed(name: string): (r: Option<Field>)
    ensures r.Some? ==> r.value.Name() == name
    ensures r.None? ==> forall f: Field :: f.Name() != name
  {
    match FindField(BrkgaFields, name)
    case Some(f) => Some(f)
    case None =>
      var r := FindField(ControlFields, name);
      assert r.None? ==> forall f: Field :: f.Name() != name by {
        if r.None? {
          FieldsEnumerated();
          forall f: Field ensures f.Name() != name {
            if Position(f) < 13 {
              assert BrkgaFields[Position(f)] == f;
            } else {
              assert ControlFields[Position(f) - 13] == f;
            }
          }
        }
      }
      r
  }

  /** No two fields share a name: distinct names differ in length or in one of their first two letters. */
  lemma NameInjective(f: Field, g: Field)
    ensures f.Name() == g.Name() ==> f == g
  {
    if Position(f) < 8 {
      NamesDifferFirstHalf(f, g);
    } else {
      NamesDifferSecondHalf(f, g);
    }
  }

  // The sixteen names are compared against those of the first eight fields, then the last eight;
  // the last eight already differ from every other name in length or in their first letter.
  lemma NamesDifferFirstHalf(f: Field, g: Field)
    requires Position(f) < 8
    ensures f.Name() == g.Name() ==> f == g
  {
    assert f == g || |f.Name()| != |g.Name()| || f.Name()[0] != g.Name()[0] || f.Name()[1] != g.Name()[1];
  }

  lemma NamesDifferSecondHalf(f: Field, g: Field)
    requires 8 <= Position(f)
    ensures f.Name() == g.Name() ==> f == g
  {
    assert f == g || |f.Name()| != |g.Name()| || f.Name()[0] != g.Name()[0];
  }

  lemma {:induction false} FindFieldUnique(fields: seq<Field>, f: Field)
    requires f in fields
    ensures FindField(fields, f.Name()) == Some(f)
  {
    NameInjective(fields[0], f);
    if fields[0] != f {
      FindFieldUnique(fields[1..], f);
    }
  }

  /** Every field is found under its own name. */
  lemma FieldNamedName(f: Field)
    ensures FieldNamed(f.Name()) == Some(f)
  {
    FieldsEnumerated();
    if Position(f) < 13 {
      FindFieldUnique(BrkgaFields, f);
    } else {
      FindFieldUnique(ControlFields, f);
    }
  }

  /** Lower-case letters and underscores only. */
  predicate IsAttributeName(s: string) {
    s != [] && IsLowerLetter(s[0]) && forall i :: 0 <= i < |s| ==> IsLowerLetter(s[i]) || s[i] == '_'
  }

  // The letters of sixteen literals are checked four fields at a time, to keep each proof small.
  lemma NameShapeFirst(f: Field)
    requires Position(f) < 4
    ensures IsAttributeName(f.Name())
  {
  }

  lemma NameShapeSecond(f: Field)
    requires 4 <= Position(f) < 8
    ensures IsAttributeName(f.Name())
  {
  }

  lemma NameShapeThird(f: Field)
    requires 8 <= Position(f) < 12
    ensures IsAttributeName(f.Name())
  {
  }

  lemma NameShapeFourth(f: Field)
    requires 12 <= Position(f)
    ensures IsAttributeName(f.Name())
  {
  }

  /** Attribute names are lower-case words joined by underscores. */
  lemma FieldNameShape(f: Field)
    ensures IsAttributeName(f.Name())
  {
    if Position(f) < 4 {
      NameShapeFirst(f);
    } else if Position(f) < 8 {
      NameShapeSecond(f);
    } else if Position(f) < 12 {
      NameShapeThird(f);
    } else {
      NameShapeFourth(f);
    }
  }
}
