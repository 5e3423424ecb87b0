/**
 * The halo2 "equal" circuit of templates/halo2/pse/src/circuit.rs: its
 * configuration, its synthesis through the chip, the witness-free copies used
 * for key generation, and `from_json`, which builds a circuit and its expected
 * public inputs from the prover's `X` and `Y`. Reading and decoding the JSON
 * file is not modelled: `from_json` takes the two decoded `u64` values.
 */
module Halo2Circuit {
  import opened Wrappers
  import opened Halo2Chip

  const U64Limit: int := 0x1_0000_0000_0000_0000

  /** `EqualCircuit`: the two witness values. */
  datatype EqualCircuit = EqualCircuit(x: Val, y: Val)

  /** `#[derive(Default)]`: both values unknown. */
  const Default := EqualCircuit(Unknown, Unknown)

  /** `without_witnesses`: the default circuit, whatever the witnesses were. */
  function WithoutWitnesses(c: EqualCircuit): (r: EqualCircuit)
    ensures r.x.Unknown? && r.y.Unknown?
  {
    Default
  }

  /** `keygen_circuit`: the circuit keys are generated from. */
  function KeygenCircuit(): (r: EqualCircuit)
    ensures r.x.Unknown? && r.y.Unknown?
  {
    Default
  }

  /** Key generation sees the same circuit whichever way it is obtained. */
  lemma KeygenIsWithoutWitnesses(c: EqualCircuit)
    ensures KeygenCircuit() == WithoutWitnesses(c)
  {
  }

  /**
   * `configure`: two new advice columns and one new instance column, handed to
   * the chip. It does not take a circuit: the configuration cannot depend on
   * the witnesses.
   */
  method CircuitConfigure(meta: ConstraintSystem) returns (config: EqualConfig)
    modifies meta
    ensures config == EqualConfig(Advice(old(meta.numAdvice)), Advice(old(meta.numAdvice) + 1),
                                  Instance(old(meta.numInstance)), Selector(old(meta.numSelectors)))
    ensures config.advice0 != config.advice1
    ensures meta.numAdvice == old(meta.numAdvice) + 2 && meta.numInstance == old(meta.numInstance) + 1
    ensures meta.numSelectors == old(meta.numSelectors) + 1
    ensures meta.equality == old(meta.equality) + {config.instance, config.advice0, config.advice1}
    ensures meta.gates == old(meta.gates) + [DiffGate(config)]
  {
    var col0 := meta.AdviceColumn();
    var col1 := meta.AdviceColumn();
    var instance := meta.InstanceColumn();
    config := Configure(meta, col0, col1, instance);
  }

  /** What synthesis leaves in a layouter. */
  datatype Layout = Layout(advice: map<Cell, Val>, enabled: set<(Selector, nat)>, copies: seq<(Cell, Cell)>)

  /** The layout synthesis produces in a fresh layouter: the operand row 0, the diff rows 1 and 2. */
  function FreshLayout(config: EqualConfig, x: Val, y: Val): Layout {
    var a0, a1 := config.advice0, config.advice1;
    Layout(
      map[Cell(a0, 0) := x][Cell(a1, 0) := y][Cell(a0, 1) := x][Cell(a1, 1) := y][Cell(a0, 2) := Sub(x, y)],
      {(config.selector, 1)},
      [(Cell(a0, 0), Cell(a0, 1)), (Cell(a1, 0), Cell(a1, 1)),
       (Cell(a1, 0), Cell(config.instance, 0)), (Cell(a0, 2), Cell(config.instance, 1))])
  }

  /**
   * `synthesize`: the operand region, then the diff region, then the public
   * bindings; the first error is returned and the later steps do not run. The
   * public `y` is the operand-row `y` cell.
   */
  method Synthesize(circuit: EqualCircuit, config: EqualConfig, layouter: Layouter) returns (r: Result<(), Error>)
    modifies layouter
    ensures r.Ok? <==> old(layouter.nextRow) + 2 < layouter.usableRows
    ensures r.Err? ==> r.error == NotEnoughRowsAvailable
    ensures var s := old(layouter.nextRow);
      var a0, a1 := config.advice0, config.advice1;
      r.Ok? ==>
        layouter.advice == old(layouter.advice)[Cell(a0, s) := circuit.x][Cell(a1, s) := circuit.y]
                             [Cell(a0, s + 1) := circuit.x][Cell(a1, s + 1) := circuit.y]
                             [Cell(a0, s + 2) := Sub(circuit.x, circuit.y)] &&
        layouter.enabled == old(layouter.enabled) + {(config.selector, s + 1)} &&
        layouter.copies == old(layouter.copies) +
          [(Cell(a0, s), Cell(a0, s + 1)), (Cell(a1, s), Cell(a1, s + 1)),
           (Cell(a1, s), Cell(config.instance, 0)), (Cell(a0, s + 2), Cell(config.instance, 1))]
    ensures old(layouter.advice) == map[] && old(layouter.enabled) == {} && old(layouter.copies) == [] &&
            old(layouter.nextRow) == 0 && r.Ok? ==>
      Layout(layouter.advice, layouter.enabled, layouter.copies) == FreshLayout(config, circuit.x, circuit.y)
  {
    var chip := EqualChip(config);
    var operands := AssignOperands(chip, layouter, circuit.x, circuit.y);
    if operands.Err? {
      return Err(operands.error);
    }
    var (xCell, yCell) := operands.value;
    var equalCell := Diff(chip, layouter, xCell, yCell);
    if equalCell.Err? {
      return Err(equalCell.error);
    }
    r := ExposePublic(chip, layouter, yCell, equalCell.value);
  }

  /** The shape of the layout (cells, enabled rows, copies) does not depend on the witnesses. */
  lemma LayoutShapeIndependentOfWitness(config: EqualConfig, x: Val, y: Val)
    ensures FreshLayout(config, x, y).advice.Keys == FreshLayout(config, Unknown, Unknown).advice.Keys
    ensures FreshLayout(config, x, y).enabled == FreshLayout(config, Unknown, Unknown).enabled
    ensures FreshLayout(config, x, y).copies == FreshLayout(config, Unknown, Unknown).copies
  {
  }

  /** A configuration as `CircuitConfigure` produces it. */
  predicate Configured(config: EqualConfig) {
    config.advice0.Advice? && config.advice1.Advice? && config.advice0 != config.advice1 &&
    config.instance.Instance?
  }

  /**
   * With known witnesses, the synthesized layout satisfies the circuit exactly
   * when the public inputs are `y` at row 0 and `x - y` at row 1 (in the field).
   */
  lemma SatisfiedIff(p: nat, config: EqualConfig, x: int, y: int, instance: seq<seq<int>>)
    requires p > 1 && Configured(config)
    requires config.instance.index < |instance| && |instance[config.instance.index]| >= 2
    ensures var layout := FreshLayout(config, Known(x), Known(y));
      var pub := instance[config.instance.index];
      Satisfied(p, [DiffGate(config)], layout.advice, layout.enabled, layout.copies, instance) <==>
      pub[0] % p == y % p && pub[1] % p == (x - y) % p
  {
    var layout := FreshLayout(config, Known(x), Known(y));
    var a0, a1, inst := config.advice0, config.advice1, config.instance;
    var pub := instance[inst.index];
    assert CellValue(layout.advice, instance, Cell(a0, 0)) == x;
    assert CellValue(layout.advice, instance, Cell(a1, 0)) == y;
    assert CellValue(layout.advice, instance, Cell(a0, 1)) == x;
    assert CellValue(layout.advice, instance, Cell(a1, 1)) == y;
    assert CellValue(layout.advice, instance, Cell(a0, 2)) == x - y;
    assert CellValue(layout.advice, instance, Cell(inst, 0)) == pub[0];
    assert CellValue(layout.advice, instance, Cell(inst, 1)) == pub[1];
    DiffGateSemantics(p, 1, x, y, x - y);
    assert GatesHold(p, [DiffGate(config)], layout.advice, layout.enabled, instance);
    if pub[0] % p == y % p && pub[1] % p == (x - y) % p {
      assert CopiesHold(p, layout.copies, layout.advice, instance) by {
        forall k | 0 <= k < |layout.copies|
          ensures CellValue(layout.advice, instance, layout.copies[k].0) % p ==
                  CellValue(layout.advice, instance, layout.copies[k].1) % p
        {
          assert k == 0 || k == 1 || k == 2 || k == 3;
        }
      }
    }
    if CopiesHold(p, layout.copies, layout.advice, instance) {
      assert layout.copies[2] == (Cell(a1, 0), Cell(inst, 0));
      assert layout.copies[3] == (Cell(a0, 2), Cell(inst, 1));
    }
  }

  /**
   * `from_json`, as written: the circuit for `X` and `Y` and the public inputs
   * it expects, `Y` and then `0` when `X == Y` and `1` otherwise.
   */
  function FromJsonAsWritten(xin: nat, yin: nat): (r: (EqualCircuit, seq<seq<int>>))
    requires xin < U64Limit && yin < U64Limit
    ensures r.0 == EqualCircuit(Known(xin), Known(yin))
    ensures |r.1| == 1 && |r.1[0]| == 2 && r.1[0][0] == yin
    ensures r.1[0][1] == 0 <==> xin == yin
  {
    var equality := if xin == yin then 0 else 1;
    (EqualCircuit(Known(xin), Known(yin)), [[yin, equality]])
  }

  /**
   * The circuit publishes `X - Y` where `from_json` expects the equality flag,
   * so an honest proof matches `from_json`'s public inputs only when `X == Y`
   * or `X - Y == 1` in the field.
   */
  lemma FromJsonAgreesIff(p: nat, config: EqualConfig, xin: nat, yin: nat)
    requires p > 1 && Configured(config) && config.instance == Instance(0)
    requires xin < U64Limit && yin < U64Limit
    ensures var (circuit, instance) := FromJsonAsWritten(xin, yin);
      var layout := FreshLayout(config, circuit.x, circuit.y);
      Satisfied(p, [DiffGate(config)], layout.advice, layout.enabled, layout.copies, instance) <==>
      xin == yin || (xin - yin) % p == 1
  {
    var r := FromJsonAsWritten(xin, yin);
    SatisfiedIff(p, config, xin, yin, r.1);
    FlagMatchesDifferenceIff(p, xin, yin);
  }

  /** The equality flag equals `X - Y` in the field exactly when `X == Y` or `X - Y == 1`. */
  lemma FlagMatchesDifferenceIff(p: nat, xin: nat, yin: nat)
    requires p > 1
    ensures (if xin == yin then 0 else 1) % p == (xin - yin) % p <==> xin == yin || (xin - yin) % p == 1
  {
    assert 1 % p == 1;
  }

  /** `X = 3`, `Y = 1`: the honest witness does not satisfy `from_json`'s public inputs. */
  lemma FromJsonRejectsHonestWitness(p: nat, config: EqualConfig)
    requires p > 2 && Configured(config) && config.instance == Instance(0)
    ensures var (circuit, instance) := FromJsonAsWritten(3, 1);
      var layout := FreshLayout(config, circuit.x, circuit.y);
      !Satisfied(p, [DiffGate(config)], layout.advice, layout.enabled, layout.copies, instance)
  {
    FromJsonAgreesIff(p, config, 3, 1);
    assert 2 % p == 2;
  }

  /**
   * `from_json` with public inputs that match what the circuit computes: `Y`
   * and `X - Y` reduced into the field, which is zero exactly when `X` and
   * `Y` are equal in the field.
   */
  function FromJson(p: nat, xin: nat, yin: nat): (r: (EqualCircuit, seq<seq<int>>))
    requires p > 1 && xin < U64Limit && yin < U64Limit
    ensures r.0 == EqualCircuit(Known(xin), Known(yin))
    ensures |r.1| == 1 && |r.1[0]| == 2 && r.1[0][0] == yin
    ensures r.1[0][1] == 0 <==> xin % p == yin % p
  {
    ModDifference(p, xin, yin);
    (EqualCircuit(Known(xin), Known(yin)), [[yin, (xin - yin) % p]])
  }

  /** For every `X` and `Y` the honest proof matches `FromJson`'s public inputs. */
  lemma FromJsonAlwaysAgrees(p: nat, config: EqualConfig, xin: nat, yin: nat)
    requires p > 1 && Configured(config) && config.instance == Instance(0)
    requires xin < U64Limit && yin < U64Limit
    ensures var (circuit, instance) := FromJson(p, xin, yin);
      var layout := FreshLayout(config, circuit.x, circuit.y);
      Satisfied(p, [DiffGate(config)], layout.advice, layout.enabled, layout.copies, instance)
  {
    var (circuit, instance) := FromJson(p, xin, yin);
    SatisfiedIff(p, config, xin, yin, instance);
    var d := (xin - yin) % p;
    assert d % p == d by { ModOfMultiplePlus(p, 0, d); }
  }
}
