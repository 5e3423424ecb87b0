/**
 * The halo2 "equal" chip of templates/halo2/pse-v0.3.0/src/chip.rs: one custom
 * gate `s * ((a0[r] - a1[r]) - a0[r + 1])` over two advice columns, a region
 * holding the two operands, a region computing their difference, and two copy
 * constraints into an instance column.
 *
 * Field elements are integers compared modulo a prime `p` (the chip is generic
 * over the field). The parts of the halo2 library the chip drives are modelled
 * by their observable state: a `ConstraintSystem` counts the columns and
 * selectors it hands out and records equality-enabled columns and gates; a
 * `Layouter` places regions one after another and records advice assignments,
 * enabled selectors and copy constraints.
 */
module Halo2Chip {
  import opened Wrappers

  datatype Column = Advice(index: nat) | Instance(index: nat)
  datatype Selector = Selector(index: nat)
  datatype Cell = Cell(column: Column, row: nat)

  /** A witness value: unknown while generating keys, known while proving. */
  datatype Val = Unknown | Known(v: int)

  /** `Value - Value`: known only when both operands are. */
  function Sub(a: Val, b: Val): (r: Val)
    ensures r.Known? <==> a.Known? && b.Known?
    ensures r.Known? ==> r.v == a.v - b.v
  {
    if a.Known? && b.Known? then Known(a.v - b.v) else Unknown
  }

  datatype AssignedCell = AssignedCell(cell: Cell, value: Val)

  /** The error a region operation fails with: its row lies outside the usable rows. */
  datatype Error = NotEnoughRowsAvailable

  /** `EqualConfig`: the two advice columns, the instance column and the selector. */
  datatype EqualConfig = EqualConfig(advice0: Column, advice1: Column, instance: Column, selector: Selector)

  /** `EqualChip::construct` is this constructor: the chip only holds its config. */
  datatype EqualChip = EqualChip(config: EqualConfig)

  /**
   * A custom gate of the shape this chip creates: on each row `r` where
   * `selector` is on, `selector * ((lhs[r] - rhs[r]) - out[r + 1])` must vanish.
   */
  datatype Gate = Gate(name: string, selector: Selector, lhs: Column, rhs: Column, out: Column)

  /** The gate polynomial evaluated in the field. */
  function GateValue(p: nat, s: int, lhs: int, rhs: int, out: int): (r: int)
    requires p > 1
    ensures 0 <= r < p
  {
    (s * ((lhs - rhs) - out)) % p
  }

  /** The gate this chip creates for a config. */
  function DiffGate(config: EqualConfig): (g: Gate)
    ensures g.selector == config.selector && g.lhs == config.advice0 && g.rhs == config.advice1 && g.out == config.advice0
  {
    Gate("diff", config.selector, config.advice0, config.advice1, config.advice0)
  }

  /** `p * k + r` leaves remainder `r`. */
  lemma {:induction false} ModOfMultiplePlus(p: nat, k: int, r: int)
    requires p > 0 && 0 <= r < p
    ensures (p * k + r) % p == r
  {
    var x := p * k + r;
    var m := x / p - k;
    assert p * m == r - x % p by {
      assert x == p * (x / p) + x % p;
    }
    if m >= 1 {
      assert p * m >= p by { MulMonotone(p, m); }
    } else if m <= -1 {
      assert p * (-m) >= p by { MulMonotone(p, -m); }
    }
  }

  lemma MulMonotone(p: nat, m: int)
    requires m >= 1
    ensures p * m >= p
  {
  }

  /** Two integers are equal in the field exactly when their difference is a multiple of `p`. */
  lemma {:induction false} ModDifference(p: nat, u: int, w: int)
    requires p > 0
    ensures (u - w) % p == 0 <==> u % p == w % p
  {
    var qu, ru := u / p, u % p;
    var qw, rw := w / p, w % p;
    assert u - w == p * (qu - qw) + (ru - rw) by {
      assert u == p * qu + ru && w == p * qw + rw;
    }
    if ru >= rw {
      ModOfMultiplePlus(p, qu - qw, ru - rw);
    } else {
      assert u - w == p * (qu - qw - 1) + (ru - rw + p);
      ModOfMultiplePlus(p, qu - qw - 1, ru - rw + p);
    }
  }

  /**
   * The "diff" gate vanishes on every row whose selector is off, and on a row
   * whose selector is on exactly when `out == lhs - rhs` in the field.
   */
  lemma DiffGateSemantics(p: nat, s: int, lhs: int, rhs: int, out: int)
    requires p > 1
    ensures s == 0 ==> GateValue(p, s, lhs, rhs, out) == 0
    ensures s == 1 ==> (GateValue(p, s, lhs, rhs, out) == 0 <==> out % p == (lhs - rhs) % p)
  {
    ModDifference(p, lhs - rhs, out);
  }

  /** The part of halo2's `ConstraintSystem` the chip and the circuit change. */
  class ConstraintSystem {
    var numAdvice: nat
    var numInstance: nat
    var numSelectors: nat
    var equality: set<Column>
    var gates: seq<Gate>

    constructor()
      ensures numAdvice == 0 && numInstance == 0 && numSelectors == 0 && equality == {} && gates == []
    {
      numAdvice, numInstance, numSelectors := 0, 0, 0;
      equality, gates := {}, [];
    }

    method AdviceColumn() returns (c: Column)
      modifies this
      ensures c == Advice(old(numAdvice)) && numAdvice == old(numAdvice) + 1
      ensures numInstance == old(numInstance) && numSelectors == old(numSelectors)
      ensures equality == old(equality) && gates == old(gates)
    {
      c := Advice(numAdvice);
      numAdvice := numAdvice + 1;
    }

    method InstanceColumn() returns (c: Column)
      modifies this
      ensures c == Instance(old(numInstance)) && numInstance == old(numInstance) + 1
      ensures numAdvice == old(numAdvice) && numSelectors == old(numSelectors)
      ensures equality == old(equality) && gates == old(gates)
    {
      c := Instance(numInstance);
      numInstance := numInstance + 1;
    }

    method NewSelector() returns (s: Selector)
      modifies this
      ensures s == Selector(old(numSelectors)) && numSelectors == old(numSelectors) + 1
      ensures numAdvice == old(numAdvice) && numInstance == old(numInstance)
      ensures equality == old(equality) && gates == old(gates)
    {
      s := Selector(numSelectors);
      numSelectors := numSelectors + 1;
    }

    method EnableEquality(c: Column)
      modifies this
      ensures equality == old(equality) + {c}
      ensures numAdvice == old(numAdvice) && numInstance == old(numInstance) && numSelectors == old(numSelectors)
      ensures gates == old(gates)
    {
      equality := equality + {c};
    }

    method CreateGate(g: Gate)
      modifies this
      ensures gates == old(gates) + [g]
      ensures numAdvice == old(numAdvice) && numInstance == old(numInstance) && numSelectors == old(numSelectors)
      ensures equality == old(equality)
    {
      gates := gates + [g];
    }
  }

  /**
   * The layouter and the regions it hands out. Regions are placed one after
   * another: a region starts at `nextRow`, and the next one starts after the
   * last row the region assigned. A row at or beyond `usableRows` is refused.
   */
  class Layouter {
    const usableRows: nat
    var advice: map<Cell, Val>
    var enabled: set<(Selector, nat)>
    var copies: seq<(Cell, Cell)>
    var regionStart: nat
    var regionEnd: nat
    var nextRow: nat

    constructor(usableRows: nat)
      ensures this.usableRows == usableRows
      ensures advice == map[] && enabled == {} && copies == []
      ensures regionStart == 0 && regionEnd == 0 && nextRow == 0
    {
      this.usableRows := usableRows;
      advice, enabled, copies := map[], {}, [];
      regionStart, regionEnd, nextRow := 0, 0, 0;
    }

    method BeginRegion()
      modifies this
      ensures regionStart == old(nextRow) && regionEnd == old(nextRow) && nextRow == old(nextRow)
      ensures advice == old(advice) && enabled == old(enabled) && copies == old(copies)
    {
      regionStart, regionEnd := nextRow, nextRow;
    }

    method EndRegion()
      modifies this
      ensures nextRow == old(regionEnd)
      ensures regionStart == old(regionStart) && regionEnd == old(regionEnd)
      ensures advice == old(advice) && enabled == old(enabled) && copies == old(copies)
    {
      nextRow := regionEnd;
    }

    /** `region.assign_advice` at a row relative to the region's start. */
    method AssignAdvice(column: Column, offset: nat, value: Val) returns (r: Result<AssignedCell, Error>)
      modifies this
      ensures regionStart == old(regionStart) && nextRow == old(nextRow)
      ensures enabled == old(enabled) && copies == old(copies)
      ensures r.Ok? <==> regionStart + offset < usableRows
      ensures r.Ok? ==>
        r.value == AssignedCell(Cell(column, regionStart + offset), value) &&
        advice == old(advice)[Cell(column, regionStart + offset) := value] &&
        regionEnd == if old(regionEnd) <= regionStart + offset then regionStart + offset + 1 else old(regionEnd)
      ensures r.Err? ==> advice == old(advice) && regionEnd == old(regionEnd)
    {
      var row := regionStart + offset;
      if row >= usableRows {
        return Err(NotEnoughRowsAvailable);
      }
      advice := advice[Cell(column, row) := value];
      if regionEnd <= row {
        regionEnd := row + 1;
      }
      r := Ok(AssignedCell(Cell(column, row), value));
    }

    /** `selector.enable(&mut region, offset)`. */
    method EnableSelector(s: Selector, offset: nat) returns (r: Result<(), Error>)
      modifies this
      ensures regionStart == old(regionStart) && regionEnd == old(regionEnd) && nextRow == old(nextRow)
      ensures advice == old(advice) && copies == old(copies)
      ensures r.Ok? <==> regionStart + offset < usableRows
      ensures enabled == if r.Ok? then old(enabled) + {(s, regionStart + offset)} else old(enabled)
    {
      var row := regionStart + offset;
      if row >= usableRows {
        return Err(NotEnoughRowsAvailable);
      }
      enabled := enabled + {(s, row)};
      r := Ok(());
    }

    /** `cell.copy_advice`: assigns the cell's value and constrains the two cells to be equal. */
    method CopyAdvice(from: AssignedCell, column: Column, offset: nat) returns (r: Result<AssignedCell, Error>)
      modifies this
      ensures regionStart == old(regionStart) && nextRow == old(nextRow) && enabled == old(enabled)
      ensures r.Ok? <==> regionStart + offset < usableRows
      ensures r.Ok? ==>
        r.value == AssignedCell(Cell(column, regionStart + offset), from.value) &&
        advice == old(advice)[Cell(column, regionStart + offset) := from.value] &&
        copies == old(copies) + [(from.cell, Cell(column, regionStart + offset))] &&
        regionEnd == if old(regionEnd) <= regionStart + offset then regionStart + offset + 1 else old(regionEnd)
      ensures r.Err? ==> advice == old(advice) && copies == old(copies) && regionEnd == old(regionEnd)
    {
      r := AssignAdvice(column, offset, from.value);
      if r.Ok? {
        copies := copies + [(from.cell, r.value.cell)];
      }
    }

    /** `layouter.constrain_instance`: an absolute instance row, outside any region. */
    method ConstrainInstance(cell: Cell, instance: Column, row: nat) returns (r: Result<(), Error>)
      modifies this
      ensures regionStart == old(regionStart) && regionEnd == old(regionEnd) && nextRow == old(nextRow)
      ensures advice == old(advice) && enabled == old(enabled)
      ensures r.Ok? <==> row < usableRows
      ensures copies == if r.Ok? then old(copies) + [(cell, Cell(instance, row))] else old(copies)
    {
      if row >= usableRows {
        return Err(NotEnoughRowsAvailable);
      }
      copies := copies + [(cell, Cell(instance, row))];
      r := Ok(());
    }
  }

  /**
   * `EqualChip::configure`: one new selector, equality on the instance column
   * and both advice columns, the "diff" gate, and a config holding exactly the
   * given columns and the new selector.
   */
  method Configure(meta: ConstraintSystem, advice0: Column, advice1: Column, instance: Column)
    returns (config: EqualConfig)
    modifies meta
    ensures config == EqualConfig(advice0, advice1, instance, Selector(old(meta.numSelectors)))
    ensures meta.numSelectors == old(meta.numSelectors) + 1
    ensures meta.equality == old(meta.equality) + {instance, advice0, advice1}
    ensures meta.gates == old(meta.gates) + [DiffGate(config)]
    ensures meta.numAdvice == old(meta.numAdvice) && meta.numInstance == old(meta.numInstance)
  {
    var sEq := meta.NewSelector();
    meta.EnableEquality(instance);
    meta.EnableEquality(advice0);
    meta.EnableEquality(advice1);
    config := EqualConfig(advice0, advice1, instance, sEq);
    meta.CreateGate(DiffGate(config));
  }

  /**
   * `assign_operands`: a fresh region whose first row holds `x` in the first
   * advice column and `y` in the second; no selector is enabled.
   */
  method AssignOperands(chip: EqualChip, layouter: Layouter, x: Val, y: Val)
    returns (r: Result<(AssignedCell, AssignedCell), Error>)
    modifies layouter
    ensures var s := old(layouter.nextRow);
      r.Ok? <==> s < layouter.usableRows
    ensures var s := old(layouter.nextRow);
      var c := chip.config;
      r.Ok? ==>
        r.value == (AssignedCell(Cell(c.advice0, s), x), AssignedCell(Cell(c.advice1, s), y)) &&
        layouter.advice == old(layouter.advice)[Cell(c.advice0, s) := x][Cell(c.advice1, s) := y] &&
        layouter.nextRow == s + 1
    ensures layouter.enabled == old(layouter.enabled) && layouter.copies == old(layouter.copies)
    ensures r.Err? ==> layouter.advice == old(layouter.advice)
  {
    layouter.BeginRegion();
    var xCell := layouter.AssignAdvice(chip.config.advice0, 0, x);
    if xCell.Err? {
      return Err(xCell.error);
    }
    var yCell := layouter.AssignAdvice(chip.config.advice1, 0, y);
    if yCell.Err? {
      return Err(NotEnoughRowsAvailable);
    }
    layouter.EndRegion();
    r := Ok((xCell.value, yCell.value));
  }

  /**
   * `diff`: a fresh region that enables the selector on its first row, copies
   * `x` and `y` into that row and assigns `x - y` below `x`.
   */
  method Diff(chip: EqualChip, layouter: Layouter, x: AssignedCell, y: AssignedCell)
    returns (r: Result<AssignedCell, Error>)
    modifies layouter
    ensures var s := old(layouter.nextRow);
      r.Ok? <==> s + 1 < layouter.usableRows
    ensures var s := old(layouter.nextRow);
      var c := chip.config;
      r.Ok? ==>
        r.value == AssignedCell(Cell(c.advice0, s + 1), Sub(x.value, y.value)) &&
        layouter.enabled == old(layouter.enabled) + {(c.selector, s)} &&
        layouter.copies == old(layouter.copies) + [(x.cell, Cell(c.advice0, s)), (y.cell, Cell(c.advice1, s))] &&
        layouter.advice == old(layouter.advice)[Cell(c.advice0, s) := x.value][Cell(c.advice1, s) := y.value]
                                               [Cell(c.advice0, s + 1) := Sub(x.value, y.value)] &&
        layouter.nextRow == s + 2
  {
    layouter.BeginRegion();
    var enabled := layouter.EnableSelector(chip.config.selector, 0);
    if enabled.Err? {
      return Err(enabled.error);
    }
    var lhs := layouter.CopyAdvice(x, chip.config.advice0, 0);
    if lhs.Err? {
      return Err(NotEnoughRowsAvailable);
    }
    var rhs := layouter.CopyAdvice(y, chip.config.advice1, 0);
    if rhs.Err? {
      return Err(NotEnoughRowsAvailable);
    }
    var value := Sub(x.value, y.value);
    r := layouter.AssignAdvice(chip.config.advice0, 1, value);
    if r.Err? {
      return;
    }
    layouter.EndRegion();
  }

  /** `expose_public`: the `y` cell is bound to instance row 0, the difference cell to row 1. */
  method ExposePublic(chip: EqualChip, layouter: Layouter, yInputCell: AssignedCell, equalBoolCell: AssignedCell)
    returns (r: Result<(), Error>)
    modifies layouter
    ensures r.Ok? <==> 1 < layouter.usableRows
    ensures r.Ok? ==>
      layouter.copies == old(layouter.copies) + [(yInputCell.cell, Cell(chip.config.instance, 0)),
                                                 (equalBoolCell.cell, Cell(chip.config.instance, 1))]
    ensures layouter.advice == old(layouter.advice) && layouter.enabled == old(layouter.enabled)
    ensures layouter.nextRow == old(layouter.nextRow)
  {
    var first := layouter.ConstrainInstance(yInputCell.cell, chip.config.instance, 0);
    if first.Err? {
      return Err(first.error);
    }
    var second := layouter.ConstrainInstance(equalBoolCell.cell, chip.config.instance, 1);
    if second.Err? {
      return Err(second.error);
    }
    r := Ok(());
  }

  /** The value a cell takes: the witness for advice cells (zero when unassigned), the public input for instance cells. */
  function CellValue(advice: map<Cell, Val>, instance: seq<seq<int>>, c: Cell): int {
    match c.column
    case Instance(i) => if i < |instance| && c.row < |instance[i]| then instance[i][c.row] else 0
    case Advice(_) => if c in advice && advice[c].Known? then advice[c].v else 0
  }

  /** Every gate vanishes on every row where its selector is enabled. */
  ghost predicate GatesHold(p: nat, gates: seq<Gate>, advice: map<Cell, Val>, enabled: set<(Selector, nat)>,
                            instance: seq<seq<int>>)
    requires p > 1
  {
    forall g, e :: g in gates && e in enabled && e.0 == g.selector ==>
      GateValue(p, 1, CellValue(advice, instance, Cell(g.lhs, e.1)), CellValue(advice, instance, Cell(g.rhs, e.1)),
                CellValue(advice, instance, Cell(g.out, e.1 + 1))) == 0
  }

  /** Every copy constraint joins two cells of equal value in the field. */
  ghost predicate CopiesHold(p: nat, copies: seq<(Cell, Cell)>, advice: map<Cell, Val>, instance: seq<seq<int>>)
    requires p > 1
  {
    forall k :: 0 <= k < |copies| ==>
      CellValue(advice, instance, copies[k].0) % p == CellValue(advice, instance, copies[k].1) % p
  }

  /** Whether a layout and its public inputs satisfy the circuit's constraints. */
  ghost predicate Satisfied(p: nat, gates: seq<Gate>, advice: map<Cell, Val>, enabled: set<(Selector, nat)>,
                            copies: seq<(Cell, Cell)>, instance: seq<seq<int>>)
    requires p > 1
  {
    GatesHold(p, gates, advice, enabled, instance) && CopiesHold(p, copies, advice, instance)
  }

  /**
   * `diff` satisfies its own gate by construction: on the row it enables, the
   * cell below `x` holds `x - y` (the advice columns must differ, or `y`
   * would overwrite `x`).
   */
  lemma DiffRowSatisfiesGate(p: nat, config: EqualConfig, advice: map<Cell, Val>, instance: seq<seq<int>>,
                             s: nat, x: int, y: int)
    requires p > 1
    requires config.advice0.Advice? && config.advice1.Advice? && config.advice0 != config.advice1
    requires Cell(config.advice0, s) in advice && advice[Cell(config.advice0, s)] == Known(x)
    requires Cell(config.advice1, s) in advice && advice[Cell(config.advice1, s)] == Known(y)
    requires Cell(config.advice0, s + 1) in advice && advice[Cell(config.advice0, s + 1)] == Sub(Known(x), Known(y))
    ensures GatesHold(p, [DiffGate(config)], advice, {(config.selector, s)}, instance)
  {
    DiffGateSemantics(p, 1, x, y, x - y);
  }
}
