/**
 The DCA of the experiment analysis script, folded over one node's rows.

 A row whose success flag is 0 is skipped. For every other row: the readings
 are pushed into four windows of `STDDEV_N` values (soil temperature is not
 read; 0 is pushed in its place); danger is the indicator sum capped at 1; safe
 is `exp(-max of the four standard deviations · SAFE_SENS)`; every live cell's
 accumulator grows by `danger - safe`, a cell seeded with that value joins the
 population, the oldest cell is dropped when more than `DC_N` are alive, and
 the context is the fraction of live cells whose accumulator is not negative.

 The fold is stated for any safe-signal formula; `SafeSignal(m)` is the
 script's.
 */
module EtbDca {

  import opened Reals
  import opened Fifo
  import opened Stats
  import opened SlidingWindow
  import opened Signals

  /** `DC_N`: the population size. */
  const DcN: nat := 5
  /** `STDDEV_N`: readings per window. */
  const StdDevN: nat := 10
  /** `SAFE_SENS`: the sensitivity of the safe signal to deviation. */
  const SafeSens: real := 0.35

  /** One row of the experiment data: node, success flag, readings and fault indicators. */
  datatype Row = Row(node: string, success: int, reading: Reading, x: Indicators)

  /** A dendritic cell: the antigen of its creation row and its accumulated context. */
  datatype Cell = Cell(antigen: string, context: real)

  datatype State = State(windows: Windows, cells: seq<Cell>)

  /** The computed part of one output row. */
  datatype Output = Output(antigen: string, danger: real, safe: real, context: real)

  const Init: State := State(Empty, [])

  /** `if not success: continue`: only rows with a non-zero flag are processed. */
  predicate Admitted(row: Row)
  {
    row.success != 0
  }

  /** The reading pushed for a row: the soil temperature is replaced by 0. */
  function Pushed(row: Row): Reading
  {
    row.reading.(tSoil := 0.0)
  }

  // ---------------------------------------------------------------- safe signal

  /** Population standard deviation of a window. */
  function StdDev(m: Elementary, s: seq<real>): real
    requires |s| > 0
  {
    m.sqrt(Variance(s))
  }

  /** `max(safe1_t, safe2_t, safe3_t, safe4_t)`. */
  function MaxDev(m: Elementary, w: Windows): real
    requires w.Ready()
  {
    Max(Max(Max(StdDev(m, w.tAir), StdDev(m, w.tSoil)), StdDev(m, w.hAir)), StdDev(m, w.hSoil))
  }

  /** `exp(-max(...) * SAFE_SENS)`. */
  function ExpSafe(m: Elementary, w: Windows): real
    requires w.Ready()
  {
    m.exp(-MaxDev(m, w) * SafeSens)
  }

  /** The script's safe signal; a step only applies it to windows that are ready. */
  function SafeSignal(m: Elementary): Windows -> real
  {
    (w: Windows) => if w.Ready() then ExpSafe(m, w) else 0.0
  }

  /** A standard deviation is zero exactly for a constant window, and never negative. */
  lemma {:induction false} StdDevZeroIff(m: Elementary, s: seq<real>)
    requires m.Sound() && |s| > 0
    ensures StdDev(m, s) >= 0.0
    ensures StdDev(m, s) == 0.0 <==> Constant(s)
  {
    VarianceNonNegative(s);
    VarianceZeroIffConstant(s);
  }

  /**
   With sound `sqrt` and `exp`, the safe signal lies in (0,1], and it is 1
   exactly when all four windows are constant.
   */
  lemma {:induction false} ExpSafeRange(m: Elementary, w: Windows)
    requires m.Sound() && w.Ready()
    ensures 0.0 < ExpSafe(m, w) <= 1.0
    ensures ExpSafe(m, w) == 1.0 <==> Constant(w.tAir) && Constant(w.tSoil) && Constant(w.hAir) && Constant(w.hSoil)
  {
    StdDevZeroIff(m, w.tAir);
    StdDevZeroIff(m, w.tSoil);
    StdDevZeroIff(m, w.hAir);
    StdDevZeroIff(m, w.hSoil);
    var d := MaxDev(m, w);
    assert d >= 0.0;
    assert d == 0.0 <==> Constant(w.tAir) && Constant(w.tSoil) && Constant(w.hAir) && Constant(w.hSoil);
    if d > 0.0 {
      assert -d * SafeSens < 0.0;
    }
  }

  /** A window of zeros has deviation 0, so it never decides the maximum. */
  lemma {:induction false} ZeroWindowIgnored(m: Elementary, w: Windows)
    requires m.Sound() && w.Ready()
    requires forall i :: 0 <= i < |w.tSoil| ==> w.tSoil[i] == 0.0
    ensures MaxDev(m, w) == Max(Max(StdDev(m, w.tAir), StdDev(m, w.hAir)), StdDev(m, w.hSoil))
  {
    StdDevZeroIff(m, w.tAir);
    StdDevZeroIff(m, w.tSoil);
    StdDevZeroIff(m, w.hAir);
    StdDevZeroIff(m, w.hSoil);
    assert Constant(w.tSoil);
  }

  /** With a soil-temperature window of zeros, the safe signal is decided by the other three deviations. */
  lemma {:induction false} SoillessExp(m: Elementary, w: Windows)
    requires m.Sound() && w.Ready()
    requires forall i :: 0 <= i < |w.tSoil| ==> w.tSoil[i] == 0.0
    ensures ExpSafe(m, w) == m.exp(-Max(Max(StdDev(m, w.tAir), StdDev(m, w.hAir)), StdDev(m, w.hSoil)) * SafeSens)
  {
    ZeroWindowIgnored(m, w);
  }

  // ---------------------------------------------------------------- cells and vote

  function Net(o: Output): real
  {
    o.danger - o.safe
  }

  /** Adds one tick's context to every live cell, keeping order and antigens. */
  function Stimulate(cells: seq<Cell>, c: real): (r: seq<Cell>)
    ensures |r| == |cells|
  {
    if cells == [] then []
    else
      var last := cells[|cells| - 1];
      Stimulate(cells[..|cells| - 1], c) + [Cell(last.antigen, last.context + c)]
  }

  /** Cell `j` after stimulation is cell `j` before, with the tick added. */
  lemma {:induction false} StimulateAt(cells: seq<Cell>, c: real, j: nat)
    requires j < |cells|
    ensures Stimulate(cells, c)[j] == Cell(cells[j].antigen, cells[j].context + c)
  {
    if j < |cells| - 1 {
      StimulateAt(cells[..|cells| - 1], c, j);
    }
  }

  /**
   The population update of one tick: every live cell receives the tick's
   context, a cell seeded with it is appended, and the oldest is dropped when
   more than `DC_N` are alive. The population is never empty afterwards.
   */
  function Tick(cells: seq<Cell>, antigen: string, c: real): (r: seq<Cell>)
    ensures |cells| <= DcN ==> |r| == Min(|cells| + 1, DcN)
    ensures |r| >= 1
  {
    Push(Stimulate(cells, c), Cell(antigen, c), DcN)
  }

  /** How many of the values are not negative. */
  function NonNegative(acc: seq<real>): (n: nat)
    ensures n <= |acc|
    ensures n == |acc| <==> forall i :: 0 <= i < |acc| ==> acc[i] >= 0.0
    ensures n == 0 <==> forall i :: 0 <= i < |acc| ==> acc[i] < 0.0
    ensures n == |set i | 0 <= i < |acc| && acc[i] >= 0.0|
  {
    if acc == [] then 0
    else
      CountSnoc(acc);
      NonNegative(acc[..|acc| - 1]) + (if acc[|acc| - 1] >= 0.0 then 1 else 0)
  }

  /** Counting the non-negative positions of a sequence one element at a time. */
  lemma {:induction false} CountSnoc(acc: seq<real>)
    requires |acc| > 0
    ensures var init := acc[..|acc| - 1];
            |set i | 0 <= i < |acc| && acc[i] >= 0.0|
              == |set i | 0 <= i < |init| && init[i] >= 0.0| + (if acc[|acc| - 1] >= 0.0 then 1 else 0)
  {
    var init := acc[..|acc| - 1];
    var k := |acc| - 1;
    var a := set i | 0 <= i < |init| && init[i] >= 0.0;
    var b := set i | 0 <= i < |acc| && acc[i] >= 0.0;
    if acc[k] >= 0.0 {
      assert b == a + {k};
    } else {
      assert b == a;
    }
  }

  /**
   The fraction of values that are not negative: in [0,1], 1 exactly when none
   is negative and 0 exactly when all are.
   */
  function Share(acc: seq<real>): (r: real)
    requires |acc| > 0
    ensures r * |acc| as real == |set i | 0 <= i < |acc| && acc[i] >= 0.0| as real
    ensures 0.0 <= r <= 1.0
    ensures r == 1.0 <==> forall i :: 0 <= i < |acc| ==> acc[i] >= 0.0
    ensures r == 0.0 <==> forall i :: 0 <= i < |acc| ==> acc[i] < 0.0
  {
    Proportion(NonNegative(acc), |acc|)
  }

  /** The accumulated contexts of the live cells, oldest first. */
  function Contexts(cells: seq<Cell>): (r: seq<real>)
    ensures |r| == |cells|
  {
    seq(|cells|, j requires 0 <= j < |cells| => cells[j].context)
  }

  /** Step 4 of the script: the share of live cells whose context is not negative. */
  function Vote(cells: seq<Cell>): real
    requires |cells| > 0
  {
    Share(Contexts(cells))
  }

  // ---------------------------------------------------------------- the fold

  /** The loop body for an admitted row. */
  function Process(safe: Windows -> real, s: State, row: Row): (res: (State, Output))
    ensures res.0.windows.Ready()
    ensures |s.cells| <= DcN ==> |res.0.cells| == Min(|s.cells| + 1, DcN)
    ensures 0.0 <= res.1.context <= 1.0
  {
    var w := PushReading(s.windows, Pushed(row), StdDevN);
    var danger := CappedDanger(row.x);
    var sf := safe(w);
    var cells := Tick(s.cells, row.node, danger - sf);
    (State(w, cells), Output(row.node, danger, sf, Vote(cells)))
  }

  /** One iteration of the per-row loop: a rejected row changes nothing and emits nothing. */
  function Step(safe: Windows -> real, s: State, row: Row): (res: (State, Option<Output>))
    ensures !Admitted(row) ==> res == (s, None)
    ensures Admitted(row) ==> res.1.Some?
  {
    if row.success == 0 then (s, None)
    else
      var r := Process(safe, s, row);
      (r.0, Some(r.1))
  }

  /** The script's loop over a node's rows, collecting the outputs of the admitted ones. */
  function RunFrom(safe: Windows -> real, s: State, rows: seq<Row>): (State, seq<Output>)
  {
    if rows == [] then (s, [])
    else
      var prev := RunFrom(safe, s, rows[..|rows| - 1]);
      var next := Step(safe, prev.0, rows[|rows| - 1]);
      (next.0, prev.1 + (if next.1.Some? then [next.1.value] else []))
  }

  function Run(safe: Windows -> real, rows: seq<Row>): (State, seq<Output>)
  {
    RunFrom(safe, Init, rows)
  }

  /** The admitted rows, in order. */
  function Filter(rows: seq<Row>): (r: seq<Row>)
    ensures |r| <= |rows|
  {
    if rows == [] then []
    else Filter(rows[..|rows| - 1]) + (if Admitted(rows[|rows| - 1]) then [rows[|rows| - 1]] else [])
  }

  /** `Process` folded over rows that are all taken as admitted: the reference for the gated loop. */
  function FeedFrom(safe: Windows -> real, s: State, rows: seq<Row>): (res: (State, seq<Output>))
    ensures |res.1| == |rows|
    ensures |s.cells| <= DcN ==> |res.0.cells| == Min(|s.cells| + |rows|, DcN)
  {
    if rows == [] then (s, [])
    else
      var prev := FeedFrom(safe, s, rows[..|rows| - 1]);
      var next := Process(safe, prev.0, rows[|rows| - 1]);
      (next.0, prev.1 + [next.1])
  }

  function Feed(safe: Windows -> real, rows: seq<Row>): (State, seq<Output>)
  {
    FeedFrom(safe, Init, rows)
  }

  /** The readings the admitted rows push, in order. */
  function Readings(rows: seq<Row>): (r: seq<Reading>)
    ensures |r| == |rows|
  {
    if rows == [] then [] else Readings(rows[..|rows| - 1]) + [Pushed(rows[|rows| - 1])]
  }

  // ---------------------------------------------------------------- gating

  lemma {:induction false} FeedLast(safe: Windows -> real, s: State, rows: seq<Row>, row: Row)
    ensures var prev := FeedFrom(safe, s, rows);
            var next := Process(safe, prev.0, row);
            FeedFrom(safe, s, rows + [row]) == (next.0, prev.1 + [next.1])
  {
    assert (rows + [row])[..|rows|] == rows;
  }

  /** The loop's last iteration, on an admitted row: `Process` runs and its output is appended. */
  lemma {:induction false} RunAdmitted(safe: Windows -> real, s: State, rows: seq<Row>)
    requires |rows| > 0 && Admitted(rows[|rows| - 1])
    ensures var prev := RunFrom(safe, s, rows[..|rows| - 1]);
            var next := Process(safe, prev.0, rows[|rows| - 1]);
            RunFrom(safe, s, rows) == (next.0, prev.1 + [next.1])
  {
  }

  /** The loop's last iteration, on a rejected row: nothing changes. */
  lemma {:induction false} RunRejected(safe: Windows -> real, s: State, rows: seq<Row>)
    requires |rows| > 0 && !Admitted(rows[|rows| - 1])
    ensures RunFrom(safe, s, rows) == RunFrom(safe, s, rows[..|rows| - 1])
  {
    var prev := RunFrom(safe, s, rows[..|rows| - 1]);
    assert prev.1 + [] == prev.1;
  }

  lemma {:induction false} FilterLast(rows: seq<Row>)
    requires |rows| > 0
    ensures var init := rows[..|rows| - 1];
            var row := rows[|rows| - 1];
            Filter(rows) == if Admitted(row) then Filter(init) + [row] else Filter(init)
  {
    var init := rows[..|rows| - 1];
    assert Filter(init) + [] == Filter(init);
  }

  /**
   Gating: the loop over all rows computes exactly what processing only the
   admitted rows computes. A rejected row leaves no output and no trace in the
   windows or the cells.
   */
  lemma {:induction false} Gating(safe: Windows -> real, s: State, rows: seq<Row>)
    ensures RunFrom(safe, s, rows) == FeedFrom(safe, s, Filter(rows))
  {
    if rows != [] {
      var init := rows[..|rows| - 1];
      var row := rows[|rows| - 1];
      Gating(safe, s, init);
      FilterLast(rows);
      if Admitted(row) {
        RunAdmitted(safe, s, rows);
        FeedLast(safe, s, Filter(init), row);
      } else {
        RunRejected(safe, s, rows);
      }
    }
  }

  /** One output per admitted row. */
  lemma {:induction false} OutputCount(safe: Windows -> real, rows: seq<Row>)
    ensures |Run(safe, rows).1| == |Filter(rows)|
  {
    Gating(safe, Init, rows);
  }

  /** A stream of rejected rows changes nothing. */
  lemma {:induction false} RejectedRows(safe: Windows -> real, s: State, rows: seq<Row>)
    requires forall i :: 0 <= i < |rows| ==> !Admitted(rows[i])
    ensures RunFrom(safe, s, rows) == (s, [])
  {
    if rows != [] {
      var init := rows[..|rows| - 1];
      assert forall i :: 0 <= i < |init| ==> init[i] == rows[i];
      RejectedRows(safe, s, init);
      RunRejected(safe, s, rows);
    }
  }

  // ---------------------------------------------------------------- invariant of the admitted fold

  /**
   The cell created at tick `t`, as it stands after ticks `outs`: that tick's
   antigen, and the sum of `danger - safe` over every tick from `t` on.
   */
  function CellSince(outs: seq<Output>, t: int): Cell
    requires 0 <= t < |outs|
  {
    Cell(outs[t].antigen, SumOver(outs, t, |outs|, Net))
  }

  /** Cell `j` of a population of `|cells|` after ticks `outs` is the cell created at tick `|outs| - |cells| + j`. */
  ghost predicate Accumulates(cells: seq<Cell>, outs: seq<Output>)
  {
    && |cells| <= |outs|
    && forall j :: 0 <= j < |cells| ==> cells[j] == CellSince(outs, |outs| - |cells| + j)
  }

  /** A cell created at tick `t` that received ticks `t..` receives the next tick too. */
  lemma {:induction false} CellReceivesTick(outs: seq<Output>, o: Output, t: int)
    requires 0 <= t < |outs|
    ensures var c := CellSince(outs, t);
            Cell(c.antigen, c.context + Net(o)) == CellSince(outs + [o], t)
  {
    assert (outs + [o])[t] == outs[t];
    SumOverExtend(outs, o, t, Net);
  }

  /** The fresh cell of a tick holds exactly that tick's contribution. */
  lemma {:induction false} FreshCell(outs: seq<Output>, o: Output)
    ensures Cell(o.antigen, Net(o)) == CellSince(outs + [o], |outs|)
  {
    SumOverExtend(outs, o, |outs|, Net);
  }

  /** Cell `j` of the grown population holds the sum since its creation. */
  lemma {:induction false} GrownCell(cells: seq<Cell>, outs: seq<Output>, o: Output, j: nat)
    requires |cells| <= |outs| && j <= |cells|
    requires j < |cells| ==> cells[j] == CellSince(outs, |outs| - |cells| + j)
    ensures var grown := Stimulate(cells, Net(o)) + [Cell(o.antigen, Net(o))];
            grown[j] == CellSince(outs + [o], |outs| - |cells| + j)
  {
    if j < |cells| {
      StimulateAt(cells, Net(o), j);
      CellReceivesTick(outs, o, |outs| - |cells| + j);
    } else {
      FreshCell(outs, o);
    }
  }

  lemma {:induction false} GrowAccumulates(cells: seq<Cell>, outs: seq<Output>, o: Output)
    requires Accumulates(cells, outs)
    ensures Accumulates(Stimulate(cells, Net(o)) + [Cell(o.antigen, Net(o))], outs + [o])
  {
    forall j | 0 <= j <= |cells| {
      GrownCell(cells, outs, o, j);
    }
  }

  lemma {:induction false} DropOldestAccumulates(cells: seq<Cell>, outs: seq<Output>)
    requires Accumulates(cells, outs) && |cells| > 0
    ensures Accumulates(cells[1..], outs)
  {
    forall j | 0 <= j < |cells| - 1
      ensures cells[1..][j] == CellSince(outs, |outs| - (|cells| - 1) + j)
    {
      assert cells[1..][j] == cells[j + 1];
    }
  }

  /** One tick of the population preserves `Accumulates`. */
  lemma {:induction false} TickAccumulates(cells: seq<Cell>, outs: seq<Output>, o: Output)
    requires Accumulates(cells, outs)
    ensures Accumulates(Tick(cells, o.antigen, Net(o)), outs + [o])
  {
    var grown := Stimulate(cells, Net(o)) + [Cell(o.antigen, Net(o))];
    GrowAccumulates(cells, outs, o);
    if |grown| > DcN {
      DropOldestAccumulates(grown, outs + [o]);
    }
  }

  /** What one `Process` does, spelled out for the proofs. */
  lemma {:induction false} ProcessParts(safe: Windows -> real, s: State, row: Row)
    ensures var res := Process(safe, s, row);
            var o := res.1;
            && res.0.windows == PushReading(s.windows, Pushed(row), StdDevN)
            && o.antigen == row.node
            && o.danger == CappedDanger(row.x)
            && o.safe == safe(res.0.windows)
            && res.0.cells == Tick(s.cells, o.antigen, Net(o))
            && o.context == Vote(res.0.cells)
  {
  }

  lemma {:induction false} FeedLastInit(safe: Windows -> real, rs: seq<Row>)
    requires |rs| > 0
    ensures var prev := Feed(safe, rs[..|rs| - 1]);
            var next := Process(safe, prev.0, rs[|rs| - 1]);
            Feed(safe, rs) == (next.0, prev.1 + [next.1])
  {
  }

  lemma {:induction false} ReadingsSnoc(rs: seq<Row>, row: Row)
    ensures Readings(rs + [row]) == Readings(rs) + [Pushed(row)]
  {
    assert (rs + [row])[..|rs|] == rs;
  }

  lemma {:induction false} ProcessWindows(safe: Windows -> real, rs: seq<Row>, row: Row, s: State)
    requires s.windows == Track(Readings(rs), StdDevN)
    ensures Process(safe, s, row).0.windows == Track(Readings(rs + [row]), StdDevN)
  {
    ProcessParts(safe, s, row);
    ReadingsSnoc(rs, row);
    TrackSnoc(Readings(rs), Pushed(row), StdDevN);
  }

  /** After admitted rows the windows are those obtained by pushing their readings in order. */
  lemma {:induction false} FeedWindows(safe: Windows -> real, rs: seq<Row>)
    ensures Feed(safe, rs).0.windows == Track(Readings(rs), StdDevN)
  {
    if rs != [] {
      var init := rs[..|rs| - 1];
      FeedLastInit(safe, rs);
      FeedWindows(safe, init);
      ProcessWindows(safe, init, rs[|rs| - 1], Feed(safe, init).0);
      SnocLast(rs);
    }
  }

  lemma {:induction false} ProcessAccumulates(safe: Windows -> real, row: Row, s: State, outs: seq<Output>)
    requires Accumulates(s.cells, outs)
    ensures var next := Process(safe, s, row);
            Accumulates(next.0.cells, outs + [next.1])
  {
    var next := Process(safe, s, row);
    ProcessParts(safe, s, row);
    TickAccumulates(s.cells, outs, next.1);
  }

  /** After admitted rows every live cell holds the sum of `danger - safe` since its creation. */
  lemma {:induction false} FeedAccumulates(safe: Windows -> real, rs: seq<Row>)
    ensures Accumulates(Feed(safe, rs).0.cells, Feed(safe, rs).1)
  {
    if rs != [] {
      var init := rs[..|rs| - 1];
      var prev := Feed(safe, init);
      FeedLastInit(safe, rs);
      FeedAccumulates(safe, init);
      ProcessAccumulates(safe, rs[|rs| - 1], prev.0, prev.1);
    }
  }

  /** After `k` admitted rows `min(k, DC_N)` cells are alive. */
  lemma {:induction false} Population(safe: Windows -> real, rs: seq<Row>)
    ensures |Feed(safe, rs).0.cells| == Min(|rs|, DcN)
    ensures |rs| > 0 ==> |Feed(safe, rs).0.cells| > 0
  {
  }

  // ---------------------------------------------------------------- per-row outputs

  lemma {:induction false} FeedDropLast(safe: Windows -> real, rs: seq<Row>)
    requires |rs| > 0
    ensures Feed(safe, rs).1[..|rs| - 1] == Feed(safe, rs[..|rs| - 1]).1
  {
    FeedLastInit(safe, rs);
  }

  /** The outputs of a prefix of the rows are the prefix of the outputs. */
  lemma {:induction false} FeedPrefix(safe: Windows -> real, rs: seq<Row>, n: nat)
    requires n <= |rs|
    ensures Feed(safe, rs[..n]).1 == Feed(safe, rs).1[..n]
  {
    if n < |rs| {
      var init := rs[..|rs| - 1];
      assert init[..n] == rs[..n];
      FeedPrefix(safe, init, n);
      FeedDropLast(safe, rs);
      TakeTake(Feed(safe, rs).1, |rs| - 1, n);
    } else {
      assert rs[..n] == rs;
    }
  }

  lemma {:induction false} PrefixOutput(safe: Windows -> real, rs: seq<Row>, t: nat)
    requires t < |rs|
    ensures Feed(safe, rs).1[t] == Feed(safe, rs[..t + 1]).1[t]
  {
    FeedPrefix(safe, rs, t + 1);
  }

  /** The signals of the last row: antigen, danger and safe signal of the current windows. */
  lemma {:induction false} LastSignals(safe: Windows -> real, rs: seq<Row>)
    requires |rs| > 0
    ensures var o := Feed(safe, rs).1[|rs| - 1];
            && o.antigen == rs[|rs| - 1].node
            && o.danger == CappedDanger(rs[|rs| - 1].x)
            && o.safe == safe(Feed(safe, rs).0.windows)
  {
    var prev := Feed(safe, rs[..|rs| - 1]);
    FeedLastInit(safe, rs);
    ProcessParts(safe, prev.0, rs[|rs| - 1]);
  }

  /** The safe signal of row `t` is computed from the last `STDDEV_N` readings up to and including `t`. */
  lemma {:induction false} SafeOfRow(safe: Windows -> real, rs: seq<Row>, t: nat)
    requires t < |rs|
    ensures Feed(safe, rs).1[t].safe == safe(WindowsOf(Readings(rs[..t + 1]), StdDevN))
  {
    var prefix := rs[..t + 1];
    PrefixOutput(safe, rs, t);
    LastSignals(safe, prefix);
    FeedWindows(safe, prefix);
    TrackIsLast(Readings(prefix), StdDevN);
  }

  /** The antigen, danger and safe signal of admitted row `t`. */
  lemma {:induction false} SignalRule(safe: Windows -> real, rs: seq<Row>, t: nat)
    requires t < |rs|
    ensures var o := Feed(safe, rs).1[t];
            && o.antigen == rs[t].node
            && o.danger == CappedDanger(rs[t].x)
            && o.safe == safe(WindowsOf(Readings(rs[..t + 1]), StdDevN))
  {
    var prefix := rs[..t + 1];
    PrefixOutput(safe, rs, t);
    LastSignals(safe, prefix);
    SafeOfRow(safe, rs, t);
    assert prefix[t] == rs[t];
  }

  /**
   The accumulators of the cells alive after the first `end` ticks of `outs`:
   for each of the last `min(end, DC_N)` of those ticks, the sum of
   `danger - safe` from that tick up to tick `end - 1`.
   */
  function Lifetimes(outs: seq<Output>, end: nat): (r: seq<real>)
    requires end <= |outs|
    ensures |r| == Min(end, DcN)
  {
    var n := Min(end, DcN);
    seq(n, i requires 0 <= i < n => SumOver(outs, end - n + i, end, Net))
  }

  /** A population that accumulates ticks `outs`, of the right size, carries exactly their lifetimes. */
  lemma {:induction false} ContextsAreLifetimes(cells: seq<Cell>, outs: seq<Output>)
    requires Accumulates(cells, outs) && |cells| == Min(|outs|, DcN)
    ensures Contexts(cells) == Lifetimes(outs, |outs|)
  {
    var a := Contexts(cells);
    var b := Lifetimes(outs, |outs|);
    forall i | 0 <= i < |a|
      ensures a[i] == b[i]
    {
      assert a[i] == cells[i].context;
    }
  }

  /** Lifetimes only depend on the ticks before `end`. */
  lemma {:induction false} LifetimesPrefix(outs: seq<Output>, end: nat)
    requires end <= |outs|
    ensures Lifetimes(outs[..end], end) == Lifetimes(outs, end)
  {
    var n := Min(end, DcN);
    forall i | 0 <= i < n
      ensures Lifetimes(outs[..end], end)[i] == Lifetimes(outs, end)[i]
    {
      SumOverPrefix(outs, end, end - n + i, end, Net);
    }
  }

  /** Feeding rows extended by one row is feeding the rows, then one `Process`. */
  lemma {:induction false} FeedSnoc(safe: Windows -> real, init: seq<Row>, row: Row)
    ensures var prev := Feed(safe, init);
            var next := Process(safe, prev.0, row);
            Feed(safe, init + [row]) == (next.0, prev.1 + [next.1])
  {
    FeedLast(safe, Init, init, row);
  }

  /** The context of the row after `init`: the share of the lifetimes of the live cells that are not negative. */
  lemma {:induction false} NextContext(safe: Windows -> real, init: seq<Row>, row: Row)
    ensures var outs := Feed(safe, init + [row]).1;
            outs[|init|].context == Share(Lifetimes(outs, |outs|))
  {
    var prev := Feed(safe, init);
    var res := Feed(safe, init + [row]);
    FeedSnoc(safe, init, row);
    ProcessParts(safe, prev.0, row);
    FeedAccumulates(safe, init + [row]);
    ContextsAreLifetimes(res.0.cells, res.1);
  }

  /**
   The context of admitted row `t`: the fraction of the cells alive after it
   (created at rows `t - min(t+1, DC_N) + 1 .. t`) whose sum of
   `danger - safe` up to row `t` is not negative.
   */
  lemma {:induction false} ContextRule(safe: Windows -> real, rs: seq<Row>, t: nat)
    requires t < |rs|
    ensures var outs := Feed(safe, rs).1;
            outs[t].context == Share(Lifetimes(outs, t + 1))
  {
    var outs := Feed(safe, rs).1;
    assert rs[..t] + [rs[t]] == rs[..t + 1];
    NextContext(safe, rs[..t], rs[t]);
    FeedPrefix(safe, rs, t + 1);
    LifetimesPrefix(outs, t + 1);
  }

  // ---------------------------------------------------------------- the script

  /**
   The output rule of the script for its `t`-th output: the `t`-th admitted
   row's node, its capped danger, the safe signal of the windows of admitted
   readings up to it, and the live-majority context.
   */
  lemma {:induction false} OutputRule(safe: Windows -> real, rows: seq<Row>, t: nat)
    requires t < |Filter(rows)|
    ensures var acc := Filter(rows);
            var outs := Run(safe, rows).1;
            && |outs| == |acc|
            && outs[t].antigen == acc[t].node
            && outs[t].danger == CappedDanger(acc[t].x)
            && outs[t].safe == safe(WindowsOf(Readings(acc[..t + 1]), StdDevN))
            && outs[t].context == Share(Lifetimes(outs, t + 1))
  {
    Gating(safe, Init, rows);
    SignalRule(safe, Filter(rows), t);
    ContextRule(safe, Filter(rows), t);
  }

  /** No soil temperature is ever pushed: the soil-temperature stream is all zeros. */
  lemma {:induction false} SoilColumnZero(rs: seq<Row>, i: nat)
    requires i < |rs|
    ensures Column(Readings(rs), TSoil)[i] == 0.0
  {
    if i < |rs| - 1 {
      var init := rs[..|rs| - 1];
      SoilColumnZero(init, i);
      ColumnSnoc(Readings(init), Pushed(rs[|rs| - 1]), TSoil);
    } else {
      ColumnSnoc(Readings(rs[..|rs| - 1]), Pushed(rs[|rs| - 1]), TSoil);
    }
  }

  /** The soil-temperature window only ever holds zeros. */
  lemma {:induction false} SoilWindowZero(rs: seq<Row>, n: nat)
    ensures var w := WindowsOf(Readings(rs), n);
            forall i :: 0 <= i < |w.tSoil| ==> w.tSoil[i] == 0.0
  {
    var c := Column(Readings(rs), TSoil);
    var l := Last(c, n);
    assert WindowsOf(Readings(rs), n).tSoil == l;
    forall i | 0 <= i < |l|
      ensures l[i] == 0.0
    {
      assert l[i] == c[|c| - |l| + i];
      SoilColumnZero(rs, |c| - |l| + i);
    }
  }

  /**
   On windows whose soil-temperature window holds only zeros, the script's safe
   signal lies in (0,1], is 1 exactly when the other three windows are constant,
   and is decided by the other three deviations alone.
   */
  lemma {:induction false} SoillessSafe(m: Elementary, w: Windows)
    requires m.Sound() && w.Ready()
    requires forall i :: 0 <= i < |w.tSoil| ==> w.tSoil[i] == 0.0
    ensures var sf := SafeSignal(m)(w);
            && 0.0 < sf <= 1.0
            && (sf == 1.0 <==> Constant(w.tAir) && Constant(w.hAir) && Constant(w.hSoil))
            && sf == m.exp(-Max(Max(StdDev(m, w.tAir), StdDev(m, w.hAir)), StdDev(m, w.hSoil)) * SafeSens)
  {
    ZeroWindowIgnored(m, w);
    ExpSafeRange(m, w);
    assert Constant(w.tSoil);
  }

  /** The windows of a non-empty stream are ready. */
  lemma {:induction false} WindowsOfReady(rs: seq<Reading>, n: nat)
    requires |rs| > 0 && n >= 1
    ensures WindowsOf(rs, n).Ready()
  {
  }

  /** The script's safe signal on the windows of a non-empty stream of admitted rows. */
  lemma {:induction false} StreamSafe(m: Elementary, rs: seq<Row>)
    requires m.Sound() && |rs| > 0
    ensures var w := WindowsOf(Readings(rs), StdDevN);
            var sf := SafeSignal(m)(w);
            && 0.0 < sf <= 1.0
            && (sf == 1.0 <==> Constant(w.tAir) && Constant(w.hAir) && Constant(w.hSoil))
            && sf == m.exp(-Max(Max(StdDev(m, w.tAir), StdDev(m, w.hAir)), StdDev(m, w.hSoil)) * SafeSens)
  {
    var w := WindowsOf(Readings(rs), StdDevN);
    WindowsOfReady(Readings(rs), StdDevN);
    SoilWindowZero(rs, StdDevN);
    SoillessSafe(m, w);
  }

  /**
   The script's safe signal for admitted row `t`: `exp(-max(...) * SAFE_SENS)`
   over the four standard deviations of the windows that row completes.
   */
  lemma {:induction false} ScriptSafe(m: Elementary, rs: seq<Row>, t: nat)
    requires m.Sound() && t < |rs|
    ensures var w := WindowsOf(Readings(rs[..t + 1]), StdDevN);
            w.Ready() && Feed(SafeSignal(m), rs).1[t].safe == ExpSafe(m, w)
  {
    WindowsOfReady(Readings(rs[..t + 1]), StdDevN);
    SafeOfRow(SafeSignal(m), rs, t);
  }

  /** Since the soil temperature is never pushed, only three of the four deviations decide the script's safe signal. */
  lemma {:induction false} ScriptSafeSoilless(m: Elementary, rs: seq<Row>, t: nat)
    requires m.Sound() && t < |rs|
    ensures var w := WindowsOf(Readings(rs[..t + 1]), StdDevN);
            w.Ready() && Feed(SafeSignal(m), rs).1[t].safe == m.exp(-Max(Max(StdDev(m, w.tAir), StdDev(m, w.hAir)), StdDev(m, w.hSoil)) * SafeSens)
  {
    var w := WindowsOf(Readings(rs[..t + 1]), StdDevN);
    ScriptSafe(m, rs, t);
    SoilWindowZero(rs[..t + 1], StdDevN);
    SoillessExp(m, w);
  }

  /**
   The script's safe signal of admitted row `t` lies in (0,1], and is 1 exactly
   when the air-temperature, air-humidity and soil-humidity windows are constant.
   */
  lemma {:induction false} ScriptSafeRange(m: Elementary, rs: seq<Row>, t: nat)
    requires m.Sound() && t < |rs|
    ensures var w := WindowsOf(Readings(rs[..t + 1]), StdDevN);
            var o := Feed(SafeSignal(m), rs).1[t];
            && 0.0 < o.safe <= 1.0
            && (o.safe == 1.0 <==> Constant(w.tAir) && Constant(w.hAir) && Constant(w.hSoil))
  {
    SafeOfRow(SafeSignal(m), rs, t);
    StreamSafe(m, rs[..t + 1]);
  }
}
