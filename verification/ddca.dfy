/**
 The deterministic DCA (dDCA) of the testbed analysis script, folded over one
 node's record stream.

 Per record: the four readings are pushed into their windows; danger is the
 plain indicator sum; safe is computed from the windows by the configuration's
 safe-signal formula; every live cell's `csm` and `k` grow by this record's
 `safe + danger` and `danger - 2·safe`; a new cell seeded with those values
 joins the population; and when the population has grown past its capacity the
 oldest cell retires and the context is 1 if its `k` is positive, else 0.

 The configuration `Scripted` is the code as written (cells retire once more
 than 4 are alive, and the safe formula is `DDcaSafe.Safe` in mode
 `AsWritten`); `Intended` retires at `DC_N = 10` and uses the corrected safe
 formula. The theorems about the fold hold for every configuration.
 */
module DDca {

  import opened Fifo
  import opened Stats
  import opened SlidingWindow
  import opened Signals
  import opened DDcaSafe

  /** `SAFE_N`: readings per safe window. */
  const SafeN: nat := 10
  /** `DC_N`: the declared cell lifetime/population. */
  const DcN: nat := 10
  /** The capacity the retirement test actually compares against. */
  const RetireAt: nat := 4

  /**
   The window length, the population size past which the oldest cell retires,
   and the formula that turns the windows into the safe signal.
   */
  datatype Config = Config(windowSize: nat, capacity: nat, safe: Windows -> real)

  /** The script's safe signal; a step only applies it to windows that are ready. */
  function SafeSignal(m: Elementary, mode: SafeMode): Windows -> real
  {
    (w: Windows) => if w.Ready() then Safe(m, mode, w) else 0.0
  }

  function Scripted(m: Elementary): Config
  {
    Config(SafeN, RetireAt, SafeSignal(m, AsWritten))
  }

  function Intended(m: Elementary): Config
  {
    Config(SafeN, DcN, SafeSignal(m, Corrected))
  }

  datatype Record = Record(node: string, reading: Reading, x: Indicators)

  /** A dendritic cell: the antigen of its creation record and its two accumulators. */
  datatype Cell = Cell(antigen: string, csm: real, k: real)

  datatype State = State(windows: Windows, cells: seq<Cell>)

  /** The computed part of one output row. */
  datatype Output = Output(antigen: string, danger: real, safe: real, context: real)

  const Init: State := State(Empty, [])

  // ---------------------------------------------------------------- cells

  function Csm(o: Output): real
  {
    o.safe + o.danger
  }

  function K(o: Output): real
  {
    o.danger - 2.0 * o.safe
  }

  /** Adds one tick's `csm` and `k` to every live cell, keeping order and antigens. */
  function Stimulate(cells: seq<Cell>, csm: real, k: real): (r: seq<Cell>)
    ensures |r| == |cells|
  {
    if cells == [] then []
    else
      var c := cells[|cells| - 1];
      Stimulate(cells[..|cells| - 1], csm, k) + [Cell(c.antigen, c.csm + csm, c.k + k)]
  }

  /** Cell `j` after stimulation is cell `j` before, with the tick added to both accumulators. */
  lemma {:induction false} StimulateAt(cells: seq<Cell>, csm: real, k: real, j: nat)
    requires j < |cells|
    ensures Stimulate(cells, csm, k)[j] == Cell(cells[j].antigen, cells[j].csm + csm, cells[j].k + k)
  {
    if j < |cells| - 1 {
      StimulateAt(cells[..|cells| - 1], csm, k, j);
    }
  }

  /**
   The population update of one tick: every live cell receives the tick's
   `csm` and `k`, a cell seeded with them is appended, and the oldest cell
   retires when the population has grown past `cap`.
   */
  function Tick(cells: seq<Cell>, antigen: string, csm: real, k: real, cap: nat): (r: (seq<Cell>, Option<Cell>))
    ensures |cells| <= cap ==> |r.0| == Min(|cells| + 1, cap)
    ensures r.1.Some? <==> |cells| + 1 > cap
  {
    Offer(Stimulate(cells, csm, k), Cell(antigen, csm, k), cap)
  }

  /** The dDCA context of a tick: 1 when a cell retires with positive `k`, otherwise 0. */
  function Decide(retiring: Option<Cell>): (c: real)
    ensures c == 0.0 || c == 1.0
    ensures c == 1.0 <==> retiring.Some? && retiring.value.k > 0.0
  {
    if retiring.Some? && retiring.value.k > 0.0 then 1.0 else 0.0
  }

  // ---------------------------------------------------------------- the fold

  /**
   One iteration of the per-record loop: returns the new state and the
   record's danger, safe and context.
   */
  function Step(cfg: Config, s: State, rec: Record): (res: (State, Output))
    requires cfg.windowSize >= 1
    ensures res.1.context == 0.0 || res.1.context == 1.0
    ensures res.0.windows.Ready()
    ensures |s.cells| <= cfg.capacity ==> |res.0.cells| == Min(|s.cells| + 1, cfg.capacity)
  {
    var w := PushReading(s.windows, rec.reading, cfg.windowSize);
    var signals := Output(rec.node, UncappedDanger(rec.x), cfg.safe(w), 0.0);
    var r := Tick(s.cells, rec.node, Csm(signals), K(signals), cfg.capacity);
    (State(w, r.0), signals.(context := Decide(r.1)))
  }

  /** Folds `Step` over a stream, collecting one output per record in order. */
  function RunFrom(cfg: Config, s: State, rs: seq<Record>): (res: (State, seq<Output>))
    requires cfg.windowSize >= 1
    ensures |res.1| == |rs|
    ensures |s.cells| <= cfg.capacity ==> |res.0.cells| == Min(|s.cells| + |rs|, cfg.capacity)
  {
    if rs == [] then (s, [])
    else
      var prev := RunFrom(cfg, s, rs[..|rs| - 1]);
      var next := Step(cfg, prev.0, rs[|rs| - 1]);
      (next.0, prev.1 + [next.1])
  }

  function Run(cfg: Config, rs: seq<Record>): (State, seq<Output>)
    requires cfg.windowSize >= 1
  {
    RunFrom(cfg, Init, rs)
  }

  /** The readings of the records, in order. */
  function Readings(rs: seq<Record>): (r: seq<Reading>)
    ensures |r| == |rs|
  {
    if rs == [] then [] else Readings(rs[..|rs| - 1]) + [rs[|rs| - 1].reading]
  }

  // ---------------------------------------------------------------- invariant

  /**
   The cell created at tick `t`, as it stands after ticks `outs`: that tick's
   antigen, and the `csm` and `k` of every tick from `t` on.
   */
  function CellSince(outs: seq<Output>, t: nat): Cell
    requires t < |outs|
  {
    Cell(outs[t].antigen, SumOver(outs, t, |outs|, Csm), SumOver(outs, t, |outs|, K))
  }

  /** Cell `j` of a population of `|cells|` after ticks `outs` is the cell created at tick `|outs| - |cells| + j`. */
  ghost predicate Accumulates(cells: seq<Cell>, outs: seq<Output>)
  {
    && |cells| <= |outs|
    && forall j :: 0 <= j < |cells| ==> cells[j] == CellSince(outs, |outs| - |cells| + j)
  }

  /** A cell created at tick `t` that received ticks `t..` receives the next tick too. */
  lemma {:induction false} CellReceivesTick(outs: seq<Output>, o: Output, t: int)
    requires 0 <= t < |outs|
    ensures var c := CellSince(outs, t);
            Cell(c.antigen, c.csm + Csm(o), c.k + K(o)) == CellSince(outs + [o], t)
  {
    assert (outs + [o])[t] == outs[t];
    SumOverExtend(outs, o, t, Csm);
    SumOverExtend(outs, o, t, K);
  }

  /** The fresh cell of a tick holds exactly that tick's contribution. */
  lemma {:induction false} FreshCell(outs: seq<Output>, o: Output)
    ensures Cell(o.antigen, Csm(o), K(o)) == CellSince(outs + [o], |outs|)
  {
    SumOverExtend(outs, o, |outs|, Csm);
    SumOverExtend(outs, o, |outs|, K);
  }

  /** Cell `j` of the grown population holds the sums of the ticks since its creation. */
  lemma {:induction false} GrownCell(cells: seq<Cell>, outs: seq<Output>, o: Output, j: nat)
    requires |cells| <= |outs| && j <= |cells|
    requires j < |cells| ==> cells[j] == CellSince(outs, |outs| - |cells| + j)
    ensures var grown := Stimulate(cells, Csm(o), K(o)) + [Cell(o.antigen, Csm(o), K(o))];
            grown[j] == CellSince(outs + [o], |outs| - |cells| + j)
  {
    if j < |cells| {
      StimulateAt(cells, Csm(o), K(o), j);
      CellReceivesTick(outs, o, |outs| - |cells| + j);
    } else {
      FreshCell(outs, o);
    }
  }

  /** Stimulating every live cell and appending the fresh one preserves `Accumulates`. */
  lemma {:induction false} GrowAccumulates(cells: seq<Cell>, outs: seq<Output>, o: Output)
    requires Accumulates(cells, outs)
    ensures Accumulates(Stimulate(cells, Csm(o), K(o)) + [Cell(o.antigen, Csm(o), K(o))], outs + [o])
  {
    forall j | 0 <= j <= |cells| {
      GrownCell(cells, outs, o, j);
    }
  }

  /** Removing the oldest cell preserves `Accumulates`. */
  lemma {:induction false} DropOldestAccumulates(cells: seq<Cell>, outs: seq<Output>)
    requires Accumulates(cells, outs) && |cells| > 0
    ensures Accumulates(cells[1..], outs)
  {
    forall j | 0 <= j < |cells| - 1
      ensures cells[1..][j] == CellSince(outs, |outs| - (|cells| - 1) + j)
    {
      assert cells[1..][j] == cells[j + 1];
    }
  }

  /** One tick of the population preserves `Accumulates`; the retiring cell carries the `k` of its whole lifetime. */
  lemma {:induction false} TickAccumulates(cells: seq<Cell>, outs: seq<Output>, o: Output, cap: nat)
    requires Accumulates(cells, outs)
    ensures var r := Tick(cells, o.antigen, Csm(o), K(o), cap);
            && Accumulates(r.0, outs + [o])
            && (r.1.Some? ==> r.1.value.k == SumOver(outs + [o], |outs| - |cells|, |outs| + 1, K))
  {
    var grown := Stimulate(cells, Csm(o), K(o)) + [Cell(o.antigen, Csm(o), K(o))];
    GrowAccumulates(cells, outs, o);
    if |grown| > cap {
      DropOldestAccumulates(grown, outs + [o]);
    }
  }

  /** What one `Step` does, spelled out for the proofs. */
  lemma {:induction false} StepParts(cfg: Config, s: State, rec: Record)
    requires cfg.windowSize >= 1
    ensures var res := Step(cfg, s, rec);
            var o := res.1;
            var r := Tick(s.cells, o.antigen, Csm(o), K(o), cfg.capacity);
            && res.0.windows == PushReading(s.windows, rec.reading, cfg.windowSize)
            && o.antigen == rec.node
            && o.danger == UncappedDanger(rec.x)
            && o.safe == cfg.safe(res.0.windows)
            && res.0.cells == r.0
            && o.context == Decide(r.1)
  {
    var w := PushReading(s.windows, rec.reading, cfg.windowSize);
    var signals := Output(rec.node, UncappedDanger(rec.x), cfg.safe(w), 0.0);
    var o := Step(cfg, s, rec).1;
    assert Csm(o) == Csm(signals) && K(o) == K(signals);
  }

  /** The fold, one record from the end. */
  lemma {:induction false} RunLast(cfg: Config, rs: seq<Record>)
    requires cfg.windowSize >= 1 && |rs| > 0
    ensures var prev := Run(cfg, rs[..|rs| - 1]);
            var next := Step(cfg, prev.0, rs[|rs| - 1]);
            Run(cfg, rs) == (next.0, prev.1 + [next.1])
  {
  }

  lemma {:induction false} ReadingsSnoc(rs: seq<Record>, rec: Record)
    ensures Readings(rs + [rec]) == Readings(rs) + [rec.reading]
  {
    assert (rs + [rec])[..|rs|] == rs;
  }

  lemma {:induction false} ReadingsAt(rs: seq<Record>, i: nat)
    requires i < |rs|
    ensures Readings(rs)[i] == rs[i].reading
  {
    if i < |rs| - 1 {
      ReadingsAt(rs[..|rs| - 1], i);
    }
  }

  /** One step pushes the record's readings into the windows. */
  lemma {:induction false} StepWindows(cfg: Config, rs: seq<Record>, rec: Record, s: State)
    requires cfg.windowSize >= 1
    requires s.windows == Track(Readings(rs), cfg.windowSize)
    ensures Step(cfg, s, rec).0.windows == Track(Readings(rs + [rec]), cfg.windowSize)
  {
    StepParts(cfg, s, rec);
    ReadingsSnoc(rs, rec);
    TrackSnoc(Readings(rs), rec.reading, cfg.windowSize);
  }

  /** After any stream the windows are those obtained by pushing its readings in order. */
  lemma {:induction false} RunWindows(cfg: Config, rs: seq<Record>)
    requires cfg.windowSize >= 1
    ensures Run(cfg, rs).0.windows == Track(Readings(rs), cfg.windowSize)
  {
    if rs != [] {
      var init := rs[..|rs| - 1];
      RunLast(cfg, rs);
      RunWindows(cfg, init);
      StepWindows(cfg, init, rs[|rs| - 1], Run(cfg, init).0);
      SnocLast(rs);
    }
  }

  lemma {:induction false} StepAccumulates(cfg: Config, rec: Record, s: State, outs: seq<Output>)
    requires cfg.windowSize >= 1
    requires Accumulates(s.cells, outs)
    ensures var next := Step(cfg, s, rec);
            Accumulates(next.0.cells, outs + [next.1])
  {
    var next := Step(cfg, s, rec);
    StepParts(cfg, s, rec);
    TickAccumulates(s.cells, outs, next.1, cfg.capacity);
  }

  /** After any stream every live cell holds the sums of the ticks since its creation. */
  lemma {:induction false} RunAccumulates(cfg: Config, rs: seq<Record>)
    requires cfg.windowSize >= 1
    ensures Accumulates(Run(cfg, rs).0.cells, Run(cfg, rs).1)
  {
    if rs != [] {
      var init := rs[..|rs| - 1];
      var prev := Run(cfg, init);
      RunLast(cfg, rs);
      RunAccumulates(cfg, init);
      StepAccumulates(cfg, rs[|rs| - 1], prev.0, prev.1);
    }
  }

  // ---------------------------------------------------------------- per-record outputs

  lemma {:induction false} RunDropLast(cfg: Config, rs: seq<Record>)
    requires cfg.windowSize >= 1 && |rs| > 0
    ensures Run(cfg, rs).1[..|rs| - 1] == Run(cfg, rs[..|rs| - 1]).1
  {
    RunLast(cfg, rs);
  }

  /** The outputs of a prefix of the stream are the prefix of the outputs: no output depends on later records. */
  lemma {:induction false} RunPrefix(cfg: Config, rs: seq<Record>, n: nat)
    requires cfg.windowSize >= 1 && n <= |rs|
    ensures Run(cfg, rs[..n]).1 == Run(cfg, rs).1[..n]
  {
    if n < |rs| {
      var init := rs[..|rs| - 1];
      var outs := Run(cfg, rs).1;
      calc {
        Run(cfg, rs[..n]).1;
      == { assert init[..n] == rs[..n]; }
        Run(cfg, init[..n]).1;
      == { RunPrefix(cfg, init, n); }
        Run(cfg, init).1[..n];
      == { RunDropLast(cfg, rs); }
        outs[..|rs| - 1][..n];
      ==
        outs[..n];
      }
    } else {
      assert rs[..n] == rs;
    }
  }

  /**
   The context of one step, appended to the outputs `p` so far: 1 exactly when
   a cell retires, which happens once `cap` earlier records exist, and its `k`,
   the sum over its lifetime, is positive.
   */
  lemma {:induction false} StepContext(cfg: Config, s: State, p: seq<Output>, rec: Record, outs: seq<Output>)
    requires cfg.windowSize >= 1
    requires |s.cells| == Min(|p|, cfg.capacity) && Accumulates(s.cells, p)
    requires outs == p + [Step(cfg, s, rec).1]
    ensures var t := |p|;
            outs[t].context == if t >= cfg.capacity && SumOver(outs, t - cfg.capacity, t + 1, K) > 0.0 then 1.0 else 0.0
  {
    var o := Step(cfg, s, rec).1;
    StepParts(cfg, s, rec);
    TickAccumulates(s.cells, p, o, cfg.capacity);
  }

  /** The signals of the last record of a stream: its antigen, danger and safe signal. */
  lemma {:induction false} LastSignals(cfg: Config, rs: seq<Record>)
    requires cfg.windowSize >= 1 && |rs| > 0
    ensures var o := Run(cfg, rs).1[|rs| - 1];
            && o.antigen == rs[|rs| - 1].node
            && o.danger == UncappedDanger(rs[|rs| - 1].x)
            && o.safe == cfg.safe(Run(cfg, rs).0.windows)
  {
    var prev := Run(cfg, rs[..|rs| - 1]);
    RunLast(cfg, rs);
    StepParts(cfg, prev.0, rs[|rs| - 1]);
  }

  /** Running a stream extended by one record is running the stream, then one `Step`. */
  lemma {:induction false} RunSnoc(cfg: Config, init: seq<Record>, rec: Record)
    requires cfg.windowSize >= 1
    ensures var prev := Run(cfg, init);
            var next := Step(cfg, prev.0, rec);
            Run(cfg, init + [rec]) == (next.0, prev.1 + [next.1])
  {
    assert (init + [rec])[..|init|] == init;
  }

  /** The context the record after a stream gets, in terms of the extended stream's outputs. */
  lemma {:induction false} NextContext(cfg: Config, init: seq<Record>, rec: Record)
    requires cfg.windowSize >= 1
    ensures var outs := Run(cfg, init + [rec]).1;
            var t := |init|;
            outs[t].context == if t >= cfg.capacity && SumOver(outs, t - cfg.capacity, t + 1, K) > 0.0 then 1.0 else 0.0
  {
    var prev := Run(cfg, init);
    RunAccumulates(cfg, init);
    RunSnoc(cfg, init, rec);
    StepContext(cfg, prev.0, prev.1, rec, Run(cfg, init + [rec]).1);
  }

  /** Output `t` of a stream is the last output of its prefix `0..t`. */
  lemma {:induction false} PrefixOutput(cfg: Config, rs: seq<Record>, t: nat)
    requires cfg.windowSize >= 1 && t < |rs|
    ensures Run(cfg, rs).1[t] == Run(cfg, rs[..t + 1]).1[t]
  {
    RunPrefix(cfg, rs, t + 1);
  }

  /** The safe signal of record `t` is computed from the last `windowSize` readings up to and including `t`. */
  lemma {:induction false} SafeOfRecord(cfg: Config, rs: seq<Record>, t: nat)
    requires cfg.windowSize >= 1 && t < |rs|
    ensures Run(cfg, rs).1[t].safe == cfg.safe(WindowsOf(Readings(rs[..t + 1]), cfg.windowSize))
  {
    var prefix := rs[..t + 1];
    PrefixOutput(cfg, rs, t);
    LastSignals(cfg, prefix);
    RunWindows(cfg, prefix);
    TrackIsLast(Readings(prefix), cfg.windowSize);
  }

  /** The antigen, danger and safe signal of record `t`: danger from the record itself, safe from the readings up to `t`. */
  lemma {:induction false} SignalRule(cfg: Config, rs: seq<Record>, t: nat)
    requires cfg.windowSize >= 1 && t < |rs|
    ensures var o := Run(cfg, rs).1[t];
            && o.antigen == rs[t].node
            && o.danger == UncappedDanger(rs[t].x)
            && o.safe == cfg.safe(WindowsOf(Readings(rs[..t + 1]), cfg.windowSize))
  {
    var prefix := rs[..t + 1];
    PrefixOutput(cfg, rs, t);
    LastSignals(cfg, prefix);
    SafeOfRecord(cfg, rs, t);
    assert prefix[t] == rs[t];
  }

  /**
   The context of record `t`: 1 exactly when `t >= cap` and the `k`
   contributions of records `t - cap .. t` (the lifetime of the cell created at
   `t - cap`, which retires at `t`) sum to a positive value.
   */
  lemma {:induction false} ContextRule(cfg: Config, rs: seq<Record>, t: nat)
    requires cfg.windowSize >= 1 && t < |rs|
    ensures var outs := Run(cfg, rs).1;
            outs[t].context == if t >= cfg.capacity && SumOver(outs, t - cfg.capacity, t + 1, K) > 0.0 then 1.0 else 0.0
  {
    var outs := Run(cfg, rs).1;
    assert rs[..t] + [rs[t]] == rs[..t + 1];
    NextContext(cfg, rs[..t], rs[t]);
    RunPrefix(cfg, rs, t + 1);
    if t >= cfg.capacity {
      SumOverPrefix(outs, t + 1, t - cfg.capacity, t + 1, K);
    }
  }

  /** The output rule of the dDCA for every record of a stream: signals and context together. */
  lemma {:induction false} OutputRule(cfg: Config, rs: seq<Record>, t: nat)
    requires cfg.windowSize >= 1 && t < |rs|
    ensures var outs := Run(cfg, rs).1;
            && outs[t].antigen == rs[t].node
            && outs[t].danger == UncappedDanger(rs[t].x)
            && outs[t].safe == cfg.safe(WindowsOf(Readings(rs[..t + 1]), cfg.windowSize))
            && outs[t].context
                 == if t >= cfg.capacity && SumOver(outs, t - cfg.capacity, t + 1, K) > 0.0 then 1.0 else 0.0
  {
    SignalRule(cfg, rs, t);
    ContextRule(cfg, rs, t);
  }

  /**
   With the script's formula, every safe signal lies in [0,1], whatever the
   capacity: both the script as written and the corrected configuration.
   */
  lemma {:induction false} SafeSignalRange(m: Elementary, mode: SafeMode, cfg: Config, rs: seq<Record>, t: nat)
    requires cfg.windowSize >= 1 && cfg.safe == SafeSignal(m, mode) && t < |rs|
    ensures 0.0 <= Run(cfg, rs).1[t].safe <= 1.0
  {
    SafeOfRecord(cfg, rs, t);
  }

  // ---------------------------------------------------------------- retirement capacity

  /** The windows of a stream of all-zero readings are non-empty and hold only zeros. */
  lemma {:induction false} WindowsOfZeroReadings(rs: seq<Record>, n: nat)
    requires n >= 1 && |rs| > 0
    requires forall i :: 0 <= i < |rs| ==> rs[i].reading == Reading(0.0, 0.0, 0.0, 0.0)
    ensures var w := WindowsOf(Readings(rs), n);
            && w.Ready()
            && forall q, i :: 0 <= i < |w.Get(q)| ==> w.Get(q)[i] == 0.0
  {
    var w := WindowsOf(Readings(rs), n);
    forall q, i | 0 <= i < |w.Get(q)|
      ensures w.Get(q)[i] == 0.0
    {
      var c := Column(Readings(rs), q);
      var k := |c| - |w.Get(q)| + i;
      assert w.Get(q)[i] == c[k];
      ColumnAt(Readings(rs), q, k);
      ReadingsAt(rs, k);
    }
    assert w.Get(TAir) == w.tAir && w.Get(TSoil) == w.tSoil && w.Get(HAir) == w.hAir && w.Get(HSoil) == w.hSoil;
  }


  /** A record with steady all-zero readings on which one indicator (no transmission) fires. */
  const Quiet: Record := Record("node", Reading(0.0, 0.0, 0.0, 0.0), Indicators(1.0, 0.0, 0.0, 0.0, 0.0, 0.0, 0.0, 0.0))

  ghost predicate AllQuiet(rs: seq<Record>)
  {
    forall i :: 0 <= i < |rs| ==> rs[i] == Quiet
  }

  /** A safe-signal formula that gives 0 on non-empty windows holding only zeros. */
  ghost predicate ZeroOnZeros(safe: Windows -> real)
  {
    forall w: Windows :: w.Ready() && (forall q, i :: 0 <= i < |w.Get(q)| ==> w.Get(q)[i] == 0.0) ==> safe(w) == 0.0
  }

  /** The script's safe signal, in either mode, is such a formula. */
  lemma {:induction false} SafeSignalZeroOnZeros(m: Elementary, mode: SafeMode)
    ensures ZeroOnZeros(SafeSignal(m, mode))
  {
    forall w: Windows | w.Ready() && (forall q, i :: 0 <= i < |w.Get(q)| ==> w.Get(q)[i] == 0.0)
      ensures SafeSignal(m, mode)(w) == 0.0
    {
      ZeroWindowsSafe(m, mode, w);
    }
  }

  /** The windows of every prefix of a quiet stream are ready and hold only zeros. */
  lemma {:induction false} QuietWindows(rs: seq<Record>, t: nat, n: nat)
    requires n >= 1 && t < |rs| && AllQuiet(rs)
    ensures var w := WindowsOf(Readings(rs[..t + 1]), n);
            && w.Ready()
            && forall q, i :: 0 <= i < |w.Get(q)| ==> w.Get(q)[i] == 0.0
  {
    var prefix := rs[..t + 1];
    forall i | 0 <= i < |prefix|
      ensures prefix[i].reading == Reading(0.0, 0.0, 0.0, 0.0)
    {
      assert prefix[i] == rs[i];
    }
    WindowsOfZeroReadings(prefix, n);
  }

  /** Every record of a quiet stream gets danger 1 and safe 0, so it adds 1 to every live cell's `k`. */
  lemma {:induction false} QuietOutputs(cfg: Config, rs: seq<Record>, t: nat)
    requires cfg.windowSize >= 1 && ZeroOnZeros(cfg.safe) && t < |rs| && AllQuiet(rs)
    ensures K(Run(cfg, rs).1[t]) == 1.0
  {
    var w := WindowsOf(Readings(rs[..t + 1]), cfg.windowSize);
    SignalRule(cfg, rs, t);
    QuietWindows(rs, t, cfg.windowSize);
    assert cfg.safe(w) == 0.0;
    assert rs[t] == Quiet;
  }

  /** When every `k` contribution up to `t` is 1, the context rule reports 1 exactly from tick `cap` on. */
  lemma {:induction false} ContextOfSteadyK(outs: seq<Output>, cap: nat, t: nat)
    requires t < |outs|
    requires forall i :: 0 <= i <= t ==> K(outs[i]) == 1.0
    requires outs[t].context == if t >= cap && SumOver(outs, t - cap, t + 1, K) > 0.0 then 1.0 else 0.0
    ensures outs[t].context == if t >= cap then 1.0 else 0.0
  {
    if t >= cap {
      SumOverConstant(outs, t - cap, t + 1, K, 1.0);
    }
  }

  /** On a quiet stream every retiring cell has positive `k`: the context is 1 from record `cap` on. */
  lemma {:induction false} QuietContext(cfg: Config, rs: seq<Record>, t: nat)
    requires cfg.windowSize >= 1 && ZeroOnZeros(cfg.safe) && t < |rs| && AllQuiet(rs)
    ensures Run(cfg, rs).1[t].context == if t >= cfg.capacity then 1.0 else 0.0
  {
    var outs := Run(cfg, rs).1;
    ContextRule(cfg, rs, t);
    forall i | 0 <= i <= t
      ensures K(outs[i]) == 1.0
    {
      QuietOutputs(cfg, rs, i);
    }
    ContextOfSteadyK(outs, cfg.capacity, t);
  }

  /**
   As written, a cell retires once more than four cells are alive instead of
   after `DC_N` records: on five quiet records the script already reports an
   anomalous context for the fifth, where cells living `DC_N` records would
   report none before the eleventh.
   */
  lemma {:induction false} ScriptedRetiresEarly(m: Elementary)
    ensures var rs := seq(5, _ => Quiet);
            && Run(Scripted(m), rs).1[4].context == 1.0
            && Run(Intended(m), rs).1[4].context == 0.0
  {
    var rs := seq(5, _ => Quiet);
    assert AllQuiet(rs);
    SafeSignalZeroOnZeros(m, AsWritten);
    SafeSignalZeroOnZeros(m, Corrected);
    QuietContext(Scripted(m), rs, 4);
    QuietContext(Intended(m), rs, 4);
  }

  /**
   With the intended capacity `DC_N`, no context is reported for the first
   `DC_N` records, and record `t` afterwards is judged on the `k` of records
   `t - DC_N .. t`.
   */
  lemma {:induction false} IntendedContext(m: Elementary, rs: seq<Record>, t: nat)
    requires t < |rs|
    ensures var outs := Run(Intended(m), rs).1;
            && (t < DcN ==> outs[t].context == 0.0)
            && (t >= DcN ==> (outs[t].context == 1.0 <==> SumOver(outs, t - DcN, t + 1, K) > 0.0))
  {
    ContextRule(Intended(m), rs, t);
  }
}
