/**
 The per-quantity sliding windows both scripts keep for one node: the last `n`
 readings of air temperature, soil temperature, air humidity and soil
 humidity, each in its own bounded FIFO list.
 */
module SlidingWindow {

  import opened Fifo

  datatype Quantity = TAir | TSoil | HAir | HSoil

  /** The four use-case readings of one record. */
  datatype Reading = Reading(tAir: real, tSoil: real, hAir: real, hSoil: real)
  {
    function Get(q: Quantity): real
    {
      match q
      case TAir => tAir
      case TSoil => tSoil
      case HAir => hAir
      case HSoil => hSoil
    }
  }

  /** One window per quantity (`safe1_v` .. `safe4_v`, or `t_air_a` .. `h_soil_a`). */
  datatype Windows = Windows(tAir: seq<real>, tSoil: seq<real>, hAir: seq<real>, hSoil: seq<real>)
  {
    function Get(q: Quantity): seq<real>
    {
      match q
      case TAir => tAir
      case TSoil => tSoil
      case HAir => hAir
      case HSoil => hSoil
    }

    /** Every window holds at least one reading, so means and variances are defined. */
    predicate Ready()
    {
      |tAir| > 0 && |tSoil| > 0 && |hAir| > 0 && |hSoil| > 0
    }
  }

  const Empty: Windows := Windows([], [], [], [])

  /** Pushes each reading of a record into its own window of capacity `n`. */
  function PushReading(w: Windows, r: Reading, n: nat): (w': Windows)
    ensures forall q :: w'.Get(q) == Push(w.Get(q), r.Get(q), n)
    ensures n >= 1 ==> w'.Ready()
  {
    Windows(Push(w.tAir, r.tAir, n), Push(w.tSoil, r.tSoil, n),
            Push(w.hAir, r.hAir, n), Push(w.hSoil, r.hSoil, n))
  }

  /** The stream of one quantity, in record order. */
  function Column(rs: seq<Reading>, q: Quantity): (c: seq<real>)
    ensures |c| == |rs|
  {
    if rs == [] then [] else Column(rs[..|rs| - 1], q) + [rs[|rs| - 1].Get(q)]
  }

  lemma {:induction false} ColumnSnoc(rs: seq<Reading>, r: Reading, q: Quantity)
    ensures Column(rs + [r], q) == Column(rs, q) + [r.Get(q)]
  {
    assert (rs + [r])[..|rs|] == rs;
  }

  /** Entry `i` of a quantity's stream is that quantity of record `i`. */
  lemma {:induction false} ColumnAt(rs: seq<Reading>, q: Quantity, i: nat)
    requires i < |rs|
    ensures Column(rs, q)[i] == rs[i].Get(q)
  {
    if i < |rs| - 1 {
      ColumnAt(rs[..|rs| - 1], q, i);
    }
  }

  /** The windows that hold, per quantity, the last `n` readings of `rs` in order. */
  function WindowsOf(rs: seq<Reading>, n: nat): (w: Windows)
    ensures forall q :: w.Get(q) == Last(Column(rs, q), n)
  {
    Windows(Last(Column(rs, TAir), n), Last(Column(rs, TSoil), n),
            Last(Column(rs, HAir), n), Last(Column(rs, HSoil), n))
  }

  /** The windows after pushing every reading of `rs`, in order, into empty windows of capacity `n`. */
  function Track(rs: seq<Reading>, n: nat): Windows
  {
    if rs == [] then Empty else PushReading(Track(rs[..|rs| - 1], n), rs[|rs| - 1], n)
  }

  lemma {:induction false} TrackSnoc(rs: seq<Reading>, r: Reading, n: nat)
    ensures Track(rs + [r], n) == PushReading(Track(rs, n), r, n)
  {
    assert (rs + [r])[..|rs|] == rs;
  }

  lemma {:induction false} PushColumn(rs: seq<Reading>, r: Reading, q: Quantity, n: nat)
    ensures Push(Last(Column(rs, q), n), r.Get(q), n) == Last(Column(rs + [r], q), n)
  {
    ColumnSnoc(rs, r, q);
    PushLast(Column(rs, q), r.Get(q), n);
  }

  /** Pushing a record onto the windows of a stream gives the windows of the longer stream. */
  lemma {:induction false} PushReadingOf(rs: seq<Reading>, r: Reading, n: nat)
    ensures PushReading(WindowsOf(rs, n), r, n) == WindowsOf(rs + [r], n)
  {
    PushColumn(rs, r, TAir, n);
    PushColumn(rs, r, TSoil, n);
    PushColumn(rs, r, HAir, n);
    PushColumn(rs, r, HSoil, n);
  }

  /**
   Windows maintained push by push hold, per quantity, exactly the last `n`
   readings of the stream, oldest first.
   */
  lemma {:induction false} TrackIsLast(rs: seq<Reading>, n: nat)
    ensures Track(rs, n) == WindowsOf(rs, n)
  {
    if rs != [] {
      var init := rs[..|rs| - 1];
      var r := rs[|rs| - 1];
      calc {
        Track(rs, n);
      ==
        PushReading(Track(init, n), r, n);
      == { TrackIsLast(init, n); }
        PushReading(WindowsOf(init, n), r, n);
      == { PushReadingOf(init, r, n); }
        WindowsOf(init + [r], n);
      == { assert init + [r] == rs; }
        WindowsOf(rs, n);
      }
    }
  }
}
