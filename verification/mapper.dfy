/** TestDataMapper: the largest deviation of each selected ideal function from
    its training curve, and the assignment of every test point to the selected
    ideal function that covers it within sqrt(2) times that deviation. */
module Mapper {
  import opened Options
  import opened Numeric
  import opened Tables
  import opened ArgMin
  import opened Selection
  import opened Dicts

  /** The mapper's two dictionaries: selected_functions (training column ->
      ideal column) and max_deviation (ideal column -> largest deviation). */
  datatype MapperState = MapperState(selected: map<string, string>, maxDev: map<string, real>)

  /** The state a fresh mapper starts from. */
  const Fresh: MapperState := MapperState(map[], map[])

  /** What compute_max_deviation needs of an entry: an ideal function, both
      columns present, and both of one non-zero length. */
  predicate Paired(e: Fit, train: Table, ideal: Table)
  {
    && e.ideal.Some?
    && Lookup(train, e.train).Some?
    && Lookup(ideal, e.ideal.value).Some?
    && |Lookup(train, e.train).value| == |Lookup(ideal, e.ideal.value).value| > 0
  }

  /** The largest absolute difference between the entry's training curve and
      its ideal curve: at least every pointwise difference, and equal to one. */
  function PairDeviation(e: Fit, train: Table, ideal: Table): (r: real)
    requires Paired(e, train, ideal)
    ensures r >= 0.0
    ensures forall t :: 0 <= t < |Lookup(train, e.train).value| ==>
      Abs(Lookup(train, e.train).value[t] - Lookup(ideal, e.ideal.value).value[t]) <= r
    ensures exists t :: (0 <= t < |Lookup(train, e.train).value| &&
      r == Abs(Lookup(train, e.train).value[t] - Lookup(ideal, e.ideal.value).value[t]))
  {
    MaxAbsDiff(Lookup(train, e.train).value, Lookup(ideal, e.ideal.value).value)
  }

  /** Entry i is the last one for its training column. */
  ghost predicate LastForTrain(fits: seq<Fit>, i: int)
    requires 0 <= i < |fits|
  {
    LastOf(Trains(fits), i)
  }

  /** Entry i is the last one that selected its ideal function. */
  ghost predicate LastForIdeal(fits: seq<Fit>, i: int)
    requires 0 <= i < |fits|
  {
    forall j :: i < j < |fits| ==> fits[j].ideal != fits[i].ideal
  }

  /** The training columns the entries mention. */
  function TrainKeys(fits: seq<Fit>): set<string>
  {
    Elements(Trains(fits))
  }

  /** The ideal functions the entries select; entries without one add
      nothing. */

  function IdealKeys(fits: seq<Fit>): set<string>
  {
    set i | 0 <= i < |fits| && fits[i].ideal.Some? :: fits[i].ideal.value
  }

  /** The training column of every entry, in order. */
  function Trains(fits: seq<Fit>): seq<string>
  {
    seq(|fits|, i requires 0 <= i < |fits| => fits[i].train)
  }

  /** The ideal function of every entry, in order. */
  function Ideals(fits: seq<Fit>): seq<string>
    requires forall i :: 0 <= i < |fits| ==> fits[i].ideal.Some?
  {
    seq(|fits|, i requires 0 <= i < |fits| && fits[i].ideal.Some? => fits[i].ideal.value)
  }

  /** The ideal functions are the ideal keys, and an entry that is the last
      for its ideal function holds the last occurrence of that name. */
  lemma IdealsFacts(fits: seq<Fit>)
    requires forall i :: 0 <= i < |fits| ==> fits[i].ideal.Some?
    ensures Elements(Ideals(fits)) == IdealKeys(fits)
    ensures forall i :: 0 <= i < |fits| && LastForIdeal(fits, i) ==> LastOf(Ideals(fits), i)
  {
    var ideals := Ideals(fits);
    forall f | f in IdealKeys(fits) ensures f in Elements(ideals) {
      var i :| 0 <= i < |fits| && fits[i].ideal.Some? && fits[i].ideal.value == f;
      assert ideals[i] == f;
    }
    forall i | 0 <= i < |fits| && LastForIdeal(fits, i)
      ensures LastOf(ideals, i)
    {
      assert forall j :: i < j < |fits| ==> Some(ideals[j]) == fits[j].ideal;
    }
  }

  /** The largest deviation of every entry, in order. */
  function Deviations(fits: seq<Fit>, train: Table, ideal: Table): seq<real>
    requires forall i :: 0 <= i < |fits| ==> Paired(fits[i], train, ideal)
  {
    seq(|fits|, i requires 0 <= i < |fits| && Paired(fits[i], train, ideal) => PairDeviation(fits[i], train, ideal))
  }

  /** The selected_functions half of compute_max_deviation. */
  function RecordSelected(sel: map<string, string>, fits: seq<Fit>, train: Table, ideal: Table): (r: map<string, string>)
    requires forall i :: 0 <= i < |fits| ==> Paired(fits[i], train, ideal)
    ensures r.Keys == sel.Keys + TrainKeys(fits)
    ensures forall n :: n in sel && n !in TrainKeys(fits) ==> r[n] == sel[n]
    ensures forall i :: 0 <= i < |fits| && LastForTrain(fits, i) ==>
      fits[i].train in r && Some(r[fits[i].train]) == fits[i].ideal
  {
    assert forall i :: 0 <= i < |fits| ==> fits[i].ideal.Some? by {
      forall i | 0 <= i < |fits| ensures fits[i].ideal.Some? {
        assert Paired(fits[i], train, ideal);
      }
    }
    var trains := Trains(fits);
    var ideals := Ideals(fits);
    var r := Overwrite(sel, trains, ideals);
    assert forall i :: 0 <= i < |fits| ==> Some(ideals[i]) == fits[i].ideal;
    forall n | n in sel && n !in TrainKeys(fits)
      ensures r[n] == sel[n]
    {
      OverwriteUnwritten(sel, trains, ideals, n);
    }
    forall i | 0 <= i < |fits| && LastForTrain(fits, i)
      ensures fits[i].train in r && Some(r[fits[i].train]) == fits[i].ideal
    {
      assert trains[i] == fits[i].train;
      OverwriteLast(sel, trains, ideals, i);
    }
    r
  }

  /** The max_deviation half of compute_max_deviation. */
  function RecordDeviations(dev: map<string, real>, fits: seq<Fit>, train: Table, ideal: Table): (r: map<string, real>)
    requires forall i :: 0 <= i < |fits| ==> Paired(fits[i], train, ideal)
    ensures r.Keys == dev.Keys + IdealKeys(fits)
    ensures forall f :: f in dev && f !in IdealKeys(fits) ==> r[f] == dev[f]
    ensures forall i :: 0 <= i < |fits| && LastForIdeal(fits, i) ==>
      fits[i].ideal.Some? && r[fits[i].ideal.value] == PairDeviation(fits[i], train, ideal)
  {
    assert forall i :: 0 <= i < |fits| ==> fits[i].ideal.Some? by {
      forall i | 0 <= i < |fits| ensures fits[i].ideal.Some? {
        assert Paired(fits[i], train, ideal);
      }
    }
    var ideals := Ideals(fits);
    var devs := Deviations(fits, train, ideal);
    var r := Overwrite(dev, ideals, devs);
    IdealsFacts(fits);
    forall f | f in dev && f !in IdealKeys(fits)
      ensures r[f] == dev[f]
    {
      OverwriteUnwritten(dev, ideals, devs, f);
    }
    forall i | 0 <= i < |fits| && LastForIdeal(fits, i)
      ensures r[fits[i].ideal.value] == PairDeviation(fits[i], train, ideal)
    {
      OverwriteLast(dev, ideals, devs, i);
    }
    r
  }

  /** compute_max_deviation, applied to the mapper's state st: every entry,
      in order, records its ideal function under its training column and the
      largest deviation under its ideal function; a later entry overwrites an
      earlier one, and keys no entry mentions keep their values. */
  function ComputeMaxDeviation(st: MapperState, fits: seq<Fit>, train: Table, ideal: Table): (r: MapperState)
    requires forall i :: 0 <= i < |fits| ==> Paired(fits[i], train, ideal)
    ensures r.selected.Keys == st.selected.Keys + TrainKeys(fits)
    ensures r.maxDev.Keys == st.maxDev.Keys + IdealKeys(fits)
    ensures forall n :: n in st.selected && n !in TrainKeys(fits) ==> r.selected[n] == st.selected[n]
    ensures forall f :: f in st.maxDev && f !in IdealKeys(fits) ==> r.maxDev[f] == st.maxDev[f]
    ensures forall i :: 0 <= i < |fits| && LastForTrain(fits, i) ==>
      Some(r.selected[fits[i].train]) == fits[i].ideal
    ensures forall i :: 0 <= i < |fits| && LastForIdeal(fits, i) ==>
      Paired(fits[i], train, ideal) && r.maxDev[fits[i].ideal.value] == PairDeviation(fits[i], train, ideal)
  {
    MapperState(RecordSelected(st.selected, fits, train, ideal), RecordDeviations(st.maxDev, fits, train, ideal))
  }

  /** Every training column an entry mentions has a last entry. */
  lemma LastForTrainExists(fits: seq<Fit>, n: string) returns (i: nat)
    requires n in TrainKeys(fits)
    ensures i < |fits| && fits[i].train == n && LastForTrain(fits, i)
  {
    i := LastOfExists(Trains(fits), n);
  }

  /** Every ideal function an entry selects has a last entry selecting it. */
  lemma LastForIdealExists(fits: seq<Fit>, f: string) returns (i: nat)
    requires f in IdealKeys(fits)
    ensures i < |fits| && fits[i].ideal == Some(f) && LastForIdeal(fits, i)
  {
    var ideals := seq(|fits|, j requires 0 <= j < |fits| => fits[j].ideal);
    var m :| 0 <= m < |fits| && fits[m].ideal.Some? && fits[m].ideal.value == f;
    assert ideals[m] == Some(f);
    i := LastOfExists(ideals, Some(f));
    assert forall j :: i < j < |fits| ==> ideals[j] == fits[j].ideal;
  }

  /** Every ideal function in selected_functions has a max_deviation entry,
      so map_test_data's lookup of max_deviation cannot fail; a fresh mapper
      has this property and compute_max_deviation keeps it. */
  predicate Covered(st: MapperState)
  {
    st.selected.Values <= st.maxDev.Keys
  }

  lemma ComputeMaxDeviationCovered(st: MapperState, fits: seq<Fit>, train: Table, ideal: Table)
    requires forall i :: 0 <= i < |fits| ==> Paired(fits[i], train, ideal)
    requires Covered(st)
    ensures Covered(ComputeMaxDeviation(st, fits, train, ideal))
  {
    var r := ComputeMaxDeviation(st, fits, train, ideal);
    forall f | f in r.selected.Values
      ensures f in r.maxDev.Keys
    {
      var n :| n in r.selected && r.selected[n] == f;
      if n in TrainKeys(fits) {
        var i := LastForTrainExists(fits, n);
        assert fits[i].ideal.value in IdealKeys(fits);
      } else {
        assert st.selected[n] in st.selected.Values;
      }
    }
  }

  lemma RecordSelectedIdempotent(sel: map<string, string>, fits: seq<Fit>, train: Table, ideal: Table)
    requires forall i :: 0 <= i < |fits| ==> Paired(fits[i], train, ideal)
    ensures RecordSelected(RecordSelected(sel, fits, train, ideal), fits, train, ideal)
         == RecordSelected(sel, fits, train, ideal)
  {
    var once := RecordSelected(sel, fits, train, ideal);
    var twice := RecordSelected(once, fits, train, ideal);
    forall n | n in twice
      ensures twice[n] == once[n]
    {
      if n in TrainKeys(fits) {
        var i := LastForTrainExists(fits, n);
      }
    }
  }

  lemma RecordDeviationsIdempotent(dev: map<string, real>, fits: seq<Fit>, train: Table, ideal: Table)
    requires forall i :: 0 <= i < |fits| ==> Paired(fits[i], train, ideal)
    ensures RecordDeviations(RecordDeviations(dev, fits, train, ideal), fits, train, ideal)
         == RecordDeviations(dev, fits, train, ideal)
  {
    var once := RecordDeviations(dev, fits, train, ideal);
    var twice := RecordDeviations(once, fits, train, ideal);
    forall f | f in twice
      ensures twice[f] == once[f]
    {
      if f in IdealKeys(fits) {
        var i := LastForIdealExists(fits, f);
      }
    }
  }

  /** Running compute_max_deviation a second time on the same entries leaves
      the state as it was after the first run. */
  lemma ComputeMaxDeviationIdempotent(st: MapperState, fits: seq<Fit>, train: Table, ideal: Table)
    requires forall i :: 0 <= i < |fits| ==> Paired(fits[i], train, ideal)
    ensures ComputeMaxDeviation(ComputeMaxDeviation(st, fits, train, ideal), fits, train, ideal)
         == ComputeMaxDeviation(st, fits, train, ideal)
  {
    RecordSelectedIdempotent(st.selected, fits, train, ideal);
    RecordDeviationsIdempotent(st.maxDev, fits, train, ideal);
  }

  /** One row of the test table. */
  datatype Point = Point(x: real, y: real)

  /** One row of map_test_data's result: the point, the deviation from the
      ideal function it was assigned to (+infinity when none), and that
      function's name. */
  datatype Row = Row(x: real, yTest: real, deviation: ExtReal, func: Option<string>)

  /** The column of x values shared by all ideal functions. */
  const XColumn: string := "x"

  /** t is the first row whose x value is x: the row y_ideal[0] is read from. */
  ghost predicate IsFirstRow(xs: seq<real>, x: real, t: int)
  {
    0 <= t < |xs| && xs[t] == x && forall j :: 0 <= j < t ==> xs[j] != x
  }

  /** The first row of xs holding x, or None when no row does. */
  function FirstRow(xs: seq<real>, x: real): (r: Option<nat>)
    ensures r.None? <==> x !in xs
    ensures r.Some? ==> IsFirstRow(xs, x, r.value)
  {
    if |xs| == 0 then None
    else if xs[0] == x then Some(0)
    else
      var rest := FirstRow(xs[1..], x);
      assert xs == [xs[0]] + xs[1..];
      match rest
      case None => None
      case Some(t) =>
        assert forall j :: 1 <= j <= t + 1 ==> xs[j] == xs[1..][j - 1];
        Some(t + 1)
  }

  /** What map_test_data needs to look candidate f up without a KeyError:
      the ideal table has an x column and a column f of the same length, and
      f has a recorded largest deviation. */
  predicate Ready(ideal: Table, maxDev: map<string, real>, f: string)
  {
    && Lookup(ideal, XColumn).Some?
    && Lookup(ideal, f).Some?
    && |Lookup(ideal, f).value| == |Lookup(ideal, XColumn).value|
    && f in maxDev
  }

  /** The deviation candidate f offers test point p: None when the ideal
      table has no row at p.x (the `continue`) or when the deviation at the
      first such row fails the sqrt(2) tolerance test; the deviation otherwise. */
  function Offer(p: Point, f: string, ideal: Table, maxDev: map<string, real>): (r: Option<real>)
    requires Ready(ideal, maxDev, f)
    ensures r.Some? ==> exists t :: (IsFirstRow(Lookup(ideal, XColumn).value, p.x, t)
      && r.value == Abs(p.y - Lookup(ideal, f).value[t]) && WithinTolerance(r.value, maxDev[f]))
    ensures r.None? ==> forall t :: IsFirstRow(Lookup(ideal, XColumn).value, p.x, t) ==>
      !WithinTolerance(Abs(p.y - Lookup(ideal, f).value[t]), maxDev[f])
  {
    match FirstRow(Lookup(ideal, XColumn).value, p.x)
    case None => None
    case Some(t) =>
      var d := Abs(p.y - Lookup(ideal, f).value[t]);
      if WithinTolerance(d, maxDev[f]) then Some(d) else None
  }

  /** The offers of all candidates, in candidate order. */
  function Offers(p: Point, cands: seq<string>, ideal: Table, maxDev: map<string, real>): seq<Option<real>>
    requires forall f :: f in cands ==> Ready(ideal, maxDev, f)
  {
    seq(|cands|, i requires 0 <= i < |cands| => Offer(p, cands[i], ideal, maxDev))
  }

  /** The inner loop of map_test_data for one test point, with the
      candidates in the order the loop visits them: the point is assigned to
      a candidate with the smallest admissible deviation (the first such
      candidate in that order), or to nothing with deviation +infinity when
      no candidate admits it. */
  function AssignPoint(p: Point, cands: seq<string>, ideal: Table, maxDev: map<string, real>): (r: Row)
    requires forall f :: f in cands ==> Ready(ideal, maxDev, f)
    ensures r.x == p.x && r.yTest == p.y
    ensures r.func.None? <==> forall f :: f in cands ==> Offer(p, f, ideal, maxDev).None?
    ensures r.func.None? ==> r.deviation == Inf
    ensures r.func.Some? ==> (r.func.value in cands && Offer(p, r.func.value, ideal, maxDev).Some?
      && r.deviation == Finite(Offer(p, r.func.value, ideal, maxDev).value))
    ensures r.func.Some? ==> forall f :: f in cands && Offer(p, f, ideal, maxDev).Some? ==>
      Offer(p, r.func.value, ideal, maxDev).value <= Offer(p, f, ideal, maxDev).value
    ensures r.func.Some? ==> exists i :: (0 <= i < |cands| && cands[i] == r.func.value &&
      forall j :: 0 <= j < i && Offer(p, cands[j], ideal, maxDev).Some? ==>
        Offer(p, r.func.value, ideal, maxDev).value < Offer(p, cands[j], ideal, maxDev).value)
  {
    var offers := Offers(p, cands, ideal, maxDev);
    assert forall i :: 0 <= i < |cands| ==> offers[i] == Offer(p, cands[i], ideal, maxDev);
    match FirstMin(offers)
    case None => Row(p.x, p.y, Inf, None)
    case Some(i) => Row(p.x, p.y, Finite(offers[i].value), Some(cands[i]))
  }

  /** The candidates are a Python set, visited in an order the program does
      not control; the deviation a point is assigned, and whether it is
      assigned at all, are the same in every order. */
  lemma AssignPointOrderIndependent(p: Point, c1: seq<string>, c2: seq<string>, ideal: Table, maxDev: map<string, real>)
    requires forall f :: f in c1 <==> f in c2
    requires forall f :: f in c1 ==> Ready(ideal, maxDev, f)
    ensures AssignPoint(p, c1, ideal, maxDev).func.None? <==> AssignPoint(p, c2, ideal, maxDev).func.None?
    ensures AssignPoint(p, c1, ideal, maxDev).deviation == AssignPoint(p, c2, ideal, maxDev).deviation
  {
    var r1 := AssignPoint(p, c1, ideal, maxDev);
    var r2 := AssignPoint(p, c2, ideal, maxDev);
    if r1.func.Some? && r2.func.Some? {
      var d1 := Offer(p, r1.func.value, ideal, maxDev).value;
      var d2 := Offer(p, r2.func.value, ideal, maxDev).value;
      assert d1 <= d2 by {
        assert r2.func.value in c1;
      }
      assert d2 <= d1 by {
        assert r1.func.value in c2;
      }
    }
  }

  /** Of two candidates offering the same deviation, the one visited first
      is kept, because a later candidate replaces it only when strictly
      closer. */
  lemma AssignPointTieGoesToFirst(p: Point, f: string, g: string, ideal: Table, maxDev: map<string, real>)
    requires Ready(ideal, maxDev, f) && Ready(ideal, maxDev, g)
    requires Offer(p, f, ideal, maxDev).Some? && Offer(p, f, ideal, maxDev) == Offer(p, g, ideal, maxDev)
    ensures AssignPoint(p, [f, g], ideal, maxDev).func == Some(f)
  {
    var cands := [f, g];
    var r := AssignPoint(p, cands, ideal, maxDev);
    assert cands[0] == f && cands[1] == g;
    assert r.func.Some? by {
      assert f in cands;
    }
    var w := r.func.value;
    var i :| 0 <= i < 2 && cands[i] == w && forall j :: 0 <= j < i && Offer(p, cands[j], ideal, maxDev).Some? ==>
      Offer(p, w, ideal, maxDev).value < Offer(p, cands[j], ideal, maxDev).value;
  }

  /** Which function wins a tie therefore depends on the order the set is
      visited in: the two orders of the same two candidates give different
      answers. */
  lemma AssignPointTieDependsOnOrder(p: Point, f: string, g: string, ideal: Table, maxDev: map<string, real>)
    requires f != g && Ready(ideal, maxDev, f) && Ready(ideal, maxDev, g)
    requires Offer(p, f, ideal, maxDev).Some? && Offer(p, f, ideal, maxDev) == Offer(p, g, ideal, maxDev)
    ensures AssignPoint(p, [f, g], ideal, maxDev).func != AssignPoint(p, [g, f], ideal, maxDev).func
  {
    AssignPointTieGoesToFirst(p, f, g, ideal, maxDev);
    AssignPointTieGoesToFirst(p, g, f, ideal, maxDev);
  }

  /** A point lying exactly on a candidate's curve (at the first row with its
      x) is assigned, with deviation zero, whenever that candidate's recorded
      deviation is not negative. */
  lemma AssignPointExactHit(p: Point, cands: seq<string>, f: string, t: nat, ideal: Table, maxDev: map<string, real>)
    requires forall g :: g in cands ==> Ready(ideal, maxDev, g)
    requires f in cands && Ready(ideal, maxDev, f) && maxDev[f] >= 0.0
    requires IsFirstRow(Lookup(ideal, XColumn).value, p.x, t) && Lookup(ideal, f).value[t] == p.y
    ensures AssignPoint(p, cands, ideal, maxDev).func.Some?
    ensures AssignPoint(p, cands, ideal, maxDev).deviation == Finite(0.0)
  {
    var xs := Lookup(ideal, XColumn).value;
    assert FirstRow(xs, p.x) == Some(t) by {
      var u := FirstRow(xs, p.x).value;
      assert !(u < t) && !(t < u);
    }
    ZeroWithinTolerance(maxDev[f]);
    assert Offer(p, f, ideal, maxDev) == Some(0.0);
  }

  /** The inner loop of map_test_data as written: start from +infinity with
      no match, and for each candidate with a row at x_test replace the match
      when the deviation passes the tolerance test and is strictly smaller.
      It computes AssignPoint. */
  method MatchPoint(p: Point, cands: seq<string>, ideal: Table, maxDev: map<string, real>) returns (row: Row)
    requires forall f :: f in cands ==> Ready(ideal, maxDev, f)
    ensures row == AssignPoint(p, cands, ideal, maxDev)
  {
    ghost var offers := Offers(p, cands, ideal, maxDev);
    var bestMatch: Option<string> := None;
    var minDeviation: ExtReal := Inf;
    ghost var best: Option<nat> := None;
    var k := 0;
    while k < |cands|
      invariant 0 <= k <= |cands|
      invariant best == FirstMin(offers[..k])
      invariant best.None? ==> bestMatch.None? && minDeviation == Inf
      invariant best.Some? ==> bestMatch == Some(cands[best.value]) && minDeviation == Finite(offers[best.value].value)
    {
      assert offers[..k + 1][..k] == offers[..k];
      var offer := Offer(p, cands[k], ideal, maxDev);
      if offer.Some? && Lt(Finite(offer.value), minDeviation) {
        bestMatch := Some(cands[k]);
        minDeviation := Finite(offer.value);
        best := Some(k);
      }
      k := k + 1;
    }
    assert offers[..|cands|] == offers;
    row := Row(p.x, p.y, minDeviation, bestMatch);
  }

  /** The order the loop visits a Python set in: some duplicate-free listing
      of its elements, chosen here without constraint. */
  method SetOrder(s: set<string>) returns (r: seq<string>)
    ensures forall f :: f in r <==> f in s
    ensures forall i, j :: 0 <= i < j < |r| ==> r[i] != r[j]
  {
    r := [];
    var rest := s;
    while rest != {}
      invariant forall f :: f in s <==> f in r || f in rest
      invariant forall f :: f in r ==> f !in rest
      invariant forall i, j :: 0 <= i < j < |r| ==> r[i] != r[j]
      decreases |rest|
    {
      var f :| f in rest;
      r := r + [f];
      rest := rest - {f};
    }
  }

  /** map_test_data: one row per test point, in order, each assigned to a
      selected ideal function with the smallest admissible deviation, or to
      nothing with deviation +infinity when no selected function admits it.
      Among functions tied at that deviation the choice follows the set's
      visiting order, which this contract leaves open. */
  method MapTestData(test: seq<Point>, st: MapperState, ideal: Table) returns (rows: seq<Row>)
    requires forall f :: f in st.selected.Values ==> Ready(ideal, st.maxDev, f)
    ensures |rows| == |test|
    ensures forall i :: 0 <= i < |test| ==> rows[i].x == test[i].x && rows[i].yTest == test[i].y
    ensures forall i :: 0 <= i < |test| ==>
      (rows[i].func.None? <==> forall f :: f in st.selected.Values ==> Offer(test[i], f, ideal, st.maxDev).None?)
    ensures forall i :: 0 <= i < |test| && rows[i].func.None? ==> rows[i].deviation == Inf
    ensures forall i :: 0 <= i < |test| && rows[i].func.Some? ==>
      rows[i].func.value in st.selected.Values && Offer(test[i], rows[i].func.value, ideal, st.maxDev).Some? &&
      rows[i].deviation == Finite(Offer(test[i], rows[i].func.value, ideal, st.maxDev).value)
    ensures forall i, f :: (0 <= i < |test| && rows[i].func.Some? && f in st.selected.Values &&
      Offer(test[i], f, ideal, st.maxDev).Some?) ==>
      Le(rows[i].deviation, Finite(Offer(test[i], f, ideal, st.maxDev).value))
  {
    var cands := SetOrder(st.selected.Values);
    rows := [];
    var k := 0;
    while k < |test|
      invariant 0 <= k <= |test| && |rows| == k
      invariant forall i :: 0 <= i < k ==> rows[i] == AssignPoint(test[i], cands, ideal, st.maxDev)
    {
      var row := MatchPoint(test[k], cands, ideal, st.maxDev);
      rows := rows + [row];
      k := k + 1;
    }
  }

  /** Every column of the ideal table, the x column included, has one length,
      as in any table read from SQLite. */
  predicate Rectangular(ideal: Table)
  {
    && XColumn in Names(ideal)
    && forall c :: c in ideal.columns ==> |c.values| == |Lookup(ideal, XColumn).value|
  }

  /** The entry best_fits holds for a training curve, when it names an ideal
      function, pairs two columns of one non-zero length. */
  lemma BestFitPaired(train: Table, ideal: Table, i: nat)
    requires NonEmptyCurves(train) && i < |BestFits(train, ideal)|
    requires BestFits(train, ideal)[i].ideal.Some?
    ensures Paired(BestFits(train, ideal)[i], train, ideal)
  {
    var e := BestFits(train, ideal)[i];
    var name := GetColumns(Names(train), CurvePrefix)[i];
    var idealNames := GetColumns(Names(ideal), CurvePrefix);
    var y := TrainValues(train, name);
    var curves := IdealCurves(ideal);
    assert IsBestFit(e, name, y, idealNames, curves);
    GetColumnsMembers(Names(train), CurvePrefix, name);
    assert Lookup(train, name) == Some(y);
    var k :| 0 <= k < |curves| && idealNames[k] == e.ideal.value && |curves[k]| == |y|;
    GetColumnsMembers(Names(ideal), CurvePrefix, idealNames[k]);
    assert curves[k] == Lookup(ideal, idealNames[k]).value;
  }

  /** Each entry of find_best_fit that names an ideal function pairs two
      columns of one non-zero length. */
  lemma BestFitsPaired(train: Table, ideal: Table)
    requires NonEmptyCurves(train)
    ensures forall e :: e in FindBestFit(train, ideal) && e.ideal.Some? ==> Paired(e, train, ideal)
  {
    var all := BestFits(train, ideal);
    forall e | e in FindBestFit(train, ideal) && e.ideal.Some?
      ensures Paired(e, train, ideal)
    {
      var i :| 0 <= i < |all| && all[i] == e;
      BestFitPaired(train, ideal, i);
    }
  }

  /** When every entry of find_best_fit names an ideal function, all of them
      can be handed to compute_max_deviation. */
  lemma FindBestFitPaired(train: Table, ideal: Table)
    requires NonEmptyCurves(train)
    requires forall e :: e in FindBestFit(train, ideal) ==> e.ideal.Some?
    ensures forall i :: 0 <= i < |FindBestFit(train, ideal)| ==> Paired(FindBestFit(train, ideal)[i], train, ideal)
  {
    var fits := FindBestFit(train, ideal);
    BestFitsPaired(train, ideal);
    forall i | 0 <= i < |fits|
      ensures Paired(fits[i], train, ideal)
    {
      assert fits[i] in fits;
    }
  }

  /** The state compute_max_deviation leaves a fresh mapper in, when every
      entry of find_best_fit names an ideal function (an entry without one
      makes the source fail on ideal_data[None]). */
  function MaxDeviationOfTables(train: Table, ideal: Table): (st: MapperState)
    requires NonEmptyCurves(train)
    requires forall e :: e in FindBestFit(train, ideal) ==> e.ideal.Some?
    ensures Covered(st)
    ensures st.selected.Values <= IdealKeys(FindBestFit(train, ideal))
  {
    FindBestFitPaired(train, ideal);
    ComputeMaxDeviationCovered(Fresh, FindBestFit(train, ideal), train, ideal);
    ComputeMaxDeviation(Fresh, FindBestFit(train, ideal), train, ideal)
  }

  /** On a rectangular ideal table, every function map_test_data visits can be
      looked up: the state compute_max_deviation builds is ready for it. */
  lemma MaxDeviationOfTablesReady(train: Table, ideal: Table)
    requires NonEmptyCurves(train) && Rectangular(ideal)
    requires forall e :: e in FindBestFit(train, ideal) ==> e.ideal.Some?
    ensures forall f :: f in MaxDeviationOfTables(train, ideal).selected.Values ==>
      Ready(ideal, MaxDeviationOfTables(train, ideal).maxDev, f)
  {
    var fits := FindBestFit(train, ideal);
    var st := MaxDeviationOfTables(train, ideal);
    BestFitsPaired(train, ideal);
    forall f | f in st.selected.Values
      ensures Ready(ideal, st.maxDev, f)
    {
      var i :| 0 <= i < |fits| && fits[i].ideal.Some? && fits[i].ideal.value == f;
      assert fits[i] in fits;
      var j :| 0 <= j < |ideal.columns| && ideal.columns[j] == Column(f, Lookup(ideal, f).value);
      assert ideal.columns[j] in ideal.columns;
    }
  }

  /** The whole mapping run on loaded tables: find the best fits, record their
      largest deviations in a fresh mapper, and map the test points. Every
      function a point is assigned to is the ideal function of one of the best
      fits. */
  method MapTables(train: Table, ideal: Table, test: seq<Point>) returns (rows: seq<Row>)
    requires NonEmptyCurves(train) && Rectangular(ideal)
    requires forall e :: e in FindBestFit(train, ideal) ==> e.ideal.Some?
    ensures |rows| == |test|
    ensures forall i :: 0 <= i < |test| ==> rows[i].x == test[i].x && rows[i].yTest == test[i].y
    ensures forall i :: 0 <= i < |test| && rows[i].func.Some? ==>
      exists e :: e in FindBestFit(train, ideal) && e.ideal == rows[i].func
  {
    var st := MaxDeviationOfTables(train, ideal);
    MaxDeviationOfTablesReady(train, ideal);
    rows := MapTestData(test, st, ideal);
    ghost var fits := FindBestFit(train, ideal);
    forall i | 0 <= i < |test| && rows[i].func.Some?
      ensures exists e :: e in fits && e.ideal == rows[i].func
    {
      var f := rows[i].func.value;
      assert f in IdealKeys(fits);
      var k :| 0 <= k < |fits| && fits[k].ideal.Some? && fits[k].ideal.value == f;
      assert fits[k] in fits;
    }
  }
}
