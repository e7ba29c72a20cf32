/** Facts about the pipeline on one or two curves, used by the worked
    examples: which entries find_best_fit keeps and in what order, and what
    compute_max_deviation records for them. */
module SmallCases {
  import opened Options
  import opened Numeric
  import opened Tables
  import opened Selection
  import opened Mapper
  import opened Dicts

  /** get_columns on two names, of which only the second has the prefix. */
  lemma GetColumnsOfTwo(a: string, b: string, prefix: string)
    requires !StartsWith(a, prefix) && StartsWith(b, prefix)
    ensures GetColumns([a, b], prefix) == [b]
  {
    assert [a, b][1..] == [b] && [b][1..] == [];
  }

  /** get_columns on three names, of which the last two have the prefix. */
  lemma GetColumnsOfThree(a: string, b: string, c: string, prefix: string)
    requires !StartsWith(a, prefix) && StartsWith(b, prefix) && StartsWith(c, prefix)
    ensures GetColumns([a, b, c], prefix) == [b, c]
  {
    assert GetColumns([c], prefix) == [c] by {
      assert [c][1..] == [];
    }
    assert GetColumns([b, c], prefix) == [b, c] by {
      assert [b, c][1..] == [c];
    }
    assert [a, b, c][1..] == [b, c];
  }

  /** The values of an ideal table with two curves, in column order. */
  lemma IdealCurvesOfTwo(ideal: Table, a: string, b: string, ya: seq<real>, yb: seq<real>)
    requires GetColumns(Names(ideal), CurvePrefix) == [a, b]
    requires Lookup(ideal, a) == Some(ya) && Lookup(ideal, b) == Some(yb)
    ensures IdealCurves(ideal) == [ya, yb]
  {
    var r := IdealCurves(ideal);
    assert Lookup(ideal, [a, b][0]) == Some(r[0]) && Lookup(ideal, [a, b][1]) == Some(r[1]);
  }

  /** With a single training curve, find_best_fit returns its one entry. */
  lemma SingleCurveBestFit(train: Table, ideal: Table, e: Fit)
    requires NonEmptyCurves(train) && |GetColumns(Names(train), CurvePrefix)| == 1
    requires BestFits(train, ideal) == [e]
    ensures FindBestFit(train, ideal) == [e]
  {
    FindBestFitKeepsAll(train, ideal);
    var r := FindBestFit(train, ideal);
    assert |r| == 1;
    assert r[0] in multiset(r);
  }

  /** A single entry leaves a fresh mapper with one selection and one
      recorded deviation. */
  lemma SingleEntryState(fits: seq<Fit>, train: Table, ideal: Table)
    requires |fits| == 1 && Paired(fits[0], train, ideal)
    ensures ComputeMaxDeviation(Fresh, fits, train, ideal)
         == MapperState(map[fits[0].train := fits[0].ideal.value],
                        map[fits[0].ideal.value := PairDeviation(fits[0], train, ideal)])
  {
    var r := ComputeMaxDeviation(Fresh, fits, train, ideal);
    assert TrainKeys(fits) == {fits[0].train};
    assert IdealKeys(fits) == {fits[0].ideal.value};
    assert LastForTrain(fits, 0) && LastForIdeal(fits, 0);
  }

  /** The inner loop of find_best_fit over two ideal curves of the training
      curve's length picks the second only when its SSE is strictly smaller. */
  lemma FitColumnOfTwo(name: string, y: seq<real>, idealNames: seq<string>, curves: seq<seq<real>>, i: nat)
    requires |y| > 0 && |idealNames| == |curves| == 2 && |curves[0]| == |curves[1]| == |y| && i < 2
    requires i == 0 ==> Sse(y, curves[0]) <= Sse(y, curves[1])
    requires i == 1 ==> Sse(y, curves[1]) < Sse(y, curves[0])
    ensures FitColumn(name, y, idealNames, curves) == Fit(name, Some(idealNames[i]), Finite(RoundedMse(Sse(y, curves[i]), |y|)))
  {
    var costs := SseCosts(y, curves);
    assert costs[0] == Some(Sse(y, curves[0])) && costs[1] == Some(Sse(y, curves[1]));
  }

  /** best_fits for one training curve: the one inner loop. */
  lemma OneCurveBestFits(train: Table, ideal: Table, n: string, y: seq<real>, idealNames: seq<string>,
                         curves: seq<seq<real>>)
    requires NonEmptyCurves(train) && GetColumns(Names(train), CurvePrefix) == [n]
    requires TrainValues(train, n) == y
    requires GetColumns(Names(ideal), CurvePrefix) == idealNames && IdealCurves(ideal) == curves
    ensures |y| > 0 && |idealNames| == |curves|
    ensures BestFits(train, ideal) == [FitColumn(n, y, idealNames, curves)]
  {
  }

  /** best_fits for two training curves: one inner loop per curve, in
      column order. */
  lemma TwoCurveBestFits(train: Table, ideal: Table, n1: string, n2: string, y1: seq<real>, y2: seq<real>,
                         idealNames: seq<string>, curves: seq<seq<real>>)
    requires NonEmptyCurves(train) && GetColumns(Names(train), CurvePrefix) == [n1, n2]
    requires TrainValues(train, n1) == y1 && TrainValues(train, n2) == y2
    requires GetColumns(Names(ideal), CurvePrefix) == idealNames && IdealCurves(ideal) == curves
    ensures |y1| > 0 && |y2| > 0 && |idealNames| == |curves|
    ensures BestFits(train, ideal) == [FitColumn(n1, y1, idealNames, curves), FitColumn(n2, y2, idealNames, curves)]
  {
  }

  /** A sorted arrangement of two entries with different errors puts the
      smaller error first. */
  lemma SortedPair(r: seq<Fit>, a: Fit, b: Fit)
    requires multiset(r) == multiset([a, b]) && SortedByMse(r) && Lt(a.mse, b.mse)
    ensures r == [a, b]
  {
    assert |r| == |multiset(r)| == 2;
    assert r[0] in multiset(r) && r[1] in multiset(r);
    assert r[0] == a;
    assert multiset(r) == multiset{a, r[1]};
  }

  /** With two training curves of different errors, find_best_fit lists the
      smaller error first. */
  lemma TwoCurvesBestFit(train: Table, ideal: Table, a: Fit, b: Fit)
    requires NonEmptyCurves(train) && |GetColumns(Names(train), CurvePrefix)| == 2
    requires BestFits(train, ideal) == [a, b] && Lt(a.mse, b.mse)
    ensures FindBestFit(train, ideal) == [a, b]
  {
    FindBestFitKeepsAll(train, ideal);
    SortedPair(FindBestFit(train, ideal), a, b);
  }

  /** Two writes into a dictionary are two map updates, the second applied
      last. */
  lemma OverwriteTwo<K, V>(d: map<K, V>, keys: seq<K>, vals: seq<V>)
    requires |keys| == |vals| == 2
    ensures Overwrite(d, keys, vals) == d[keys[0] := vals[0]][keys[1] := vals[1]]
  {
    assert keys[..1] == [keys[0]] && vals[..1] == [vals[0]];
    assert keys[..1][..0] == [] && vals[..1][..0] == [];
    assert Overwrite(d, keys[..1], vals[..1]) == d[keys[0] := vals[0]];
  }

  /** Two entries, recorded in order into an empty mapper: the second write
      wins wherever both entries name the same key. */
  lemma TwoEntriesState(fits: seq<Fit>, train: Table, ideal: Table)
    requires |fits| == 2 && forall i :: 0 <= i < |fits| ==> Paired(fits[i], train, ideal)
    ensures ComputeMaxDeviation(Fresh, fits, train, ideal)
         == MapperState(map[fits[0].train := fits[0].ideal.value, fits[1].train := fits[1].ideal.value],
                        map[fits[0].ideal.value := PairDeviation(fits[0], train, ideal),
                            fits[1].ideal.value := PairDeviation(fits[1], train, ideal)])
  {
    var ideals := Ideals(fits);
    OverwriteTwo(map[], Trains(fits), ideals);
    OverwriteTwo(map[], ideals, Deviations(fits, train, ideal));
  }

  /** The offer of a candidate is read at the first row holding the point's x. */
  lemma OfferAtFirstRow(p: Point, f: string, ideal: Table, maxDev: map<string, real>, t: nat)
    requires Ready(ideal, maxDev, f) && IsFirstRow(Lookup(ideal, XColumn).value, p.x, t)
    ensures WithinTolerance(Abs(p.y - Lookup(ideal, f).value[t]), maxDev[f]) ==>
      Offer(p, f, ideal, maxDev) == Some(Abs(p.y - Lookup(ideal, f).value[t]))
  {
    var xs := Lookup(ideal, XColumn).value;
    var u := FirstRow(xs, p.x).value;
    assert !(u < t) && !(t < u);
  }

  /** Two entries that chose the same ideal function: the deviation recorded
      for it is the second entry's. */
  lemma SharedIdealState(fits: seq<Fit>, train: Table, ideal: Table)
    requires |fits| == 2 && forall i :: 0 <= i < |fits| ==> Paired(fits[i], train, ideal)
    requires fits[0].ideal == fits[1].ideal
    ensures ComputeMaxDeviation(Fresh, fits, train, ideal)
         == MapperState(map[fits[0].train := fits[1].ideal.value, fits[1].train := fits[1].ideal.value],
                        map[fits[1].ideal.value := PairDeviation(fits[1], train, ideal)])
  {
    TwoEntriesState(fits, train, ideal);
    UpdateTwice(map[], fits[1].ideal.value, PairDeviation(fits[0], train, ideal), PairDeviation(fits[1], train, ideal));
  }

  lemma UpdateTwice<K, V>(m: map<K, V>, k: K, v0: V, v1: V)
    ensures m[k := v0][k := v1] == m[k := v1]
  {
  }

  /** Rows meeting map_test_data's contract, when the selected ideal
      functions are the single f and f offers the deviation d for every test
      point, assign every point to f with deviation d. */
  lemma OneCandidateRows(test: seq<Point>, rows: seq<Row>, st: MapperState, ideal: Table, f: string, d: real)
    requires st.selected.Values == {f} && Ready(ideal, st.maxDev, f) && |rows| == |test|
    requires forall i :: 0 <= i < |test| ==> Offer(test[i], f, ideal, st.maxDev) == Some(d)
    requires forall i :: 0 <= i < |test| ==> rows[i].x == test[i].x && rows[i].yTest == test[i].y
    requires forall i :: 0 <= i < |test| ==>
      (rows[i].func.None? <==> forall g :: g in st.selected.Values ==> Offer(test[i], g, ideal, st.maxDev).None?)
    requires forall i :: 0 <= i < |test| && rows[i].func.Some? ==>
      rows[i].func.value in st.selected.Values && Offer(test[i], rows[i].func.value, ideal, st.maxDev).Some? &&
      rows[i].deviation == Finite(Offer(test[i], rows[i].func.value, ideal, st.maxDev).value)
    ensures forall i :: 0 <= i < |test| ==> rows[i] == Row(test[i].x, test[i].y, Finite(d), Some(f))
  {
    forall i | 0 <= i < |test|
      ensures rows[i] == Row(test[i].x, test[i].y, Finite(d), Some(f))
    {
      assert f in st.selected.Values;
      assert rows[i].func.Some?;
      assert rows[i].func.value == f;
      assert rows[i].deviation == Finite(d);
    }
  }
}
