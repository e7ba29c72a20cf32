/** The tables of the repository's unit tests: training curves y1 and y2
    on the grid 1, 2, 3, ideal curves y1 and y2, and three test points. */
module UnitScenario {
  import opened Options
  import opened Numeric
  import opened Tables
  import opened Selection
  import opened Mapper
  import opened SmallCases

  const UnitTrain: Table := Table([Column("x", [1.0, 2.0, 3.0]), Column("y1", [1.1, 2.1, 3.1]),
                                   Column("y2", [1.2, 2.2, 3.2])])

  const UnitIdeal: Table := Table([Column("x", [1.0, 2.0, 3.0]), Column("y1", [1.0, 2.0, 3.0]),
                                   Column("y2", [1.1, 2.1, 3.1])])

  const UnitTest: seq<Point> := [Point(1.0, 1.05), Point(2.0, 2.05), Point(3.0, 3.05)]

  /** get_columns picks y1 and y2, in that order, out of x, y1, y2. */
  lemma UnitColumns()
    ensures GetColumns(Names(UnitTrain), CurvePrefix) == ["y1", "y2"]
    ensures GetColumns(Names(UnitIdeal), CurvePrefix) == ["y1", "y2"]
  {
    assert Names(UnitTrain) == ["x", "y1", "y2"] && Names(UnitIdeal) == ["x", "y1", "y2"];
    assert "x"[..1][0] != "y"[0];
    GetColumnsOfThree("x", "y1", "y2", CurvePrefix);
  }

  lemma UnitLookups()
    ensures Lookup(UnitTrain, "y1") == Some([1.1, 2.1, 3.1])
    ensures Lookup(UnitTrain, "y2") == Some([1.2, 2.2, 3.2])
    ensures Lookup(UnitIdeal, "x") == Some([1.0, 2.0, 3.0])
    ensures Lookup(UnitIdeal, "y1") == Some([1.0, 2.0, 3.0])
    ensures Lookup(UnitIdeal, "y2") == Some([1.1, 2.1, 3.1])
  {
    assert UnitTrain.columns[1..][1..] == [Column("y2", [1.2, 2.2, 3.2])];
    assert UnitIdeal.columns[1..][1..] == [Column("y2", [1.1, 2.1, 3.1])];
  }

  lemma UnitNonEmpty()
    ensures NonEmptyCurves(UnitTrain)
  {
    forall c | c in UnitTrain.columns
      ensures |c.values| > 0
    {
    }
  }

  /** find_best_fit keeps both training curves, as the unit test expects. */
  lemma UnitBestFitCount()
    ensures NonEmptyCurves(UnitTrain)
    ensures |FindBestFit(UnitTrain, UnitIdeal)| == 2
  {
    UnitNonEmpty();
    UnitColumns();
  }

  lemma UnitSse()
    ensures Sse([1.1, 2.1, 3.1], [1.0, 2.0, 3.0]) == 0.03
    ensures Sse([1.1, 2.1, 3.1], [1.1, 2.1, 3.1]) == 0.0
    ensures Sse([1.2, 2.2, 3.2], [1.0, 2.0, 3.0]) == 0.12
    ensures Sse([1.2, 2.2, 3.2], [1.1, 2.1, 3.1]) == 0.03
    ensures RoundedMse(0.0, 3) == 0.0
    ensures RoundedMse(0.03, 3) == 0.01
  {
    SseSelf([1.1, 2.1, 3.1]);
    assert [1.1, 2.1, 3.1][1..] == [2.1, 3.1] && [2.1, 3.1][1..] == [3.1] && [3.1][1..] == [];
    assert [1.2, 2.2, 3.2][1..] == [2.2, 3.2] && [2.2, 3.2][1..] == [3.2] && [3.2][1..] == [];
    assert [1.0, 2.0, 3.0][1..] == [2.0, 3.0] && [2.0, 3.0][1..] == [3.0] && [3.0][1..] == [];
    RoundOfGridValue(0);
    RoundOfGridValue(100);
  }

  /** Both training curves are closest to the ideal curve y2: y1 lies on it,
      y2 is 0.1 above it everywhere. */
  lemma UnitFitColumns()
    ensures FitColumn("y1", [1.1, 2.1, 3.1], ["y1", "y2"], [[1.0, 2.0, 3.0], [1.1, 2.1, 3.1]])
         == Fit("y1", Some("y2"), Finite(0.0))
    ensures FitColumn("y2", [1.2, 2.2, 3.2], ["y1", "y2"], [[1.0, 2.0, 3.0], [1.1, 2.1, 3.1]])
         == Fit("y2", Some("y2"), Finite(0.01))
  {
    UnitSse();
    var curves := [[1.0, 2.0, 3.0], [1.1, 2.1, 3.1]];
    FitColumnOfTwo("y1", [1.1, 2.1, 3.1], ["y1", "y2"], curves, 1);
    FitColumnOfTwo("y2", [1.2, 2.2, 3.2], ["y1", "y2"], curves, 1);
  }

  lemma UnitCurves()
    ensures IdealCurves(UnitIdeal) == [[1.0, 2.0, 3.0], [1.1, 2.1, 3.1]]
  {
    UnitColumns();
    UnitLookups();
    IdealCurvesOfTwo(UnitIdeal, "y1", "y2", [1.0, 2.0, 3.0], [1.1, 2.1, 3.1]);
  }

  lemma UnitTrainValues()
    ensures NonEmptyCurves(UnitTrain)
    ensures GetColumns(Names(UnitTrain), CurvePrefix) == ["y1", "y2"]
    ensures TrainValues(UnitTrain, "y1") == [1.1, 2.1, 3.1]
    ensures TrainValues(UnitTrain, "y2") == [1.2, 2.2, 3.2]
  {
    UnitColumns();
    UnitNonEmpty();
    UnitLookups();
  }

  lemma UnitBestFits()
    ensures NonEmptyCurves(UnitTrain)
    ensures BestFits(UnitTrain, UnitIdeal) == [Fit("y1", Some("y2"), Finite(0.0)), Fit("y2", Some("y2"), Finite(0.01))]
  {
    UnitColumns();
    UnitTrainValues();
    UnitCurves();
    UnitFitColumns();
    TwoCurveBestFits(UnitTrain, UnitIdeal, "y1", "y2", [1.1, 2.1, 3.1], [1.2, 2.2, 3.2],
                     ["y1", "y2"], [[1.0, 2.0, 3.0], [1.1, 2.1, 3.1]]);
  }

  /** find_best_fit on the unit-test tables: y1 -> y2 with MSE 0, then
      y2 -> y2 with MSE 0.01. */
  lemma UnitBestFit()
    ensures NonEmptyCurves(UnitTrain)
    ensures FindBestFit(UnitTrain, UnitIdeal) == UnitFits
  {
    UnitColumns();
    UnitBestFits();
    TwoCurvesBestFit(UnitTrain, UnitIdeal, Fit("y1", Some("y2"), Finite(0.0)), Fit("y2", Some("y2"), Finite(0.01)));
  }

  /** find_best_fit's result on the unit-test tables (UnitBestFit). */
  const UnitFits: seq<Fit> := [Fit("y1", Some("y2"), Finite(0.0)), Fit("y2", Some("y2"), Finite(0.01))]

  /** Both entries pair columns of length 3. */
  lemma UnitPaired()
    ensures forall i :: 0 <= i < |UnitFits| ==> Paired(UnitFits[i], UnitTrain, UnitIdeal)
  {
    forall i | 0 <= i < |UnitFits|
      ensures Paired(UnitFits[i], UnitTrain, UnitIdeal)
    {
      UnitLookups();
      var e := UnitFits[i];
      assert e.train == ["y1", "y2"][i] && e.ideal == Some("y2");
      assert |Lookup(UnitTrain, e.train).value| == 3;
    }
  }

  /** The training curve y2 lies 0.1 above the ideal curve y2 everywhere. */
  lemma UnitPairDeviation()
    ensures Paired(UnitFits[1], UnitTrain, UnitIdeal)
    ensures PairDeviation(UnitFits[1], UnitTrain, UnitIdeal) == 0.1
  {
    UnitPaired();
    UnitLookups();
    var d := PairDeviation(UnitFits[1], UnitTrain, UnitIdeal);
    var t :| 0 <= t < 3 && d == Abs([1.2, 2.2, 3.2][t] - [1.1, 2.1, 3.1][t]);
  }

  /** compute_max_deviation on find_best_fit's result: both training curves
      select y2, and max_deviation holds the one entry y2 -> 0.1 (the 0 the
      first entry wrote was overwritten). */
  lemma UnitState()
    ensures forall i :: 0 <= i < |UnitFits| ==> Paired(UnitFits[i], UnitTrain, UnitIdeal)
    ensures ComputeMaxDeviation(Fresh, UnitFits, UnitTrain, UnitIdeal) == UnitMapperState
  {
    UnitPaired();
    UnitPairDeviation();
    SharedIdealState(UnitFits, UnitTrain, UnitIdeal);
  }

  /** The state UnitState computes: both training curves select y2. */
  const UnitMapperState := MapperState(map["y1" := "y2", "y2" := "y2"], map["y2" := 0.1])

  lemma UnitIdealLookups()
    ensures Lookup(UnitIdeal, XColumn) == Some([1.0, 2.0, 3.0])
    ensures Lookup(UnitIdeal, "y2") == Some([1.1, 2.1, 3.1])
  {
    UnitLookups();
  }

  /** The test point i is 0.05 below y2 at the row of its x, within
      sqrt(2) * 0.1. */
  lemma UnitOffer(i: nat)
    requires i < |UnitTest|
    ensures Ready(UnitIdeal, UnitMapperState.maxDev, "y2")
    ensures Offer(UnitTest[i], "y2", UnitIdeal, UnitMapperState.maxDev) == Some(0.05)
  {
    UnitIdealLookups();
    var xs := [1.0, 2.0, 3.0];
    assert IsFirstRow(xs, UnitTest[i].x, i);
    assert Abs(UnitTest[i].y - [1.1, 2.1, 3.1][i]) == 0.05;
    assert WithinTolerance(0.05, 0.1);
    OfferAtFirstRow(UnitTest[i], "y2", UnitIdeal, UnitMapperState.maxDev, i);
  }

  /** Each unit-test point is 0.05 below y2, within sqrt(2) * 0.1. */
  lemma UnitOffers()
    ensures UnitMapperState.selected.Values == {"y2"}
    ensures Ready(UnitIdeal, UnitMapperState.maxDev, "y2")
    ensures forall i :: 0 <= i < |UnitTest| ==> Offer(UnitTest[i], "y2", UnitIdeal, UnitMapperState.maxDev) == Some(0.05)
  {
    assert UnitMapperState.selected["y1"] == "y2";
    UnitOffer(0);
    forall i | 0 <= i < |UnitTest|
      ensures Offer(UnitTest[i], "y2", UnitIdeal, UnitMapperState.maxDev) == Some(0.05)
    {
      UnitOffer(i);
    }
  }

  /** map_test_data on the unit-test tables, from the state UnitState
      computes: one row per test point, in order, each assigned to y2 with
      deviation 0.05. */
  method UnitMapping() returns (rows: seq<Row>)
    ensures |rows| == |UnitTest|
    ensures forall i :: 0 <= i < |UnitTest| ==> rows[i] == Row(UnitTest[i].x, UnitTest[i].y, Finite(0.05), Some("y2"))
  {
    UnitOffers();
    rows := MapTestData(UnitTest, UnitMapperState, UnitIdeal);
    OneCandidateRows(UnitTest, rows, UnitMapperState, UnitIdeal, "y2", 0.05);
  }
}
