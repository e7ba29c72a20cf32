/** A one-curve example: one training curve y1 = x on the grid 0, 1, 2 and
    two ideal curves, y1 = x and y2 = 2x. */
module LineScenario {
  import opened Options
  import opened Numeric
  import opened Tables
  import opened Selection
  import opened Mapper
  import opened SmallCases

  const LineTrain: Table := Table([Column("x", [0.0, 1.0, 2.0]), Column("y1", [0.0, 1.0, 2.0])])

  const LineIdeal: Table := Table([Column("x", [0.0, 1.0, 2.0]), Column("y1", [0.0, 1.0, 2.0]),
                                   Column("y2", [0.0, 2.0, 4.0])])

  lemma LineColumns()
    ensures Names(LineTrain) == ["x", "y1"]
    ensures Names(LineIdeal) == ["x", "y1", "y2"]
    ensures GetColumns(Names(LineTrain), CurvePrefix) == ["y1"]
    ensures GetColumns(Names(LineIdeal), CurvePrefix) == ["y1", "y2"]
  {
    assert "x"[..1][0] != "y"[0];
    GetColumnsOfTwo("x", "y1", CurvePrefix);
    GetColumnsOfThree("x", "y1", "y2", CurvePrefix);
  }

  lemma LineLookups()
    ensures Lookup(LineTrain, "y1") == Some([0.0, 1.0, 2.0])
    ensures Lookup(LineIdeal, "y1") == Some([0.0, 1.0, 2.0])
    ensures Lookup(LineIdeal, "y2") == Some([0.0, 2.0, 4.0])
  {
    assert LineTrain.columns[1..] == [Column("y1", [0.0, 1.0, 2.0])];
    assert LineIdeal.columns[1..][1..] == [Column("y2", [0.0, 2.0, 4.0])];
  }

  lemma LineNonEmpty()
    ensures NonEmptyCurves(LineTrain)
  {
    forall c | c in LineTrain.columns
      ensures |c.values| > 0
    {
    }
  }

  lemma LineCurves()
    ensures IdealCurves(LineIdeal) == [[0.0, 1.0, 2.0], [0.0, 2.0, 4.0]]
  {
    LineColumns();
    LineLookups();
    IdealCurvesOfTwo(LineIdeal, "y1", "y2", [0.0, 1.0, 2.0], [0.0, 2.0, 4.0]);
  }

  lemma LineSse()
    ensures Sse([0.0, 1.0, 2.0], [0.0, 1.0, 2.0]) == 0.0
    ensures Sse([0.0, 1.0, 2.0], [0.0, 2.0, 4.0]) == 5.0
    ensures RoundedMse(0.0, 3) == 0.0
  {
    SseSelf([0.0, 1.0, 2.0]);
    assert [0.0, 1.0, 2.0][1..] == [1.0, 2.0] && [1.0, 2.0][1..] == [2.0] && [2.0][1..] == [];
    assert [0.0, 2.0, 4.0][1..] == [2.0, 4.0] && [2.0, 4.0][1..] == [4.0] && [4.0][1..] == [];
    RoundOfGridValue(0);
  }

  lemma LineFitColumn()
    ensures FitColumn("y1", [0.0, 1.0, 2.0], ["y1", "y2"], [[0.0, 1.0, 2.0], [0.0, 2.0, 4.0]])
         == Fit("y1", Some("y1"), Finite(0.0))
  {
    LineSse();
    FitColumnOfTwo("y1", [0.0, 1.0, 2.0], ["y1", "y2"], [[0.0, 1.0, 2.0], [0.0, 2.0, 4.0]], 0);
  }

  lemma LineBestFits()
    ensures NonEmptyCurves(LineTrain)
    ensures BestFits(LineTrain, LineIdeal) == [Fit("y1", Some("y1"), Finite(0.0))]
  {
    LineColumns();
    LineNonEmpty();
    LineCurves();
    LineFitColumn();
    assert TrainValues(LineTrain, "y1") == [0.0, 1.0, 2.0] by {
      LineLookups();
    }
    OneCurveBestFits(LineTrain, LineIdeal, "y1", [0.0, 1.0, 2.0], ["y1", "y2"], [[0.0, 1.0, 2.0], [0.0, 2.0, 4.0]]);
  }

  /** The training curve y1 is matched to the ideal curve y1 with MSE 0. */
  lemma LineBestFit()
    ensures NonEmptyCurves(LineTrain)
    ensures FindBestFit(LineTrain, LineIdeal) == [Fit("y1", Some("y1"), Finite(0.0))]
  {
    LineColumns();
    LineBestFits();
    SingleCurveBestFit(LineTrain, LineIdeal, Fit("y1", Some("y1"), Finite(0.0)));
  }

  /** The training curve lies on the ideal curve, so the largest deviation
      recorded for y1 is 0. */
  lemma LineState()
    ensures NonEmptyCurves(LineTrain)
    ensures forall e :: e in FindBestFit(LineTrain, LineIdeal) ==> e.ideal.Some?
    ensures MaxDeviationOfTables(LineTrain, LineIdeal) == MapperState(map["y1" := "y1"], map["y1" := 0.0])
  {
    LineBestFit();
    LineLookups();
    var fit := Fit("y1", Some("y1"), Finite(0.0));
    assert Paired(fit, LineTrain, LineIdeal);
    SingleEntryState([fit], LineTrain, LineIdeal);
    var d := PairDeviation(fit, LineTrain, LineIdeal);
    var t :| 0 <= t < 3 && d == Abs([0.0, 1.0, 2.0][t] - [0.0, 1.0, 2.0][t]);
  }

  /** The point (1, 1) lies on y1 and is assigned to it with deviation 0. */
  lemma LinePointOnCurve()
    ensures Ready(LineIdeal, map["y1" := 0.0], "y1")
    ensures AssignPoint(Point(1.0, 1.0), ["y1"], LineIdeal, map["y1" := 0.0]) == Row(1.0, 1.0, Finite(0.0), Some("y1"))
  {
    LineLookups();
    assert Lookup(LineIdeal, XColumn) == Some([0.0, 1.0, 2.0]);
    assert IsFirstRow([0.0, 1.0, 2.0], 1.0, 1);
    AssignPointExactHit(Point(1.0, 1.0), ["y1"], "y1", 1, LineIdeal, map["y1" := 0.0]);
  }

  /** The point (1, 5) is 4 away from y1, more than sqrt(2) * 0, and is left
      unassigned with deviation +infinity. */
  lemma LinePointOffCurve()
    ensures Ready(LineIdeal, map["y1" := 0.0], "y1")
    ensures AssignPoint(Point(1.0, 5.0), ["y1"], LineIdeal, map["y1" := 0.0]) == Row(1.0, 5.0, Inf, None)
  {
    LineLookups();
    assert Lookup(LineIdeal, XColumn) == Some([0.0, 1.0, 2.0]);
    assert IsFirstRow([0.0, 1.0, 2.0], 1.0, 1);
    assert !WithinTolerance(4.0, 0.0);
    assert Offer(Point(1.0, 5.0), "y1", LineIdeal, map["y1" := 0.0]).None?;
  }
}
