/** find_best_fit: for every training curve, the ideal curve of equal length
    with the smallest sum of squared errors (the first one on ties), recorded
    with its rounded mean squared error; then the four entries with the
    smallest errors, ranked by a stable sort. */
module Selection {
  import opened Options
  import opened Numeric
  import opened Tables
  import opened ArgMin

  /** One entry of the best-fit mapping: training column -> (ideal column or
      None, rounded MSE or +infinity). */
  datatype Fit = Fit(train: string, ideal: Option<string>, mse: ExtReal)

  /** Curves are the columns whose name starts with this prefix. */
  const CurvePrefix: string := "y"

  /** How many entries the ranking keeps. */
  const TopCount: nat := 4

  function Min(a: int, b: int): int
  {
    if a <= b then a else b
  }

  /** The values of the named columns, in the order of the names. */
  function Curves(t: Table, names: seq<string>): seq<seq<real>>
    requires forall n :: n in names ==> n in Names(t)
  {
    seq(|names|, j requires 0 <= j < |names| => Lookup(t, names[j]).value)
  }

  /** The cost of each ideal curve for training values y: its SSE when the
      lengths agree, absent when the comparison is skipped. */
  function SseCosts(y: seq<real>, curves: seq<seq<real>>): seq<Option<real>>
  {
    seq(|curves|, j requires 0 <= j < |curves| =>
      if |curves[j]| == |y| then Some(Sse(y, curves[j])) else None)
  }

  /** round(sse / n, 4) */
  function RoundedMse(sse: real, n: nat): real
    requires n > 0
  {
    Round4(sse / n as real)
  }

  /** What an entry for the training column `name` with values y must be:
      None with +infinity exactly when no ideal curve has y's length;
      otherwise an ideal curve of that length whose SSE is no larger than
      that of any other such curve and strictly smaller than that of every
      such curve before it, recorded with its rounded MSE. */
  ghost predicate IsBestFit(e: Fit, name: string, y: seq<real>, idealNames: seq<string>, curves: seq<seq<real>>)
    requires |y| > 0 && |idealNames| == |curves|
  {
    && e.train == name
    && (e.ideal.None? <==> forall j :: 0 <= j < |curves| ==> |curves[j]| != |y|)
    && (e.ideal.None? ==> e.mse == Inf)
    && (e.ideal.Some? ==>
          exists i :: 0 <= i < |curves| && idealNames[i] == e.ideal.value && |curves[i]| == |y|
            && (forall j :: 0 <= j < |curves| && |curves[j]| == |y| ==> Sse(y, curves[i]) <= Sse(y, curves[j]))
            && (forall j :: 0 <= j < i && |curves[j]| == |y| ==> Sse(y, curves[i]) < Sse(y, curves[j]))
            && e.mse == Finite(RoundedMse(Sse(y, curves[i]), |y|)))
  }

  /** The inner loop of find_best_fit for one training column. */
  function FitColumn(name: string, y: seq<real>, idealNames: seq<string>, curves: seq<seq<real>>): (e: Fit)
    requires |y| > 0 && |idealNames| == |curves|
    ensures IsBestFit(e, name, y, idealNames, curves)
  {
    var costs := SseCosts(y, curves);
    assert |costs| == |curves|;
    assert forall j :: 0 <= j < |curves| ==> costs[j] == if |curves[j]| == |y| then Some(Sse(y, curves[j])) else None;
    match FirstMin(costs)
    case None => Fit(name, None, Inf)
    case Some(i) =>
      var e := Fit(name, Some(idealNames[i]), Finite(RoundedMse(Sse(y, curves[i]), |y|)));
      assert forall j :: 0 <= j < |curves| && |curves[j]| == |y| ==> costs[j].Some?;
      e
  }

  /** Training curves must be non-empty: an empty one divides by zero. */
  predicate NonEmptyCurves(t: Table)
  {
    forall c :: c in t.columns && StartsWith(c.name, CurvePrefix) ==> |c.values| > 0
  }

  /** The values of a training column that get_columns selected. */
  function TrainValues(train: Table, name: string): (y: seq<real>)
    requires NonEmptyCurves(train)
    requires name in GetColumns(Names(train), CurvePrefix)
    ensures |y| > 0
  {
    GetColumnsMembers(Names(train), CurvePrefix, name);
    Lookup(train, name).value
  }

  /** best_fits before ranking: one entry per training curve, in column order. */
  function BestFits(train: Table, ideal: Table): (r: seq<Fit>)
    requires NonEmptyCurves(train)
    ensures |r| == |GetColumns(Names(train), CurvePrefix)|
    ensures forall i :: 0 <= i < |r| ==>
      var name := GetColumns(Names(train), CurvePrefix)[i];
      var idealNames := GetColumns(Names(ideal), CurvePrefix);
      IsBestFit(r[i], name, TrainValues(train, name), idealNames, IdealCurves(ideal))
  {
    var trainNames := GetColumns(Names(train), CurvePrefix);
    var idealNames := GetColumns(Names(ideal), CurvePrefix);
    seq(|trainNames|, i requires 0 <= i < |trainNames| =>
      FitColumn(trainNames[i], TrainValues(train, trainNames[i]), idealNames, IdealCurves(ideal)))
  }

  /** The values of the ideal table's curves, in column order. */
  function IdealCurves(ideal: Table): seq<seq<real>>
  {
    var idealNames := GetColumns(Names(ideal), CurvePrefix);
    assert forall n :: n in idealNames ==> n in Names(ideal) by {
      forall n | n in idealNames {
        GetColumnsMembers(Names(ideal), CurvePrefix, n);
      }
    }
    Curves(ideal, idealNames)
  }

  /** Ascending by MSE, +infinity last. */
  predicate SortedByMse(s: seq<Fit>)
  {
    forall i, j :: 0 <= i < j < |s| ==> Le(s[i].mse, s[j].mse)
  }

  /** The entries of s whose MSE is k, in the order of s. A sort is stable
      exactly when it leaves this subsequence unchanged for every k. */
  function WithMse(s: seq<Fit>, k: ExtReal): (r: seq<Fit>)
  {
    if |s| == 0 then [] else (if s[0].mse == k then [s[0]] else []) + WithMse(s[1..], k)
  }

  lemma WithMseCons(x: Fit, s: seq<Fit>, k: ExtReal)
    ensures WithMse([x] + s, k) == (if x.mse == k then [x] else []) + WithMse(s, k)
  {
    assert ([x] + s)[0] == x && ([x] + s)[1..] == s;
  }

  /** Puts e before the first entry whose MSE is not smaller than its own,
      so that e comes ahead of the entries it ties with. */
  function Insert(e: Fit, s: seq<Fit>): (r: seq<Fit>)
    ensures multiset(r) == multiset(s) + multiset{e}
  {
    if |s| == 0 then [e]
    else if Lt(s[0].mse, e.mse) then
      assert s == [s[0]] + s[1..];
      [s[0]] + Insert(e, s[1..])
    else [e] + s
  }

  lemma {:induction false} InsertSorted(e: Fit, s: seq<Fit>)
    requires SortedByMse(s)
    ensures SortedByMse(Insert(e, s))
  {
    if |s| > 0 {
      if Lt(s[0].mse, e.mse) {
        InsertSorted(e, s[1..]);
        assert s == [s[0]] + s[1..];
        InsertHeadBelow(s[0], e, s[1..], Insert(e, s[1..]));
      } else {
        forall i, j | 0 <= i < j < |[e] + s|
          ensures Le(([e] + s)[i].mse, ([e] + s)[j].mse)
        {
          if i == 0 {
            if j > 1 { LeTransitive(e.mse, s[0].mse, s[j - 1].mse); }
          } else {
            assert ([e] + s)[i] == s[i - 1] && ([e] + s)[j] == s[j - 1];
          }
        }
      }
    }
  }

  /** The sortedness step of Insert: an entry strictly below e that is also
      below everything in s can stand in front of e inserted into s. */
  lemma InsertHeadBelow(h: Fit, e: Fit, s: seq<Fit>, rest: seq<Fit>)
    requires SortedByMse([h] + s) && SortedByMse(rest) && Lt(h.mse, e.mse)
    requires multiset(rest) == multiset(s) + multiset{e}
    ensures SortedByMse([h] + rest)
  {
    forall j | 0 <= j < |rest|
      ensures Le(h.mse, rest[j].mse)
    {
      assert rest[j] in multiset(rest);
      if rest[j] == e {
        LtIsLe(h.mse, e.mse);
      } else {
        assert rest[j] in multiset(s);
        var m :| 0 <= m < |s| && s[m] == rest[j];
        assert ([h] + s)[0] == h && ([h] + s)[m + 1] == s[m];
      }
    }
    forall i, j | 0 <= i < j < |[h] + rest|
      ensures Le(([h] + rest)[i].mse, ([h] + rest)[j].mse)
    {
      if i > 0 {
        assert ([h] + rest)[i] == rest[i - 1];
      }
      assert ([h] + rest)[j] == rest[j - 1];
    }
  }

  /** Inserting e leaves the entries of every other MSE as they were and puts
      e at the head of the entries of its own MSE. */
  lemma {:induction false} InsertWithMse(e: Fit, s: seq<Fit>, k: ExtReal)
    ensures WithMse(Insert(e, s), k) == if e.mse == k then [e] + WithMse(s, k) else WithMse(s, k)
  {
    if |s| == 0 {
      WithMseCons(e, [], k);
    } else if Lt(s[0].mse, e.mse) {
      var rest := Insert(e, s[1..]);
      assert Insert(e, s) == [s[0]] + rest;
      InsertWithMse(e, s[1..], k);
      WithMseCons(s[0], rest, k);
      LtIsLe(s[0].mse, e.mse);
      if e.mse == k {
        assert s[0].mse != k;
        assert WithMse(s, k) == WithMse(s[1..], k);
      } else {
        assert WithMse(s, k) == (if s[0].mse == k then [s[0]] else []) + WithMse(s[1..], k);
      }
    } else {
      WithMseCons(e, s, k);
    }
  }

  /** sorted(entries, key=mse): insertion sort, each entry inserted ahead of
      the later entries it ties with. */
  function SortByMse(a: seq<Fit>): (r: seq<Fit>)
    ensures SortedByMse(r)
    ensures multiset(r) == multiset(a)
  {
    if |a| == 0 then []
    else
      assert a == [a[0]] + a[1..];
      var rest := SortByMse(a[1..]);
      InsertSorted(a[0], rest);
      Insert(a[0], rest)
  }

  /** The sort is stable: for every MSE, the entries with that MSE keep their
      relative order. */
  lemma {:induction false} SortByMseStable(a: seq<Fit>, k: ExtReal)
    ensures WithMse(SortByMse(a), k) == WithMse(a, k)
  {
    if |a| > 0 {
      SortByMseStable(a[1..], k);
      InsertWithMse(a[0], SortByMse(a[1..]), k);
    }
  }

  /** Taking the first n entries keeps, for every MSE, the first entries of
      that MSE. */
  lemma {:induction false} WithMseOfPrefix(s: seq<Fit>, n: nat, k: ExtReal)
    requires n <= |s|
    ensures WithMse(s[..n], k) <= WithMse(s, k)
  {
    if n > 0 {
      WithMseOfPrefix(s[1..], n - 1, k);
      assert s[..n] == [s[0]] + s[1..][..n - 1];
      WithMseCons(s[0], s[1..][..n - 1], k);
    }
  }

  /** The first n entries of a sorted sequence are no larger than any entry
      left out. */
  lemma PrefixHoldsSmallest(s: seq<Fit>, n: nat)
    requires SortedByMse(s) && n <= |s|
    ensures multiset(s) == multiset(s[..n]) + multiset(s[n..])
    ensures forall e, e' :: e in s[..n] && e' in multiset(s) - multiset(s[..n]) ==> Le(e.mse, e'.mse)
  {
    assert s == s[..n] + s[n..];
    forall e, e' | e in s[..n] && e' in multiset(s) - multiset(s[..n])
      ensures Le(e.mse, e'.mse)
    {
      assert e' in multiset(s[n..]);
      var i :| 0 <= i < n && s[..n][i] == e;
      var j :| 0 <= j < |s[n..]| && s[n..][j] == e';
      assert s[i] == e && s[n + j] == e';
    }
  }

  /** sorted(entries, key=mse)[:TopCount]: the entries with the smallest
      MSEs, ascending, and among equal MSEs the ones that come first. */
  function Rank(all: seq<Fit>): (r: seq<Fit>)
    ensures |r| == Min(TopCount, |all|)
    ensures SortedByMse(r)
    ensures multiset(r) <= multiset(all)
    ensures forall e, e' :: e in r && e' in multiset(all) - multiset(r) ==> Le(e.mse, e'.mse)
    ensures forall k :: WithMse(r, k) <= WithMse(all, k)
  {
    var s := SortByMse(all);
    var n := Min(TopCount, |s|);
    PrefixHoldsSmallest(s, n);
    assert forall k :: WithMse(s[..n], k) <= WithMse(all, k) by {
      forall k
        ensures WithMse(s[..n], k) <= WithMse(all, k)
      {
        WithMseOfPrefix(s, n, k);
        SortByMseStable(all, k);
      }
    }
    s[..n]
  }

  /** find_best_fit's result: at most TopCount entries in ascending MSE,
      each of them the best fit of one training curve. */
  function FindBestFit(train: Table, ideal: Table): (r: seq<Fit>)
    requires NonEmptyCurves(train)
    ensures |r| == Min(TopCount, |GetColumns(Names(train), CurvePrefix)|)
    ensures SortedByMse(r)
    ensures multiset(r) <= multiset(BestFits(train, ideal))
    ensures forall e :: e in r ==> e in BestFits(train, ideal)
    ensures forall e, e' :: e in r && e' in multiset(BestFits(train, ideal)) - multiset(r) ==> Le(e.mse, e'.mse)
    ensures forall k :: WithMse(r, k) <= WithMse(BestFits(train, ideal), k)
  {
    var all := BestFits(train, ideal);
    var r := Rank(all);
    assert forall e :: e in r ==> e in all by {
      forall e | e in r
        ensures e in all
      {
        assert e in multiset(r);
      }
    }
    r
  }

  /** With at most TopCount training curves, find_best_fit keeps every
      entry: its result is a permutation of best_fits. */
  lemma FindBestFitKeepsAll(train: Table, ideal: Table)
    requires NonEmptyCurves(train) && |GetColumns(Names(train), CurvePrefix)| <= TopCount
    ensures multiset(FindBestFit(train, ideal)) == multiset(BestFits(train, ideal))
  {
    var r := FindBestFit(train, ideal);
    var all := BestFits(train, ideal);
    var rest := multiset(all) - multiset(r);
    assert multiset(all) == multiset(r) + rest;
    assert |multiset(all)| == |multiset(r)| + |rest|;
    assert rest == multiset{};
  }
}
