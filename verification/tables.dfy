/** Curve tables as the matcher sees them once they are loaded: named columns
    of reals in column order (a DataFrame read from SQLite), with selection of
    columns by name prefix and lookup of a column by name. */
module Tables {
  import opened Options

  datatype Column = Column(name: string, values: seq<real>)

  datatype Table = Table(columns: seq<Column>)

  /** The column names in column order (DataFrame.columns). */
  function Names(t: Table): seq<string>
  {
    seq(|t.columns|, i requires 0 <= i < |t.columns| => t.columns[i].name)
  }

  /** No two columns share a name, as in any table read from SQLite. */
  predicate DistinctNames(t: Table)
  {
    forall i, j :: 0 <= i < j < |t.columns| ==> t.columns[i].name != t.columns[j].name
  }

  /** str.startswith */
  predicate StartsWith(s: string, prefix: string)
  {
    |prefix| <= |s| && s[..|prefix|] == prefix
  }

  /** a can be obtained from b by deleting elements. */
  predicate IsSubsequence<T(==)>(a: seq<T>, b: seq<T>)
    decreases |b|
  {
    |a| == 0 || (|b| > 0 && ((a[0] == b[0] && IsSubsequence(a[1..], b[1..])) || IsSubsequence(a, b[1..])))
  }

  /** The names that start with prefix, in their original order (get_columns).
      Being a subsequence that holds every occurrence of a matching name and
      nothing else fixes the result completely. */
  function GetColumns(names: seq<string>, prefix: string): (r: seq<string>)
    ensures IsSubsequence(r, names)
    ensures forall c :: multiset(r)[c] == if StartsWith(c, prefix) then multiset(names)[c] else 0
  {
    if |names| == 0 then []
    else
      var rest := GetColumns(names[1..], prefix);
      assert names == [names[0]] + names[1..];
      if StartsWith(names[0], prefix) then [names[0]] + rest else rest
  }

  /** Membership in get_columns' result, both directions. */
  lemma GetColumnsMembers(names: seq<string>, prefix: string, c: string)
    ensures c in GetColumns(names, prefix) <==> c in names && StartsWith(c, prefix)
  {
    var r := GetColumns(names, prefix);
    assert c in r <==> multiset(r)[c] > 0;
    assert c in names <==> multiset(names)[c] > 0;
  }

  /** Index of the first column named name. */
  function ColumnIndex(t: Table, name: string): (r: Option<nat>)
    ensures r.None? <==> name !in Names(t)
    ensures r.Some? ==> r.value < |t.columns| && t.columns[r.value].name == name
    ensures r.Some? ==> forall j :: 0 <= j < r.value ==> t.columns[j].name != name
    decreases |t.columns|
  {
    if |t.columns| == 0 then None
    else if t.columns[0].name == name then
      assert Names(t)[0] == name;
      Some(0)
    else
      var rest := Table(t.columns[1..]);
      assert Names(t) == [t.columns[0].name] + Names(rest);
      match ColumnIndex(rest, name)
      case None => None
      case Some(i) => Some(i + 1)
  }

  /** The values of the column named name (data[name].values), or None when
      the table has no such column. */
  function Lookup(t: Table, name: string): (r: Option<seq<real>>)
    ensures r.None? <==> name !in Names(t)
    ensures r.Some? ==> exists i :: 0 <= i < |t.columns| && t.columns[i] == Column(name, r.value)
  {
    match ColumnIndex(t, name)
    case None => None
    case Some(i) => Some(t.columns[i].values)
  }

  /** With distinct names, looking a column up by its own name finds it. */
  lemma LookupOwnColumn(t: Table, i: nat)
    requires DistinctNames(t) && i < |t.columns|
    ensures Lookup(t, t.columns[i].name) == Some(t.columns[i].values)
  {
    var k := ColumnIndex(t, t.columns[i].name);
    assert Names(t)[i] == t.columns[i].name;
  }
}
