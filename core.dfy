/**
 * CovConn of src/popconn/core/core.py: a population covariance connectome. It
 * holds long- or wide-format data, keeps the wide (subject x region) form, and
 * caches the region x region correlation matrix it last computed.
 */
module Core {
  import opened Wrappers
  import opened Frames
  import opened StringOrder

  /** The value recorded for (subject, region), if any row has that key. */
  function Lookup(rows: seq<Observation>, subject: string, region: string): (r: Option<real>)
    ensures r.None? <==> (subject, region) !in KeySet(rows)
    ensures r.Some? ==> exists o :: o in rows && Key(o) == (subject, region) && o.value == r.value
    decreases |rows|
  {
    if rows == [] then None
    else
      assert forall o :: o in rows <==> o == rows[0] || o in rows[1..];
      if Key(rows[0]) == (subject, region) then Some(rows[0].value)
      else Lookup(rows[1..], subject, region)
  }

  /** With unique keys, every row is the one Lookup finds for its key. */
  lemma {:induction false} LookupFindsRow(rows: seq<Observation>, o: Observation)
    requires UniqueKeys(rows) && o in rows
    ensures Lookup(rows, o.subject, o.region) == Some(o.value)
    decreases |rows|
  {
    if rows[0] != o {
      assert o in rows[1..];
      assert Key(rows[0]) != Key(o);
      LookupFindsRow(rows[1..], o);
    }
  }

  /**
   * _to_wide_format: data.pivot(index=subject, columns=region, values=value).
   * The index holds the distinct subjects and the columns the distinct regions,
   * both sorted as pandas sorts them; a (subject, region) pair without a row is
   * a missing cell. pandas refuses duplicate keys, so unique keys are required.
   */
  function Pivot(rows: seq<Observation>): (t: Table)
    requires UniqueKeys(rows)
    ensures TableWf(t)
    ensures StrictlySorted(t.index) && StrictlySorted(t.columns)
    ensures forall s :: s in t.index <==> s in Subjects(rows)
    ensures forall g :: g in t.columns <==> g in Regions(rows)
  {
    var index := SortedDistinct(Subjects(rows));
    var columns := SortedDistinct(Regions(rows));
    Table(index, columns,
      seq(|index|, i requires 0 <= i < |index| =>
        seq(|columns|, j requires 0 <= j < |columns| => Lookup(rows, index[i], columns[j]))))
  }

  /** The pivot lists each subject once in its index and each region once in its columns. */
  lemma PivotAxesDistinct(rows: seq<Observation>)
    requires UniqueKeys(rows)
    ensures forall i, j :: 0 <= i < j < |Pivot(rows).index| ==> Pivot(rows).index[i] != Pivot(rows).index[j]
    ensures forall i, j :: 0 <= i < j < |Pivot(rows).columns| ==> Pivot(rows).columns[i] != Pivot(rows).columns[j]
  {
    SortedHasNoDuplicates(Pivot(rows).index);
    SortedHasNoDuplicates(Pivot(rows).columns);
  }

  /** Every observation lands in the cell of its subject's row and its region's column. */
  lemma PivotHoldsEveryObservation(rows: seq<Observation>, o: Observation)
    requires UniqueKeys(rows) && o in rows
    ensures exists i, j :: 0 <= i < |Pivot(rows).index| && 0 <= j < |Pivot(rows).columns| &&
              Pivot(rows).index[i] == o.subject && Pivot(rows).columns[j] == o.region &&
              Pivot(rows).cells[i][j] == Some(o.value)
  {
    var t := Pivot(rows);
    var k :| 0 <= k < |rows| && rows[k] == o;
    assert Subjects(rows)[k] == o.subject && Regions(rows)[k] == o.region;
    assert o.subject in t.index && o.region in t.columns;
    var i :| 0 <= i < |t.index| && t.index[i] == o.subject;
    var j :| 0 <= j < |t.columns| && t.columns[j] == o.region;
    LookupFindsRow(rows, o);
    assert t.cells[i][j] == Some(o.value);
  }

  /** A cell is missing exactly when no row has its (subject, region) key. */
  lemma PivotMissingCells(rows: seq<Observation>, i: nat, j: nat)
    requires UniqueKeys(rows)
    requires i < |Pivot(rows).index| && j < |Pivot(rows).columns|
    ensures Pivot(rows).cells[i][j].None? <==> (Pivot(rows).index[i], Pivot(rows).columns[j]) !in KeySet(rows)
  {
  }

  /** A present cell holds the value of the row keyed by that subject and region. */
  lemma PivotPresentCells(rows: seq<Observation>, i: nat, j: nat)
    requires UniqueKeys(rows)
    requires i < |Pivot(rows).index| && j < |Pivot(rows).columns|
    requires Pivot(rows).cells[i][j].Some?
    ensures exists o :: o in rows && o.subject == Pivot(rows).index[i] && o.region == Pivot(rows).columns[j] &&
              Pivot(rows).cells[i][j] == Some(o.value)
  {
  }

  lemma InSubjects(rows: seq<Observation>, s: string)
    ensures s in Subjects(rows) <==> exists o :: o in rows && o.subject == s
  {
    if s in Subjects(rows) {
      var k :| 0 <= k < |rows| && Subjects(rows)[k] == s;
      assert rows[k] in rows;
    }
    forall o | o in rows ensures o.subject in Subjects(rows) {
      var k :| 0 <= k < |rows| && rows[k] == o;
      assert Subjects(rows)[k] == o.subject;
    }
  }

  lemma InRegions(rows: seq<Observation>, g: string)
    ensures g in Regions(rows) <==> exists o :: o in rows && o.region == g
  {
    if g in Regions(rows) {
      var k :| 0 <= k < |rows| && Regions(rows)[k] == g;
      assert rows[k] in rows;
    }
    forall o | o in rows ensures o.region in Regions(rows) {
      var k :| 0 <= k < |rows| && rows[k] == o;
      assert Regions(rows)[k] == o.region;
    }
  }

  /** Two row lists with the same members and unique keys give the same lookups. */
  lemma SameRowsSameLookups(rows1: seq<Observation>, rows2: seq<Observation>, s: string, g: string)
    requires UniqueKeys(rows1) && UniqueKeys(rows2)
    requires forall o :: o in rows1 <==> o in rows2
    ensures Lookup(rows1, s, g) == Lookup(rows2, s, g)
  {
    var l1 := Lookup(rows1, s, g);
    if l1.Some? {
      var o :| o in rows1 && Key(o) == (s, g) && o.value == l1.value;
      LookupFindsRow(rows1, o);
      LookupFindsRow(rows2, o);
    } else {
      assert KeySet(rows1) == KeySet(rows2);
    }
  }

  /** The pivot depends only on which rows there are, not on their order. */
  lemma PivotIgnoresRowOrder(rows1: seq<Observation>, rows2: seq<Observation>)
    requires UniqueKeys(rows1) && UniqueKeys(rows2)
    requires multiset(rows1) == multiset(rows2)
    ensures Pivot(rows1) == Pivot(rows2)
  {
    var t1, t2 := Pivot(rows1), Pivot(rows2);
    assert forall o :: o in rows1 <==> o in rows2 by {
      forall o ensures o in rows1 <==> o in rows2 {
        assert o in rows1 <==> o in multiset(rows1);
        assert o in rows2 <==> o in multiset(rows2);
      }
    }
    forall s ensures s in t1.index <==> s in t2.index {
      InSubjects(rows1, s);
      InSubjects(rows2, s);
    }
    forall g ensures g in t1.columns <==> g in t2.columns {
      InRegions(rows1, g);
      InRegions(rows2, g);
    }
    SortedSameElementsEqual(t1.index, t2.index);
    SortedSameElementsEqual(t1.columns, t2.columns);
    forall i, j | 0 <= i < |t1.index| && 0 <= j < |t1.columns|
      ensures t1.cells[i][j] == t2.cells[i][j]
    {
      SameRowsSameLookups(rows1, rows2, t1.index[i], t1.columns[j]);
    }
    assert forall i :: 0 <= i < |t1.index| ==> t1.cells[i] == t2.cells[i];
  }

  /**
   * The correlation coefficient the correlation step computes for a pair of
   * columns (a missing cell is None). The numerics of pandas' corr are not
   * modelled: any coefficient function may be supplied.
   */
  type Coefficient = (seq<Option<real>>, seq<Option<real>>) -> real

  /** Column j of a wide table. */
  function Column(t: Table, j: nat): (c: seq<Option<real>>)
    requires TableWf(t) && j < |t.columns|
    ensures |c| == |t.index| && forall i :: 0 <= i < |c| ==> c[i] == t.cells[i][j]
  {
    seq(|t.index|, i requires 0 <= i < |t.index| => t.cells[i][j])
  }

  /**
   * compute_population_covariance: the region x region matrix whose (a, b)
   * entry is the coefficient of columns a and b, labelled by the regions on
   * both axes.
   */
  function Correlation(coef: Coefficient, t: Table): (m: Frame)
    requires TableWf(t)
    ensures Wf(m) && m.index == t.columns && m.columns == t.columns
  {
    Frame(t.columns, t.columns,
      seq(|t.columns|, a requires 0 <= a < |t.columns| =>
        seq(|t.columns|, b requires 0 <= b < |t.columns| => coef(Column(t, a), Column(t, b)))))
  }

  /** Entry (a, b) of the correlation matrix relates region a's column to region b's. */
  lemma CorrelationEntries(coef: Coefficient, t: Table, a: nat, b: nat)
    requires TableWf(t) && a < |t.columns| && b < |t.columns|
    ensures Correlation(coef, t).values[a][b] == coef(Column(t, a), Column(t, b))
    ensures Correlation(coef, t).index[a] == t.columns[a] && Correlation(coef, t).columns[b] == t.columns[b]
  {
  }

  /** A symmetric coefficient gives a symmetric matrix. */
  lemma CorrelationSymmetric(coef: Coefficient, t: Table)
    requires TableWf(t)
    requires forall x, y :: coef(x, y) == coef(y, x)
    ensures Symmetric(Correlation(coef, t))
  {
    forall a, b | 0 <= a < |t.columns| && 0 <= b < |t.columns|
      ensures Correlation(coef, t).values[a][b] == Correlation(coef, t).values[b][a]
    {
      CorrelationEntries(coef, t, a, b);
      CorrelationEntries(coef, t, b, a);
    }
  }

  /** The input of a CovConn: long-format rows, or an already wide table. */
  datatype Input = LongData(rows: seq<Observation>) | WideData(table: Table)

  /** What turning the input into its wide form demands. */
  predicate Pivotable(data: Input)
  {
    match data
    case LongData(rows) => UniqueKeys(rows)
    case WideData(table) => TableWf(table)
  }

  /** The wide form: the pivot of long data, or a copy of wide data. */
  function WideFormOf(data: Input): (t: Table)
    requires Pivotable(data)
    ensures TableWf(t)
    ensures data.WideData? ==> t == data.table
    ensures data.LongData? ==> forall s :: s in t.index <==> s in Subjects(data.rows)
    ensures data.LongData? ==> forall g :: g in t.columns <==> g in Regions(data.rows)
  {
    match data
    case LongData(rows) => Pivot(rows)
    case WideData(table) => table
  }

  class CovConn {
    const data: Input
    const longFormat: bool
    /** Set once by the constructor; nothing changes it afterwards. */
    const wideData: Table
    /** The most recently computed correlation matrix, if any. */
    var covariance: Option<Frame>

    predicate Valid()
    {
      Pivotable(data) && longFormat == data.LongData? && wideData == WideFormOf(data)
    }

    /** __init__: keeps the data, builds its wide form, and caches nothing yet. */
    constructor (data: Input)
      requires Pivotable(data)
      ensures Valid() && this.data == data
      ensures covariance == None
      ensures Covariance() == Failure(CovarianceNotComputed)
    {
      this.data := data;
      longFormat := data.LongData?;
      wideData := WideFormOf(data);
      covariance := None;
    }

    /** compute_covariance: computes the matrix of the wide data, caches it and returns it. */
    method ComputeCovariance(coef: Coefficient) returns (m: Frame)
      requires Valid()
      modifies this
      ensures m == Correlation(coef, wideData)
      ensures covariance == Some(m)
      ensures Covariance() == Success(m)
    {
      m := Correlation(coef, wideData);
      covariance := Some(m);
    }

    /** The covariance property: the cached matrix, or an error when none has been computed. */
    function Covariance(): (r: Result<Frame, Error>)
      reads this
      ensures r.Failure? <==> covariance.None?
      ensures r.Failure? ==> r.error == CovarianceNotComputed
      ensures r.Success? ==> covariance == Some(r.value)
    {
      match covariance
      case None => Failure(CovarianceNotComputed)
      case Some(m) => Success(m)
    }
  }
}
