/**
 * The tables the core works on: long-format observations, wide subject x region
 * tables, and labelled real matrices (what a correlation step and a metric return).
 */
module Frames {
  import opened Wrappers

  /** One row of a long-format table: subject, region, measured value and group label. */
  datatype Observation = Observation(subject: string, region: string, value: real, group: string)

  /** The causes of the ValueErrors the core raises. */
  datatype Error =
    | TwoGroupsRequired      // the group column does not hold exactly two distinct labels
    | NothingToStack         // np.stack was given an empty list of null statistics
    | ShapeMismatch          // null statistics do not share the observed statistic's shape
    | CovarianceNotComputed  // the cached matrix was read before it was computed

  /** A wide table: one row per subject, one column per region; None stands for a missing (NaN) cell. */
  datatype Table = Table(index: seq<string>, columns: seq<string>, cells: seq<seq<Option<real>>>)

  /** A labelled real matrix: a correlation matrix or a metric's result. */
  datatype Frame = Frame(index: seq<string>, columns: seq<string>, values: seq<seq<real>>)

  predicate HasShape(m: seq<seq<real>>, rows: nat, cols: nat)
  {
    |m| == rows && forall i :: 0 <= i < |m| ==> |m[i]| == cols
  }

  /** A frame is rectangular and its labels match its dimensions. */
  predicate Wf(f: Frame)
  {
    HasShape(f.values, |f.index|, |f.columns|)
  }

  /** A square frame that equals its own transpose. */
  predicate Symmetric(m: Frame)
  {
    Wf(m) && |m.index| == |m.columns| &&
    forall i, j :: 0 <= i < |m.index| && 0 <= j < |m.index| ==> m.values[i][j] == m.values[j][i]
  }

  predicate TableWf(t: Table)
  {
    |t.cells| == |t.index| && forall i :: 0 <= i < |t.cells| ==> |t.cells[i]| == |t.columns|
  }

  /** The (subject, region) pair a long-format row is keyed by. */
  function Key(o: Observation): (string, string)
  {
    (o.subject, o.region)
  }

  function KeySet(rows: seq<Observation>): set<(string, string)>
  {
    set o | o in rows :: Key(o)
  }

  /** No (subject, region) pair occurs twice, which pandas' pivot demands. */
  predicate UniqueKeys(rows: seq<Observation>)
    decreases |rows|
  {
    rows == [] || (Key(rows[0]) !in KeySet(rows[1..]) && UniqueKeys(rows[1..]))
  }

  /** The group column. */
  function Labels(rows: seq<Observation>): seq<string>
  {
    seq(|rows|, i requires 0 <= i < |rows| => rows[i].group)
  }

  /** The subject column. */
  function Subjects(rows: seq<Observation>): seq<string>
  {
    seq(|rows|, i requires 0 <= i < |rows| => rows[i].subject)
  }

  /** The region column. */
  function Regions(rows: seq<Observation>): seq<string>
  {
    seq(|rows|, i requires 0 <= i < |rows| => rows[i].region)
  }

  function Abs(x: real): real
  {
    if x < 0.0 then -x else x
  }
}
