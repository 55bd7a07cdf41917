/** DOCUMENTED INTENT, NOT OBSERVED BEHAVIOUR.

    `proj`, `minus` and the three `join`s of Table.java return tables with
    no rows (their bodies call `flaw ("...", "not implemented yet")`). Their
    doc comments say what rows they are meant to hold; this module writes
    exactly that down, at the level of column positions, so that the stated
    intent can be reasoned about. Nothing in `Tables` uses it. */
module DocumentedIntent {
  import opened Values
  import opened Rows
  import opened Schema
  import opened Condition

  // ---- proj: "keeping only the given attributes" ----

  predicate ColumnsWithin(cols: seq<nat>, width: nat) {
    forall j :: 0 <= j < |cols| ==> cols[j] < width
  }

  /** One row reduced to the given columns, in the given order. */
  function ProjectRow(t: Row, cols: seq<nat>): (r: Row)
    requires ColumnsWithin(cols, |t|)
    ensures |r| == |cols|
    ensures forall x :: x in r ==> x in t
  {
    seq(|cols|, j requires 0 <= j < |cols| => t[cols[j]])
  }

  /** Every row reduced to the given columns. */
  function ProjectRows(rows: seq<Row>, cols: seq<nat>): (r: seq<Row>)
    requires forall t :: t in rows ==> ColumnsWithin(cols, |t|)
    ensures |r| == |rows|
    ensures forall i :: 0 <= i < |rows| ==> r[i] == ProjectRow(rows[i], cols)
  {
    if rows == [] then [] else [ProjectRow(rows[0], cols)] + ProjectRows(rows[1..], cols)
  }

  /** The columns `0 .. n-1` in order. */
  function AllColumns(n: nat): (cols: seq<nat>)
    ensures |cols| == n && forall j :: 0 <= j < n ==> cols[j] == j
  {
    seq(n, j requires 0 <= j < n => j)
  }

  /** Projecting onto every attribute, in schema order, keeps every row. */
  lemma ProjectOntoAll(rows: seq<Row>, n: nat)
    requires forall t :: t in rows ==> |t| == n
    ensures ProjectRows(rows, AllColumns(n)) == rows
  {
    var r := ProjectRows(rows, AllColumns(n));
    forall i | 0 <= i < |rows| ensures r[i] == rows[i] {
      assert rows[i] in rows;
      assert ProjectRow(rows[i], AllColumns(n)) == rows[i];
    }
  }

  // ---- minus: "the difference of this table and table2" ----

  /** The rows of this table that no row of `table2` equals, in order. */
  function MinusRows(left: seq<Row>, right: seq<Row>): (r: seq<Row>)
    ensures |r| <= |left|
    ensures forall t :: t in r ==> t in left && t !in right
  {
    Filter(left, t => t !in right)
  }

  /** Set difference: a row survives exactly when it is on the left and
      not on the right; a table minus itself is empty; every left row is
      either kept or matched on the right. */
  lemma MinusRowsSemantics(left: seq<Row>, right: seq<Row>)
    ensures forall t :: t in MinusRows(left, right) <==> t in left && t !in right
    ensures MinusRows(left, left) == []
    ensures forall t :: t in left ==> t in MinusRows(left, right) || t in right
  {
    FilterKeepsNone(left, t => t !in left);
  }

  /** Minus and union together: every row of the difference is a row of
      the union. */
  lemma MinusWithinUnion(left: seq<Row>, right: seq<Row>)
    ensures forall t :: t in MinusRows(left, right) ==> t in UnionRows(left, right)
  {
    UnionRowsSetSemantics(left, right);
  }

  // ---- join: nested loop join ----

  /** The inner loop for one left row `t`: `combine (t, u)` for every right
      row `u` that matches `t`, in right order. */
  function JoinOne(t: Row, right: seq<Row>, matches: (Row, Row) -> bool,
                   combine: (Row, Row) -> Row): (r: seq<Row>)
    ensures |r| <= |right|
  {
    if right == [] then []
    else (if matches(t, right[0]) then [combine(t, right[0])] else [])
         + JoinOne(t, right[1..], matches, combine)
  }

  /** "Implement using a Nested Loop Join algorithm": for every left row,
      scan every right row and emit one combined row per matching pair. */
  function NestedLoopJoin(left: seq<Row>, right: seq<Row>, matches: (Row, Row) -> bool,
                          combine: (Row, Row) -> Row): (r: seq<Row>)
    ensures |r| <= |left| * |right|
  {
    if left == [] then []
    else
      var rest := NestedLoopJoin(left[1..], right, matches, combine);
      assert |left| * |right| == |right| + (|left| - 1) * |right|;
      JoinOne(left[0], right, matches, combine) + rest
  }

  /** How many right rows match `t`. */
  function MatchCount(t: Row, right: seq<Row>, matches: (Row, Row) -> bool): nat {
    if right == [] then 0
    else (if matches(t, right[0]) then 1 else 0) + MatchCount(t, right[1..], matches)
  }

  /** How many (left, right) pairs match. */
  function PairCount(left: seq<Row>, right: seq<Row>, matches: (Row, Row) -> bool): nat {
    if left == [] then 0 else MatchCount(left[0], right, matches) + PairCount(left[1..], right, matches)
  }

  lemma {:induction false} JoinOneMembers(t: Row, right: seq<Row>, matches: (Row, Row) -> bool,
                                         combine: (Row, Row) -> Row)
    ensures |JoinOne(t, right, matches, combine)| == MatchCount(t, right, matches)
    ensures forall x :: x in JoinOne(t, right, matches, combine) <==>
              exists u :: u in right && matches(t, u) && x == combine(t, u)
  {
    if right != [] {
      JoinOneMembers(t, right[1..], matches, combine);
      assert forall u :: u in right <==> u == right[0] || u in right[1..] by {
        assert right == [right[0]] + right[1..];
      }
    }
  }

  /** The join holds one row per matching pair, and its rows are exactly
      the combinations of matching pairs. */
  lemma {:induction false} NestedLoopJoinMembers(left: seq<Row>, right: seq<Row>,
                                                matches: (Row, Row) -> bool, combine: (Row, Row) -> Row)
    ensures |NestedLoopJoin(left, right, matches, combine)| == PairCount(left, right, matches)
    ensures forall x :: x in NestedLoopJoin(left, right, matches, combine) <==>
              exists t, u :: t in left && u in right && matches(t, u) && x == combine(t, u)
  {
    if left != [] {
      JoinOneMembers(left[0], right, matches, combine);
      NestedLoopJoinMembers(left[1..], right, matches, combine);
      assert forall t :: t in left <==> t == left[0] || t in left[1..] by {
        assert left == [left[0]] + left[1..];
      }
    }
  }

  /** With every pair matching, the join is the cartesian product. */
  lemma {:induction false} CartesianCount(left: seq<Row>, right: seq<Row>, matches: (Row, Row) -> bool)
    requires forall t, u :: matches(t, u)
    ensures PairCount(left, right, matches) == |left| * |right|
  {
    if left != [] {
      CartesianCount(left[1..], right, matches);
      MatchAll(left[0], right, matches);
    }
  }

  lemma {:induction false} MatchAll(t: Row, right: seq<Row>, matches: (Row, Row) -> bool)
    requires forall t, u :: matches(t, u)
    ensures MatchCount(t, right, matches) == |right|
  {
    if right != [] {
      MatchAll(t, right[1..], matches);
    }
  }

  /** Equi-join match: `t[cols1[i]] == u[cols2[i]]` for every listed pair. */
  predicate EquiMatch(cols1: seq<nat>, cols2: seq<nat>, t: Row, u: Row) {
    && |cols1| == |cols2|
    && forall i :: 0 <= i < |cols1| ==> cols1[i] < |t| && cols2[i] < |u| && t[cols1[i]] == u[cols2[i]]
  }

  /** Theta-join match: `t[col1] op u[col2]` by `compareTo`. */
  predicate ThetaMatch(col1: nat, op: string, col2: nat, t: Row, u: Row) {
    && op in Operators
    && col1 < |t| && col2 < |u|
    && CompareTo(t[col1], u[col2]).Some?
    && Holds(op, CompareTo(t[col1], u[col2]).value)
  }

  /** The rows of `join (attributes1, attributes2, table2)` as documented,
      with the attribute lists resolved to column positions. */
  function EquiJoinRows(left: seq<Row>, right: seq<Row>, cols1: seq<nat>, cols2: seq<nat>): (r: seq<Row>)
    ensures |r| <= |left| * |right|
    ensures forall x :: x in r <==>
              exists t, u :: t in left && u in right && EquiMatch(cols1, cols2, t, u) && x == t + u
  {
    NestedLoopJoinMembers(left, right, (t, u) => EquiMatch(cols1, cols2, t, u), (t, u) => t + u);
    NestedLoopJoin(left, right, (t, u) => EquiMatch(cols1, cols2, t, u), (t, u) => t + u)
  }

  /** The rows of `join (condition, table2)` as documented. */
  function ThetaJoinRows(left: seq<Row>, right: seq<Row>, col1: nat, op: string, col2: nat): (r: seq<Row>)
    ensures |r| <= |left| * |right|
    ensures forall x :: x in r <==>
              exists t, u :: t in left && u in right && ThetaMatch(col1, op, col2, t, u) && x == t + u
  {
    NestedLoopJoinMembers(left, right, (t, u) => ThetaMatch(col1, op, col2, t, u), (t, u) => t + u);
    NestedLoopJoin(left, right, (t, u) => ThetaMatch(col1, op, col2, t, u), (t, u) => t + u)
  }

  /** "Disambiguate attribute names by appending "2" to the end of any
      duplicate attribute name": the right-hand names as the joined schema
      would show them. Each keeps its original name as a prefix, a name
      the left schema also has gains exactly the character '2', and every
      other name is left alone. */
  function Disambiguate(left: seq<string>, right: seq<string>): (names: seq<string>)
    ensures |names| == |right|
    ensures forall j :: 0 <= j < |right| ==> right[j] <= names[j] && |names[j]| <= |right[j]| + 1
    ensures forall j :: 0 <= j < |right| ==> (names[j] == right[j] <==> right[j] !in left)
    ensures forall j :: 0 <= j < |right| && right[j] in left ==> names[j][|right[j]|] == '2'
  {
    seq(|right|, j requires 0 <= j < |right| => if right[j] in left then right[j] + "2" else right[j])
  }

  /** When both schemas have distinct names and no `x + "2"` already occurs
      for a shared `x`, the disambiguated joined schema has distinct names. */
  lemma DisambiguatedDistinct(left: seq<string>, right: seq<string>)
    requires Distinct(left) && Distinct(right)
    requires forall x :: x in left && x in right ==> x + "2" !in left && x + "2" !in right
    ensures Distinct(left + Disambiguate(left, right))
  {
    var d := Disambiguate(left, right);
    var all := left + d;
    forall i, j | 0 <= i < j < |all| ensures all[i] != all[j] {
      if j >= |left| {
        var rj := right[j - |left|];
        assert all[j] == d[j - |left|];
        if i < |left| {
          assert all[i] == left[i];
          if rj in left {
            assert rj in right;
          }
        } else {
          var ri := right[i - |left|];
          assert all[i] == d[i - |left|];
          assert ri != rj;
          if ri in left && rj in left {
            assert (ri + "2")[..|ri|] == ri && (rj + "2")[..|rj|] == rj;
          } else if ri in left {
            assert ri in right;
          } else if rj in left {
            assert rj in right;
          }
        }
      }
    }
  }

  // ---- natural join: "common attributes equal", "duplicate column eliminated" ----

  /** The attribute names of `left` that also occur in `right`, in left order. */
  function Shared(left: seq<string>, right: seq<string>): (s: seq<string>)
    ensures forall x :: x in s <==> x in left && x in right
  {
    if left == [] then []
    else (if left[0] in right then [left[0]] else []) + Shared(left[1..], right)
  }

  /** The column positions of the given names under a schema's `col` map. */
  function Positions(names: seq<string>, attrs: seq<string>): (cols: seq<nat>)
    requires forall x :: x in names ==> x in attrs
    ensures |cols| == |names|
    ensures forall j :: 0 <= j < |names| ==> cols[j] < |attrs| && attrs[cols[j]] == names[j]
  {
    if names == [] then []
    else
      assert names[0] in names;
      [ColumnMap(attrs)[names[0]] as nat] + Positions(names[1..], attrs)
  }

  /** How many of the positions `0 .. n-1` are listed in `cols`. */
  function ListedCount(n: nat, cols: seq<nat>): (k: nat)
    ensures k <= n
  {
    if n == 0 then 0 else ListedCount(n - 1, cols) + (if n - 1 in cols then 1 else 0)
  }

  /** A row without the given columns: one cell fewer per listed position,
      and only cells of the row (`DropColumnsKeeps` says which). */
  function DropColumns(u: Row, cols: seq<nat>): (v: Row)
    ensures |v| + ListedCount(|u|, cols) == |u|
    ensures forall x :: x in v ==> x in u
  {
    if u == [] then []
    else
      var init := u[..|u| - 1];
      assert forall x :: x in init ==> x in u;
      DropColumns(init, cols) + (if |u| - 1 in cols then [] else [u[|u| - 1]])
  }

  /** Dropping keeps the cell at every position not listed. */
  lemma {:induction false} DropColumnsKeeps(u: Row, cols: seq<nat>, i: nat)
    requires i < |u| && i !in cols
    ensures u[i] in DropColumns(u, cols)
  {
    var init := u[..|u| - 1];
    if i < |init| {
      DropColumnsKeeps(init, cols, i);
      assert u[i] == init[i];
    }
  }

  /** Dropping keeps the order of the surviving cells: the cell at an
      unlisted position `i` moves left by the number of listed positions
      before it. With the length ensures of `DropColumns` this fixes every
      cell of the result. */
  lemma {:induction false} DropColumnsAt(u: Row, cols: seq<nat>, i: nat)
    requires i < |u| && i !in cols
    ensures i - ListedCount(i, cols) < |DropColumns(u, cols)|
    ensures DropColumns(u, cols)[i - ListedCount(i, cols)] == u[i]
  {
    var init := u[..|u| - 1];
    assert |DropColumns(init, cols)| + ListedCount(|init|, cols) == |init|;
    if i < |init| {
      DropColumnsAt(init, cols, i);
      assert u[i] == init[i];
    }
  }

  /** A row none of whose positions is listed loses nothing. */
  lemma {:induction false} DropColumnsUnlisted(u: Row, cols: seq<nat>)
    requires forall i :: 0 <= i < |u| ==> i !in cols
    ensures DropColumns(u, cols) == u
  {
    if u != [] {
      var init := u[..|u| - 1];
      DropColumnsUnlisted(init, cols);
      assert u == init + [u[|u| - 1]];
    }
  }

  /** The equi-join on `cols1`/`cols2` with the right-hand copy of each
      matched column dropped. */
  function EquiJoinDropping(left: seq<Row>, right: seq<Row>, cols1: seq<nat>, cols2: seq<nat>): (r: seq<Row>)
    ensures |r| <= |left| * |right|
    ensures forall x :: x in r <==>
              exists t, u :: t in left && u in right && EquiMatch(cols1, cols2, t, u) &&
                             x == t + DropColumns(u, cols2)
  {
    var matches := (t, u) => EquiMatch(cols1, cols2, t, u);
    var combine := (t, u) => t + DropColumns(u, cols2);
    var r := NestedLoopJoin(left, right, matches, combine);
    assert forall x :: x in r <==>
             exists t, u :: t in left && u in right && EquiMatch(cols1, cols2, t, u) &&
                            x == t + DropColumns(u, cols2) by {
      NestedLoopJoinMembers(left, right, matches, combine);
      forall x | x in r
        ensures exists t, u :: t in left && u in right && EquiMatch(cols1, cols2, t, u) &&
                               x == t + DropColumns(u, cols2)
      {
        var t, u :| t in left && u in right && matches(t, u) && x == combine(t, u);
      }
      forall x, t, u | t in left && u in right && EquiMatch(cols1, cols2, t, u) &&
                       x == t + DropColumns(u, cols2)
        ensures x in r
      {
        assert matches(t, u) && x == combine(t, u);
      }
    }
    r
  }

  /** The positions of the shared attributes in the left schema. */
  function SharedLeft(leftAttrs: seq<string>, rightAttrs: seq<string>): seq<nat> {
    Positions(Shared(leftAttrs, rightAttrs), leftAttrs)
  }

  /** The positions of the shared attributes in the right schema. */
  function SharedRight(leftAttrs: seq<string>, rightAttrs: seq<string>): seq<nat> {
    Positions(Shared(leftAttrs, rightAttrs), rightAttrs)
  }

  /** The rows of `join (table2)` as documented: rows agreeing on every
      shared attribute are joined and the right-hand copy of each shared
      column is dropped. */
  function NaturalJoinRows(left: seq<Row>, right: seq<Row>,
                           leftAttrs: seq<string>, rightAttrs: seq<string>): (r: seq<Row>)
    ensures |r| <= |left| * |right|
    ensures forall x :: x in r <==>
              exists t, u :: t in left && u in right &&
                             EquiMatch(SharedLeft(leftAttrs, rightAttrs), SharedRight(leftAttrs, rightAttrs), t, u) &&
                             x == t + DropColumns(u, SharedRight(leftAttrs, rightAttrs))
  {
    EquiJoinDropping(left, right, SharedLeft(leftAttrs, rightAttrs), SharedRight(leftAttrs, rightAttrs))
  }

  /** The order and layout of the output columns do not change how many
      rows a nested loop join yields. */
  lemma {:induction false} JoinCountIgnoresLayout(left: seq<Row>, right: seq<Row>, matches: (Row, Row) -> bool,
                                                 combine1: (Row, Row) -> Row, combine2: (Row, Row) -> Row)
    ensures |NestedLoopJoin(left, right, matches, combine1)| == |NestedLoopJoin(left, right, matches, combine2)|
  {
    NestedLoopJoinMembers(left, right, matches, combine1);
    NestedLoopJoinMembers(left, right, matches, combine2);
  }

  /** A natural join has as many rows as the equi-join on the shared
      attributes: only the duplicate columns differ. */
  lemma NaturalJoinCountsAsEquiJoin(left: seq<Row>, right: seq<Row>,
                                    leftAttrs: seq<string>, rightAttrs: seq<string>)
    ensures var shared := Shared(leftAttrs, rightAttrs);
            |NaturalJoinRows(left, right, leftAttrs, rightAttrs)| ==
            |EquiJoinRows(left, right, Positions(shared, leftAttrs), Positions(shared, rightAttrs))|
  {
    var shared := Shared(leftAttrs, rightAttrs);
    var cols1 := Positions(shared, leftAttrs);
    var cols2 := Positions(shared, rightAttrs);
    JoinCountIgnoresLayout(left, right, (t, u) => EquiMatch(cols1, cols2, t, u),
                           (t, u) => t + DropColumns(u, cols2), (t, u) => t + u);
  }
}
