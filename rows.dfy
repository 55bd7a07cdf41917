/** Row lists: the stream filter behind `selt (predicate)` and the
    first-occurrence de-duplicating append behind `union`. */
module Rows {
  import opened Values

  /** A tuple, `Comparable []`; `Arrays.equals` on two rows is `==` here. */
  type Row = seq<Value>

  predicate NoDuplicates(rows: seq<Row>) {
    forall i, j :: 0 <= i < j < |rows| ==> rows[i] != rows[j]
  }

  /** `rows.stream ().filter (t -> p (t)).collect (toList ())`: the rows
      satisfying `p`, in their original order. */
  function Filter(rows: seq<Row>, p: Row -> bool): (r: seq<Row>)
    ensures |r| <= |rows|
    ensures forall t :: t in r <==> t in rows && p(t)
  {
    if rows == [] then []
    else (if p(rows[0]) then [rows[0]] else []) + Filter(rows[1..], p)
  }

  /** Filtering a concatenation filters each part: the kept rows stay in
      the order they had. */
  lemma {:induction false} FilterAppend(a: seq<Row>, b: seq<Row>, p: Row -> bool)
    ensures Filter(a + b, p) == Filter(a, p) + Filter(b, p)
  {
    if a != [] {
      FilterAppend(a[1..], b, p);
      assert (a + b)[1..] == a[1..] + b;
    } else {
      assert a + b == b;
    }
  }

  /** A list whose every row satisfies `p` is its own filter. */
  lemma {:induction false} FilterKeepsAll(rows: seq<Row>, p: Row -> bool)
    requires forall t :: t in rows ==> p(t)
    ensures Filter(rows, p) == rows
  {
    if rows != [] {
      FilterKeepsAll(rows[1..], p);
      assert [rows[0]] + rows[1..] == rows;
    }
  }

  /** A list none of whose rows satisfies `p` filters to nothing. */
  lemma {:induction false} FilterKeepsNone(rows: seq<Row>, p: Row -> bool)
    requires forall t :: t in rows ==> !p(t)
    ensures Filter(rows, p) == []
  {
    if rows != [] {
      FilterKeepsNone(rows[1..], p);
    }
  }

  /** Filtering twice by the same predicate is filtering once. */
  lemma FilterIdempotent(rows: seq<Row>, p: Row -> bool)
    ensures Filter(Filter(rows, p), p) == Filter(rows, p)
  {
    FilterKeepsAll(Filter(rows, p), p);
  }

  /** The nested loop of `union` from a given accumulated list: each right
      row is appended when no equal row is already accumulated. */
  function AppendAbsent(acc: seq<Row>, right: seq<Row>): (r: seq<Row>)
    ensures |acc| <= |r| <= |acc| + |right|
    decreases |right|
  {
    if right == [] then acc
    else AppendAbsent(if right[0] in acc then acc else acc + [right[0]], right[1..])
  }

  /** The rows of `left.union (right)`: at least the left rows and at most
      both operands' rows, and each of them is a row of one operand. */
  function UnionRows(left: seq<Row>, right: seq<Row>): (r: seq<Row>)
    ensures |left| <= |r| <= |left| + |right|
    ensures forall t :: t in r <==> t in left || t in right
  {
    AppendAbsentMembers(left, right);
    AppendAbsent(left, right)
  }

  /** An independent account of what `union` appends, read from the back
      of `right`: a right row is appended when neither the accumulated rows
      nor an earlier right row equals it. */
  function FirstOccurrences(acc: seq<Row>, right: seq<Row>): (r: seq<Row>)
    ensures forall t :: t in r ==> t in right && t !in acc
    decreases |right|
  {
    if right == [] then []
    else
      var init, x := right[..|right| - 1], right[|right| - 1];
      var earlier := FirstOccurrences(acc, init);
      assert forall t :: t in init ==> t in right;
      earlier + (if x in acc || x in init then [] else [x])
  }

  /** Appending to the right operand appends at most that row to the
      accumulation. */
  lemma {:induction false} AppendAbsentSnoc(acc: seq<Row>, right: seq<Row>, x: Row)
    ensures AppendAbsent(acc, right + [x]) ==
            if x in AppendAbsent(acc, right) then AppendAbsent(acc, right) else AppendAbsent(acc, right) + [x]
    decreases |right|
  {
    if right != [] {
      var next := if right[0] in acc then acc else acc + [right[0]];
      assert (right + [x])[0] == right[0] && (right + [x])[1..] == right[1..] + [x];
      AppendAbsentSnoc(next, right[1..], x);
    }
  }

  /** `union` keeps the left rows and then appends, in right order, the
      first occurrence of every right row the left operand lacks. */
  lemma {:induction false} AppendAbsentOrder(acc: seq<Row>, right: seq<Row>)
    ensures AppendAbsent(acc, right) == acc + FirstOccurrences(acc, right)
    decreases |right|
  {
    if right != [] {
      var init, x := right[..|right| - 1], right[|right| - 1];
      assert right == init + [x];
      AppendAbsentOrder(acc, init);
      AppendAbsentSnoc(acc, init, x);
      AppendAbsentMembers(acc, init);
      var a, added := AppendAbsent(acc, init), FirstOccurrences(acc, init);
      if x in acc || x in init {
        assert x in a;
        assert FirstOccurrences(acc, right) == added;
      } else {
        assert x !in a;
        assert FirstOccurrences(acc, right) == added + [x];
        assert (acc + added) + [x] == acc + (added + [x]);
      }
    }
  }

  /** No row occurs twice among the first occurrences. */
  lemma {:induction false} FirstOccurrencesNoDuplicates(acc: seq<Row>, right: seq<Row>)
    ensures NoDuplicates(FirstOccurrences(acc, right))
    decreases |right|
  {
    if right != [] {
      var init, x := right[..|right| - 1], right[|right| - 1];
      FirstOccurrencesNoDuplicates(acc, init);
      var earlier := FirstOccurrences(acc, init);
      if !(x in acc || x in init) {
        var r := earlier + [x];
        assert x !in earlier;
        forall i, j | 0 <= i < j < |r| ensures r[i] != r[j] {
          assert r[i] == earlier[i];
          if j == |earlier| {
            assert earlier[i] in earlier;
          } else {
            assert r[j] == earlier[j];
          }
        }
      }
    }
  }

  /** The accumulation keeps the accumulated list as its prefix. */
  lemma {:induction false} AppendAbsentPrefix(acc: seq<Row>, right: seq<Row>)
    ensures |acc| <= |AppendAbsent(acc, right)|
    ensures AppendAbsent(acc, right)[..|acc|] == acc
    decreases |right|
  {
    if right != [] {
      var next := if right[0] in acc then acc else acc + [right[0]];
      AppendAbsentPrefix(next, right[1..]);
      var r := AppendAbsent(next, right[1..]);
      assert r[..|acc|] == next[..|acc|];
    }
  }

  /** The accumulation loses no row: its rows are those accumulated and
      those on the right. */
  lemma {:induction false} AppendAbsentMembers(acc: seq<Row>, right: seq<Row>)
    ensures forall t :: t in AppendAbsent(acc, right) <==> t in acc || t in right
    decreases |right|
  {
    if right != [] {
      var next := if right[0] in acc then acc else acc + [right[0]];
      AppendAbsentMembers(next, right[1..]);
      assert forall t :: t in right <==> t == right[0] || t in right[1..] by {
        assert right == [right[0]] + right[1..];
      }
    }
  }

  /** What the accumulation appends are right rows not yet accumulated. */
  lemma AppendAbsentFresh(acc: seq<Row>, right: seq<Row>)
    ensures |acc| <= |AppendAbsent(acc, right)|
    ensures forall t :: t in AppendAbsent(acc, right)[|acc|..] ==> t in right && t !in acc
  {
    AppendAbsentOrder(acc, right);
    assert AppendAbsent(acc, right)[|acc|..] == FirstOccurrences(acc, right);
  }

  /** The accumulation never appends the same row twice. */
  lemma AppendAbsentNoDuplicates(acc: seq<Row>, right: seq<Row>)
    ensures |acc| <= |AppendAbsent(acc, right)|
    ensures NoDuplicates(AppendAbsent(acc, right)[|acc|..])
  {
    AppendAbsentOrder(acc, right);
    assert AppendAbsent(acc, right)[|acc|..] == FirstOccurrences(acc, right);
    FirstOccurrencesNoDuplicates(acc, right);
  }

  /** When no right row is accumulated already and no right row repeats,
      every right row is appended, in order. */
  lemma {:induction false} AppendAbsentDisjoint(acc: seq<Row>, right: seq<Row>)
    requires NoDuplicates(right)
    requires forall t :: t in right ==> t !in acc
    ensures AppendAbsent(acc, right) == acc + right
    decreases |right|
  {
    if right != [] {
      var x := right[0];
      assert x in right;
      forall t | t in right[1..] ensures t !in acc + [x] {
        var k :| 0 <= k < |right[1..]| && right[1..][k] == t;
        assert right[k + 1] == t;
      }
      AppendAbsentDisjoint(acc + [x], right[1..]);
      assert (acc + [x]) + right[1..] == acc + right;
    }
  }

  /** What the accumulation adds: it keeps the accumulated list as prefix,
      appends only right rows not yet present, never the same row twice,
      and loses no right row. */
  lemma AppendAbsentShape(acc: seq<Row>, right: seq<Row>)
    ensures |acc| <= |AppendAbsent(acc, right)|
    ensures AppendAbsent(acc, right)[..|acc|] == acc
    ensures forall t :: t in AppendAbsent(acc, right) <==> t in acc || t in right
    ensures forall t :: t in AppendAbsent(acc, right)[|acc|..] ==> t in right && t !in acc
    ensures NoDuplicates(AppendAbsent(acc, right)[|acc|..])
  {
    AppendAbsentPrefix(acc, right);
    AppendAbsentMembers(acc, right);
    AppendAbsentFresh(acc, right);
    AppendAbsentNoDuplicates(acc, right);
  }

  /** Set semantics of `union` (its rows are those of either operand) and,
      for duplicate-free operands, no row twice; the left rows come first
      and in order. */
  lemma UnionRowsSetSemantics(left: seq<Row>, right: seq<Row>)
    ensures |left| <= |UnionRows(left, right)|
    ensures UnionRows(left, right)[..|left|] == left
    ensures forall t :: t in UnionRows(left, right) <==> t in left || t in right
    ensures NoDuplicates(left) ==> NoDuplicates(UnionRows(left, right))
  {
    AppendAbsentShape(left, right);
    var r := UnionRows(left, right);
    if NoDuplicates(left) {
      forall i, j | 0 <= i < j < |r| ensures r[i] != r[j] {
        if j < |left| {
          assert r[i] == left[i] && r[j] == left[j];
        } else if i < |left| {
          assert r[j] == r[|left|..][j - |left|];
          assert r[j] in r[|left|..];
          assert r[i] == left[i] && r[i] in left;
        } else {
          assert r[i] == r[|left|..][i - |left|] && r[j] == r[|left|..][j - |left|];
        }
      }
    }
  }
}
