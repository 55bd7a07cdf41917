/** Schema computations of Table.java: the name-to-column map `col`, the
    array concatenation the joins use, the key rule of `proj`, and the
    domain lookup of `getDom`. */
module Schema {
  import opened Outcomes
  import opened Values

  /** The map the constructors build with
      `for (i = 0; i < attribute.length; i++) col.put (attribute[i], i)`:
      every name goes to its position, a later duplicate overwriting an
      earlier one, so each name ends at its last position. */
  function ColumnMap(attrs: seq<string>): (m: map<string, int>)
    ensures forall a :: a in m <==> a in attrs
    ensures forall a :: a in m ==> 0 <= m[a] < |attrs| && attrs[m[a]] == a
    ensures forall a, j :: a in m && m[a] < j < |attrs| ==> attrs[j] != a
  {
    if attrs == [] then map[]
    else ColumnMap(attrs[..|attrs| - 1])[attrs[|attrs| - 1] := |attrs| - 1]
  }

  predicate Distinct(s: seq<string>) {
    forall i, j :: 0 <= i < j < |s| ==> s[i] != s[j]
  }

  /** With distinct attribute names `col` is exactly the inverse of the
      attribute array. */
  lemma ColumnMapInverse(attrs: seq<string>)
    requires Distinct(attrs)
    ensures forall i :: 0 <= i < |attrs| ==> ColumnMap(attrs)[attrs[i]] == i
    ensures forall a :: a in ColumnMap(attrs) ==> attrs[ColumnMap(attrs)[a]] == a
  {
  }

  /** The map of a concatenated schema (what the joins build): a name that
      occurs on the right points at its right-hand column, shifted past
      the left columns; a left-only name keeps its left position. */
  lemma {:induction false} ColumnMapConcat(left: seq<string>, right: seq<string>, a: string)
    requires a in left || a in right
    ensures a in right ==> ColumnMap(left + right)[a] == |left| + ColumnMap(right)[a]
    ensures a !in right ==> ColumnMap(left + right)[a] == ColumnMap(left)[a]
    decreases |right|
  {
    if right == [] {
      assert left + right == left;
    } else {
      var init := right[..|right| - 1];
      assert (left + right)[..|left + right| - 1] == left + init;
      if a == right[|right| - 1] {
      } else {
        assert a in right <==> a in init;
        ColumnMapConcat(left, init, a);
      }
    }
  }

  /** `concat (arr1, arr2)`: `Arrays.copyOf` to the combined length, then
      `arraycopy` of the second array behind the first. */
  function Concat<T>(arr1: seq<T>, arr2: seq<T>): (result: seq<T>)
    ensures |result| == |arr1| + |arr2|
    ensures result[..|arr1|] == arr1 && result[|arr1|..] == arr2
  {
    seq(|arr1| + |arr2|, i requires 0 <= i < |arr1| + |arr2| =>
      if i < |arr1| then arr1[i] else arr2[i - |arr1|])
  }

  /** The key of a projection: the old key when `attrs` contains every key
      attribute (`containsAll`), otherwise all projected attributes. Either
      way every key attribute is a projected attribute. */
  function ProjKey(key: seq<string>, attrs: seq<string>): (newKey: seq<string>)
    ensures (forall k :: k in key ==> k in attrs) ==> newKey == key
    ensures (exists k :: k in key && k !in attrs) ==> newKey == attrs
    ensures forall k :: k in newKey ==> k in attrs
  {
    if forall k :: k in key ==> k in attrs then key else attrs
  }

  /** True when `col.get (a)` yields a column whose `domain` slot exists. */
  predicate Resolvable(col: map<string, int>, domain: seq<Domain>, a: string) {
    a in col && 0 <= col[a] < |domain|
  }

  /** The result of `getDom (attrs)`: `domain[col.get (attrs[j])]` for each
      `j` in order; the first name with no column makes the unboxing of
      `null` throw, the first column past the domain array overruns it. */
  function DomainsFor(attrs: seq<string>, col: map<string, int>, domain: seq<Domain>): (r: Outcome<seq<Domain>>)
    ensures r.Returned? <==> forall j :: 0 <= j < |attrs| ==> Resolvable(col, domain, attrs[j])
    ensures r.Returned? ==>
              && |r.value| == |attrs|
              && forall j :: 0 <= j < |attrs| ==> r.value[j] == domain[col[attrs[j]]]
    ensures r.Threw? ==>
              exists j :: && 0 <= j < |attrs|
                          && !Resolvable(col, domain, attrs[j])
                          && (forall k :: 0 <= k < j ==> Resolvable(col, domain, attrs[k]))
                          && r.exception == (if attrs[j] in col then IndexOutOfBounds else NullPointer)
  {
    if attrs == [] then Returned([])
    else if attrs[0] !in col then Threw(NullPointer)
    else if !(0 <= col[attrs[0]] < |domain|) then Threw(IndexOutOfBounds)
    else
      match DomainsFor(attrs[1..], col, domain)
      case Threw(e) =>
        var r := Threw(e);
        var j :| 0 <= j < |attrs| - 1 && !Resolvable(col, domain, attrs[1..][j]) &&
          (forall k :: 0 <= k < j ==> Resolvable(col, domain, attrs[1..][k])) &&
          e == (if attrs[1..][j] in col then IndexOutOfBounds else NullPointer);
        assert forall k :: 0 <= k < j + 1 ==> Resolvable(col, domain, attrs[k]) by {
          forall k | 0 <= k < j + 1 ensures Resolvable(col, domain, attrs[k]) {
            if k > 0 { assert attrs[k] == attrs[1..][k - 1]; }
          }
        }
        r
      case Returned(rest) =>
        var r := Returned([domain[col[attrs[0]]]] + rest);
        assert forall j :: 0 <= j < |attrs| ==> Resolvable(col, domain, attrs[j]) by {
          forall j | 0 <= j < |attrs| ensures Resolvable(col, domain, attrs[j]) {
            if j > 0 { assert attrs[j] == attrs[1..][j - 1]; }
          }
        }
        r
  }
}
