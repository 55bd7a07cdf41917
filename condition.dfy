/** The condition evaluator of `selt (String condition)`: `satifies` for one
    row, and the row loop of `selt` as a specification function. */
module Condition {
  import opened Outcomes
  import opened Values
  import opened Rows

  /** The operators the `switch` of `satifies` recognises. */
  const Operators: set<string> := {"==", "!=", "<", "<=", ">", ">="}

  /** The case of the `switch` chosen by `op`, applied to the sign `c` of
      `compareTo`. */
  function Holds(op: string, c: int): (r: bool)
    requires op in Operators
    ensures c == 0 ==> (r <==> op == "==" || op == "<=" || op == ">=")
    ensures c < 0 ==> (r <==> op == "!=" || op == "<" || op == "<=")
    ensures c > 0 ==> (r <==> op == "!=" || op == ">" || op == ">=")
  {
    if op == "==" then c == 0
    else if op == "!=" then c != 0
    else if op == "<" then c < 0
    else if op == "<=" then c <= 0
    else if op == ">" then c > 0
    else c >= 0
  }

  /** `satifies (t, colNo, op, value)` with the table's `domain` array.
      `t[colNo]` is read before the `try` and overruns a short row;
      `domain[colNo]` is read inside it, so a short domain array, like a
      literal that does not convert to the column's domain, makes the
      `catch` return false; an unknown operator returns false without
      comparing; otherwise `compareTo` decides, throwing when the cell is
      not of the column's class. */
  function Satisfies(t: Row, colNo: nat, op: string, value: string,
                     domain: seq<Domain>, parsers: Parsers): (r: Outcome<bool>)
    ensures colNo >= |t| ==> r == Threw(IndexOutOfBounds)
    ensures colNo < |t| && colNo >= |domain| ==> r == Returned(false)
    ensures (colNo < |t| && colNo < |domain| && ConvertLiteral(domain[colNo], value, parsers).None?)
              ==> r == Returned(false)
    ensures colNo < |t| && colNo < |domain| && op !in Operators ==> r == Returned(false)
    ensures r == Returned(true) ==> op in Operators
    ensures r.Returned? && op == "==" ==>
              (r.value <==> colNo < |t| && colNo < |domain| &&
                            ConvertLiteral(domain[colNo], value, parsers) == Some(t[colNo]))
    ensures r.Returned? && op == "!=" ==>
              (r.value <==> colNo < |t| && colNo < |domain| &&
                            ConvertLiteral(domain[colNo], value, parsers).Some? &&
                            ConvertLiteral(domain[colNo], value, parsers) != Some(t[colNo]))
    ensures r == Threw(ClassCast) <==>
              colNo < |t| && colNo < |domain| && op in Operators &&
              ConvertLiteral(domain[colNo], value, parsers).Some? &&
              ClassOf(t[colNo]) != ClassOf(ConvertLiteral(domain[colNo], value, parsers).value)
    ensures colNo < |t| && colNo < |domain| && op in Operators &&
            ConvertLiteral(domain[colNo], value, parsers).Some? &&
            CompareTo(t[colNo], ConvertLiteral(domain[colNo], value, parsers).value).Some? ==>
              r == Returned(Holds(op, CompareTo(t[colNo], ConvertLiteral(domain[colNo], value, parsers).value).value))
  {
    if colNo >= |t| then Threw(IndexOutOfBounds)
    else if colNo >= |domain| then Returned(false)
    else
      match ConvertLiteral(domain[colNo], value, parsers)
      case None => Returned(false)
      case Some(val) =>
        if op !in Operators then Returned(false)
        else
          match CompareTo(t[colNo], val)
          case None => Threw(ClassCast)
          case Some(c) => Returned(Holds(op, c))
  }

  /** Where the literal converts and the comparison runs, `!=`, `>=` and
      `<=` are the negations of `==`, `<` and `>`, and `<=` is `<` or `==`.
      (A literal that fails to convert makes every operator false.) */
  lemma SatisfiesComplements(t: Row, colNo: nat, value: string, domain: seq<Domain>, parsers: Parsers)
    requires colNo < |t| && colNo < |domain|
    requires ConvertLiteral(domain[colNo], value, parsers).Some?
    requires Satisfies(t, colNo, "==", value, domain, parsers).Returned?
    ensures var sat := (op: string) => Satisfies(t, colNo, op, value, domain, parsers);
      && sat("!=").Returned? && sat("<").Returned? && sat("<=").Returned?
      && sat(">").Returned? && sat(">=").Returned?
      && sat("!=").value == !sat("==").value
      && sat(">=").value == !sat("<").value
      && sat("<=").value == !sat(">").value
      && sat("<=").value == (sat("<").value || sat("==").value)
  {
  }

  /** Reading a cell against a literal and the literal against the cell
      give converse answers: `t[c] < v` exactly when `v > t[c]`. */
  lemma CompareConverse(x: Value, v: Value)
    requires CompareTo(x, v).Some?
    ensures Holds("<", CompareTo(x, v).value) == Holds(">", CompareTo(v, x).value)
    ensures Holds("<=", CompareTo(x, v).value) == Holds(">=", CompareTo(v, x).value)
  {
    CompareToAntisymmetric(x, v);
  }

  /** The loop of `selt (condition)` over `rows` once `token = condition.split
      (" ")` is known and `colNo = col.get (token[0])` has been looked up
      (`None` for `null`). Every iteration unboxes `colNo` and reads
      `token[1]` and `token[2]` before calling `satifies`, so a missing
      column or a short condition throws at the first row; the first row on
      which `satifies` throws ends the loop with that exception. */
  function SelectRows(rows: seq<Row>, colNo: Option<nat>, token: seq<string>,
                      domain: seq<Domain>, parsers: Parsers): (r: Outcome<seq<Row>>)
    ensures r.Returned? ==> |r.value| <= |rows| && forall t :: t in r.value ==> t in rows
  {
    if rows == [] then Returned([])
    else if colNo.None? then Threw(NullPointer)
    else if |token| < 3 then Threw(IndexOutOfBounds)
    else
      match Satisfies(rows[0], colNo.value, token[1], token[2], domain, parsers)
      case Threw(e) => Threw(e)
      case Returned(keep) =>
        match SelectRows(rows[1..], colNo, token, domain, parsers)
        case Threw(e) => Threw(e)
        case Returned(rest) => Returned(if keep then [rows[0]] + rest else rest)
  }

  /** `selt (condition)` is `selt (predicate)` with the predicate "satifies
      holds": when no row makes `satifies` throw, the selected rows are
      exactly the filtered ones in their order; otherwise it throws. */
  lemma {:induction false} SelectRowsIsFilter(rows: seq<Row>, colNo: nat, token: seq<string>,
                                             domain: seq<Domain>, parsers: Parsers)
    requires |token| >= 3
    ensures SelectRows(rows, Some(colNo), token, domain, parsers).Returned? <==>
              forall t :: t in rows ==> Satisfies(t, colNo, token[1], token[2], domain, parsers).Returned?
    ensures SelectRows(rows, Some(colNo), token, domain, parsers).Returned? ==>
              SelectRows(rows, Some(colNo), token, domain, parsers).value ==
              Filter(rows, t => Satisfies(t, colNo, token[1], token[2], domain, parsers) == Returned(true))
  {
    if rows != [] {
      SelectRowsIsFilter(rows[1..], colNo, token, domain, parsers);
      assert forall t :: t in rows <==> t == rows[0] || t in rows[1..] by {
        assert rows == [rows[0]] + rows[1..];
      }
    }
  }

  /** Selecting again with the same condition changes nothing. */
  lemma {:induction false} SelectRowsIdempotent(rows: seq<Row>, colNo: Option<nat>, token: seq<string>,
                                               domain: seq<Domain>, parsers: Parsers)
    requires SelectRows(rows, colNo, token, domain, parsers).Returned?
    ensures var once := SelectRows(rows, colNo, token, domain, parsers).value;
            SelectRows(once, colNo, token, domain, parsers) == Returned(once)
  {
    if rows != [] {
      SelectRowsIdempotent(rows[1..], colNo, token, domain, parsers);
      var rest := SelectRows(rows[1..], colNo, token, domain, parsers).value;
      var keep := Satisfies(rows[0], colNo.value, token[1], token[2], domain, parsers).value;
      if keep {
        var once := [rows[0]] + rest;
        assert once[0] == rows[0] && once[1..] == rest;
      }
    }
  }
}
