/** Concrete scenarios on the sample data of Bank.java (the `deposit`,
    `loan` and `customer` tables), worked out with the model. Double
    balances appear as ranks that respect their numeric order. */
module BankScenarios {
  import opened Outcomes
  import opened Values
  import opened JavaStrings
  import opened Schema
  import opened Rows
  import opened Condition
  import opened Tables

  const DepositAttributes: seq<string> := ["bname", "accno", "cname", "balance"]
  const DepositDomains: seq<Domain> := [StringClass, IntegerClass, StringClass, DoubleClass]
  const DepositClassNames: seq<string> := ["String", "Integer", "String", "Double"]
  const CustomerDomains: seq<Domain> := [StringClass, StringClass, StringClass]

  const Downtown901: Row := [StringV("Downtown"), IntegerV(901), StringV("Peter"), DoubleV(1000)]
  const Main902: Row := [StringV("Main"), IntegerV(902), StringV("Paul"), DoubleV(2000)]
  const Alps903: Row := [StringV("Alps"), IntegerV(903), StringV("Paul"), DoubleV(3000)]
  const Lake904: Row := [StringV("Lake"), IntegerV(904), StringV("Paul"), DoubleV(1000)]
  const Main905: Row := [StringV("Main"), IntegerV(905), StringV("Mary"), DoubleV(1000)]
  const Alps906: Row := [StringV("Alps"), IntegerV(906), StringV("Mary"), DoubleV(2000)]
  const Lake907: Row := [StringV("Lake"), IntegerV(907), StringV("Joe"), DoubleV(1500)]

  const Lake1001: Row := [StringV("Lake"), IntegerV(1001), StringV("Peter"), DoubleV(1000)]
  const Alps1002: Row := [StringV("Alps"), IntegerV(1002), StringV("Peter"), DoubleV(2000)]
  const Main1003: Row := [StringV("Main"), IntegerV(1003), StringV("Paul"), DoubleV(1000)]
  const Alps1004: Row := [StringV("Alps"), IntegerV(1004), StringV("Paul"), DoubleV(2000)]
  const Main1005: Row := [StringV("Main"), IntegerV(1005), StringV("Mary"), DoubleV(1500)]
  const Downtown1006: Row := [StringV("Downtown"), IntegerV(1006), StringV("Mary"), DoubleV(2000)]

  /** The seven rows added to `deposit`, in order. */
  const DepositRows: seq<Row> := [Downtown901, Main902, Alps903, Lake904, Main905, Alps906, Lake907]

  /** The six rows added to `loan`, in order. */
  const LoanRows: seq<Row> := [Lake1001, Alps1002, Main1003, Alps1004, Main1005, Downtown1006]

  /** No numeric literal occurs in these conditions. */
  const NoNumbers := Parsers(s => None, s => None, s => None, s => None)

  /** `"bname accno cname balance"` splits into the deposit attributes. */
  lemma DepositAttributesSplit()
    ensures Split("bname accno cname balance") == DepositAttributes
  {
    assert JoinSpaces(DepositAttributes) == "bname accno cname balance";
    JoinSplit(DepositAttributes);
  }

  /** `"String Integer String Double"` splits into class names that
      `findClass` resolves to the deposit domains. */
  lemma DepositDomainsSplit()
    ensures Split("String Integer String Double") == DepositClassNames
  {
    assert JoinSpaces(DepositClassNames) == "String Integer String Double";
    JoinSplit(DepositClassNames);
  }

  /** `findClass` resolves the deposit class names to the deposit domains. */
  lemma DepositClassesResolve()
    ensures forall i :: 0 <= i < |DepositClassNames| ==> FindClass(DepositClassNames[i]) == DepositDomains[i]
  {
  }

  /** The column map of `deposit` sends each attribute to its position:
      `bname` to 0, `accno` to 1, `cname` to 2 and `balance` to 3. */
  lemma DepositColumns()
    ensures forall i :: 0 <= i < |DepositAttributes| ==> ColumnMap(DepositAttributes)[DepositAttributes[i]] == i
  {
  }

  lemma QuotedConditionTokens()
    ensures Split("bname == 'Alps'") == ["bname", "==", "'Alps'"]
  {
    assert JoinSpaces(["bname", "==", "'Alps'"]) == "bname == 'Alps'";
    JoinSplit(["bname", "==", "'Alps'"]);
  }

  lemma UnquotedConditionTokens()
    ensures Split("bname == Alps") == ["bname", "==", "Alps"]
  {
    assert JoinSpaces(["bname", "==", "Alps"]) == "bname == Alps";
    JoinSplit(["bname", "==", "Alps"]);
  }

  /** A proof device, not part of the model: the recursion of `Filter`
      without its membership facts, which are costly to instantiate on
      concrete rows. `FilterUnrolledIsFilter` shows the two agree. */
  function FilterUnrolled(rows: seq<Row>, p: Row -> bool): seq<Row> {
    if rows == [] then [] else (if p(rows[0]) then [rows[0]] else []) + FilterUnrolled(rows[1..], p)
  }

  lemma {:induction false} FilterUnrolledIsFilter(rows: seq<Row>, p: Row -> bool)
    ensures FilterUnrolled(rows, p) == Filter(rows, p)
  {
    if rows != [] {
      FilterUnrolledIsFilter(rows[1..], p);
    }
  }

  /** Any predicate that holds on the two Alps deposit rows and on no
      other keeps exactly those two, in table order. */
  lemma FilterDepositAlps(p: Row -> bool)
    requires p(Alps903) && p(Alps906)
    requires !p(Downtown901) && !p(Main902) && !p(Lake904) && !p(Main905) && !p(Lake907)
    ensures Filter(DepositRows, p) == [Alps903, Alps906]
  {
    var r := DepositRows;
    assert FilterUnrolled(r[6..], p) == [];
    assert FilterUnrolled(r[5..], p) == [Alps906];
    assert FilterUnrolled(r[4..], p) == [Alps906];
    assert FilterUnrolled(r[3..], p) == [Alps906];
    assert FilterUnrolled(r[2..], p) == [Alps903, Alps906];
    assert FilterUnrolled(r[1..], p) == [Alps903, Alps906];
    assert FilterUnrolled(r, p) == [Alps903, Alps906];
    FilterUnrolledIsFilter(r, p);
  }

  /** `deposit.selt ("bname == 'Alps'")`, the query of Bank.java, on the
      seven deposit rows: the quotes stay part of the literal, so no branch
      name equals it and no row is selected. */
  lemma QuotedAlpsSelectsNothing()
    ensures SelectRows(DepositRows, Some(0), ["bname", "==", "'Alps'"], DepositDomains, NoNumbers)
            == Returned([])
  {
    var token := ["bname", "==", "'Alps'"];
    var p := t => Satisfies(t, 0, token[1], token[2], DepositDomains, NoNumbers) == Returned(true);
    forall t | t in DepositRows ensures Satisfies(t, 0, token[1], token[2], DepositDomains, NoNumbers) == Returned(false) {
    }
    SelectRowsIsFilter(DepositRows, 0, token, DepositDomains, NoNumbers);
    FilterKeepsNone(DepositRows, p);
  }

  /** Without quotes (a variant the driver does not run) the same query
      selects the two Alps rows of the seven. */
  lemma UnquotedAlpsSelectsAlps()
    ensures SelectRows(DepositRows, Some(0), ["bname", "==", "Alps"], DepositDomains, NoNumbers)
            == Returned([Alps903, Alps906])
  {
    var token := ["bname", "==", "Alps"];
    var p := t => Satisfies(t, 0, token[1], token[2], DepositDomains, NoNumbers) == Returned(true);
    forall t | t in DepositRows ensures Satisfies(t, 0, token[1], token[2], DepositDomains, NoNumbers).Returned? {
    }
    SelectRowsIsFilter(DepositRows, 0, token, DepositDomains, NoNumbers);
    FilterDepositAlps(p);
  }

  /** The predicate `t -> t[deposit.col.get ("bname")].equals ("Alps")`
      once the column map has given 0 (see `DepositColumns`). */
  predicate IsAlps(t: Row) {
    |t| > 0 && t[0] == StringV("Alps")
  }

  /** `deposit.selt (t -> t[deposit.col.get ("bname")].equals ("Alps"))` on
      the seven deposit rows keeps the two Alps rows. */
  lemma PredicateAlpsSelectsAlps()
    ensures Filter(DepositRows, IsAlps) == [Alps903, Alps906]
  {
    FilterDepositAlps(IsAlps);
  }

  /** A condition on an attribute the table lacks throws as soon as there
      is a row to test, and returns an empty selection otherwise. */
  lemma UnknownAttributeThrows()
    ensures SelectRows([Downtown901], None, ["branch", "==", "Alps"], DepositDomains, NoNumbers)
            == Threw(NullPointer)
    ensures SelectRows([], None, ["branch", "==", "Alps"], DepositDomains, NoNumbers) == Returned([])
  {
  }

  /** `getDom` of two resolvable names. */
  lemma DomainsForPair(a: string, b: string, col: map<string, int>, domain: seq<Domain>)
    requires Resolvable(col, domain, a) && Resolvable(col, domain, b)
    ensures DomainsFor([a, b], col, domain) == Returned([domain[col[a]], domain[col[b]]])
  {
    var r := DomainsFor([a, b], col, domain);
    assert forall j :: 0 <= j < 2 ==> Resolvable(col, domain, [a, b][j]);
    assert r.Returned? && r.value == [r.value[0], r.value[1]];
  }

  /** `deposit.proj ("bname cname")`: since the key `accno` is not
      projected, the projected attributes become the key. */
  lemma DepositProjectionKey()
    ensures ProjKey(["accno"], ["bname", "cname"]) == ["bname", "cname"]
  {
    assert "accno" !in ["bname", "cname"];
  }

  /** `deposit.proj ("bname cname")`: both names resolve to `String`
      columns. */
  lemma DepositProjection()
    ensures DomainsFor(["bname", "cname"], ColumnMap(DepositAttributes), DepositDomains)
            == Returned([StringClass, StringClass])
  {
    DepositColumns();
    var col := ColumnMap(DepositAttributes);
    assert col[DepositAttributes[0]] == 0 && col[DepositAttributes[2]] == 2;
    DomainsForPair(DepositAttributes[0], DepositAttributes[2], col, DepositDomains);
  }

  /** Every deposit account number is below 1000 and every loan number
      above, so no loan row equals a deposit row, and the loan numbers
      differ from each other. */
  lemma LoanRowsFresh()
    ensures NoDuplicates(LoanRows)
    ensures forall t :: t in LoanRows ==> t !in DepositRows
  {
  }

  /** `deposit.union (loan)` on the sample data: no loan row is already a
      deposit row, so all six loan rows follow the seven deposit rows. */
  lemma DepositUnionLoan()
    ensures UnionRows(DepositRows, LoanRows) == DepositRows + LoanRows
  {
    LoanRowsFresh();
    AppendAbsentDisjoint(DepositRows, LoanRows);
  }

  /** On data adapted from the sample (a second operand that repeats the
      deposit row `Main902`, which the sample's loans never do), `union`
      appends the new row and skips the repeated one. */
  lemma UnionSkipsPresentRow()
    ensures UnionRows([Downtown901, Main902], [Lake1001, Main902]) == [Downtown901, Main902, Lake1001]
  {
    var right := [Lake1001, Main902];
    var grown := [Downtown901, Main902] + [Lake1001];
    assert Lake1001 !in [Downtown901, Main902];
    assert right[1..] == [Main902];
    assert AppendAbsent([Downtown901, Main902], right) == AppendAbsent(grown, [Main902]);
    assert Main902 in grown;
    assert AppendAbsent(grown, [Main902]) == AppendAbsent(grown, []);
  }

  /** Part of the driver: `deposit` with its seven sample rows. */
  method SampleDeposit() returns (deposit: Table)
    ensures fresh(deposit) && deposit.Valid()
    ensures deposit.domain == DepositDomains && deposit.tuples == DepositRows
  {
    deposit := new Table("deposit", DepositAttributes, DepositDomains, ["accno"]);
    var same := deposit.Add(Downtown901);
    same := same.Add(Main902);
    same := same.Add(Alps903);
    same := same.Add(Lake904);
    same := same.Add(Main905);
    same := same.Add(Alps906);
    same := same.Add(Lake907);
  }

  /** Part of the driver: `loan` with its six sample rows. */
  method SampleLoan() returns (loan: Table)
    ensures fresh(loan) && loan.Valid()
    ensures loan.domain == DepositDomains && loan.tuples == LoanRows
  {
    loan := new Table("loan", ["bname", "loanno", "cname", "amount"], DepositDomains, ["loanno"]);
    var same := loan.Add(Lake1001);
    same := same.Add(Alps1002);
    same := same.Add(Main1003);
    same := same.Add(Alps1004);
    same := same.Add(Main1005);
    same := same.Add(Downtown1006);
  }

  /** Part of the driver: `deposit.union (loan)` on the sample tables, which
      are compatible. */
  method DepositUnionQuery()
  {
    var counter := new NameCounter();
    var deposit := SampleDeposit();
    var loan := SampleLoan();
    var both := deposit.Union(loan, counter);
    DepositUnionLoan();
    assert both != null && both.tuples == DepositRows + LoanRows;
    assert counter.count == 1;
  }

  /** A union the driver does not perform: `deposit` with the three-column
      `customer` is incompatible, so `union` returns `null` and leaves the
      counter alone. */
  method IncompatibleUnionIsNull()
  {
    var counter := new NameCounter();
    var deposit := new Table("deposit", DepositAttributes, DepositDomains, ["accno"]);
    var customer := new Table("customer", ["cname", "street", "ccity"], CustomerDomains, ["cname"]);
    var none := deposit.Union(customer, counter);
    assert none == null && counter.count == 0;
  }

  /** Part of the driver: `deposit.join ("cname", "cname", customer)` has
      both schemas side by side and, as written, no rows. */
  method DepositCustomerJoin()
  {
    var counter := new NameCounter();
    var deposit := new Table("deposit", DepositAttributes, DepositDomains, ["accno"]);
    var customer := new Table("customer", ["cname", "street", "ccity"], CustomerDomains, ["cname"]);
    var joined := deposit.EquiJoin("cname", "cname", customer, counter);
    assert joined.attribute == DepositAttributes + ["cname", "street", "ccity"];
    assert joined.tuples == [] && counter.count == 1;
  }
}
