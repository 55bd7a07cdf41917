/** The `Table` class of Table.java: a named relation with its schema, a
    mutable list of tuples and the name-to-column map, plus the relational
    operators that derive new tables from it.

    The static counter `count` that numbers derived tables becomes a
    `NameCounter` object handed to every operator. */
module Tables {
  import opened Outcomes
  import opened Values
  import opened JavaStrings
  import opened Schema
  import opened Rows
  import opened Condition

  /** `count++` on a Java `int`: the largest int wraps to the smallest. */
  function Successor(c: int32): (r: int32)
    ensures r == (c + 1 + 0x8000_0000) % 0x1_0000_0000 - 0x8000_0000
  {
    if c == 0x7fff_ffff then -0x8000_0000 else c + 1
  }

  /** The name `name + count` of a table derived while the counter reads `n`:
      it extends `base`, and what follows `base` reads back as `n`. */
  function DerivedName(base: string, n: int32): (r: string)
    ensures base < r
    ensures IsDecimal(r[|base|..]) && DecimalValue(r[|base|..]) == n
  {
    DecimalRoundTrip(n);
    var r := base + DecimalString(n);
    assert r[|base|..] == DecimalString(n);
    r
  }

  /** Two derivations from one table while the counter reads different
      values get different names. */
  lemma DerivedNamesDiffer(base: string, m: int32, n: int32)
    requires m != n
    ensures DerivedName(base, m) != DerivedName(base, n)
  {
    DecimalStringInjective(m, n, base);
  }

  /** The static `count` shared by all tables. */
  class NameCounter {
    var count: int32

    constructor ()
      ensures count == 0
    {
      count := 0;
    }

    /** `count++`: yields the current value and advances the counter. */
    method Next() returns (n: int32)
      modifies this
      ensures n == old(count) && count == Successor(old(count))
    {
      n := count;
      count := Successor(count);
    }
  }

  class Table {
    const name: string
    const attribute: seq<string>
    const domain: seq<Domain>
    const key: seq<string>
    var tuples: seq<Row>
    const col: map<string, int>

    /** `col` is the map the constructor loop builds from `attribute`. */
    ghost predicate Valid() {
      col == ColumnMap(attribute)
    }

    /** The constructor loop `for (i ...) col.put (attribute[i], i)`. */
    static method BuildColumnMap(attribute: seq<string>) returns (col: map<string, int>)
      ensures col == ColumnMap(attribute)
    {
      col := map[];
      var i := 0;
      while i < |attribute|
        invariant 0 <= i <= |attribute|
        invariant col == ColumnMap(attribute[..i])
      {
        assert attribute[..i + 1][..i] == attribute[..i];
        col := col[attribute[i] := i];
        i := i + 1;
      }
      assert attribute[..i] == attribute;
    }

    /** `findClass`: a fresh array of classes, each slot resolved by name or
        left `null` (`Unresolved`) when the lookup fails. */
    static method FindClasses(className: seq<string>) returns (classes: seq<Domain>)
      ensures |classes| == |className|
      ensures forall i :: 0 <= i < |className| ==> classes[i] == FindClass(className[i])
    {
      var classArray := new Domain[|className|](_ => Unresolved);
      var i := 0;
      while i < |className|
        invariant 0 <= i <= |className|
        invariant forall k :: 0 <= k < i ==> classArray[k] == FindClass(className[k])
        invariant forall k :: i <= k < |className| ==> classArray[k] == Unresolved
      {
        var found := FindClass(className[i]);
        if found != Unresolved {
          classArray[i] := found;
        }
        i := i + 1;
      }
      classes := classArray[..];
    }

    /** An empty table from its meta-data. */
    constructor (name: string, attribute: seq<string>, domain: seq<Domain>, key: seq<string>)
      ensures this.name == name && this.attribute == attribute
      ensures this.domain == domain && this.key == key
      ensures tuples == [] && Valid()
    {
      this.name := name;
      this.attribute := attribute;
      this.domain := domain;
      this.key := key;
      tuples := [];
      var m := BuildColumnMap(attribute);
      col := m;
    }

    /** An empty table from space-separated specification strings. */
    constructor FromStrings(name: string, attributes: string, domains: string, key: string)
      ensures this.name == name && attribute == Split(attributes) && this.key == Split(key)
      ensures |domain| == |Split(domains)|
      ensures forall i :: 0 <= i < |domain| ==> domain[i] == FindClass(Split(domains)[i])
      ensures tuples == [] && Valid()
    {
      var classes := FindClasses(Split(domains));
      this.name := name;
      attribute := Split(attributes);
      domain := classes;
      this.key := Split(key);
      tuples := [];
      var m := BuildColumnMap(Split(attributes));
      col := m;
    }

    /** A table from its meta-data and a list of tuples. */
    constructor WithTuples(name: string, attribute: seq<string>, domain: seq<Domain>,
                           key: seq<string>, tuples: seq<Row>)
      ensures this.name == name && this.attribute == attribute
      ensures this.domain == domain && this.key == key
      ensures this.tuples == tuples && Valid()
    {
      this.name := name;
      this.attribute := attribute;
      this.domain := domain;
      this.key := key;
      this.tuples := tuples;
      var m := BuildColumnMap(attribute);
      col := m;
    }

    /** `add (tup)`: appends the tuple in place without any type check and
        returns the table itself for chaining. */
    method Add(tup: Row) returns (self: Table)
      modifies this
      ensures self == this
      ensures tuples == old(tuples) + [tup]
      ensures |tuples| == |old(tuples)| + 1 && tuples[..|old(tuples)|] == old(tuples)
    {
      tuples := tuples + [tup];
      self := this;
    }

    /** `col.get (a)` as a column number, `None` for `null`. */
    function ColumnNumber(a: string): (c: Option<nat>)
      requires Valid()
      ensures c.Some? <==> a in attribute
      ensures c.Some? ==> c.value < |attribute| && attribute[c.value] == a
    {
      if a in col then Some(col[a]) else None
    }

    /** `getDom (attrs)`: the domain of each named attribute, in order. */
    method GetDom(attrs: seq<string>) returns (r: Outcome<seq<Domain>>)
      ensures r == DomainsFor(attrs, col, domain)
    {
      var obj := new Domain[|attrs|](_ => Unresolved);
      var j := 0;
      while j < |attrs|
        invariant 0 <= j <= |attrs|
        invariant forall k :: 0 <= k < j ==> Resolvable(col, domain, attrs[k]) && obj[k] == domain[col[attrs[k]]]
      {
        if attrs[j] !in col {
          return Threw(NullPointer);
        }
        var c := col[attrs[j]];
        if !(0 <= c < |domain|) {
          return Threw(IndexOutOfBounds);
        }
        obj[j] := domain[c];
        j := j + 1;
      }
      ghost var expected := DomainsFor(attrs, col, domain);
      assert expected.Returned? && |expected.value| == obj.Length;
      assert forall k :: 0 <= k < obj.Length ==> obj[..][k] == expected.value[k];
      assert obj[..] == expected.value;
      return Returned(obj[..]);
    }

    /** `proj (attrStr)`: the schema of the projection onto the named
        attributes, in the given order, with the key rule of `ProjKey`. The
        code builds no rows: the result is always empty. */
    method Proj(attrStr: string, counter: NameCounter) returns (r: Outcome<Table>)
      modifies counter
      ensures DomainsFor(Split(attrStr), col, domain).Threw? ==>
                && r == Threw(DomainsFor(Split(attrStr), col, domain).exception)
                && counter.count == old(counter.count)
      ensures DomainsFor(Split(attrStr), col, domain).Returned? ==>
                && r.Returned? && fresh(r.value) && r.value.Valid()
                && r.value.name == DerivedName(name, old(counter.count))
                && r.value.attribute == Split(attrStr)
                && r.value.domain == DomainsFor(Split(attrStr), col, domain).value
                && r.value.key == ProjKey(key, Split(attrStr))
                && r.value.tuples == []
                && counter.count == Successor(old(counter.count))
    {
      var attrs := Split(attrStr);
      var newDom := GetDom(attrs);
      if newDom.Threw? {
        return Threw(newDom.exception);
      }
      var newKey := ProjKey(key, attrs);
      var rows: seq<Row> := [];
      var n := counter.Next();
      var t := new Table.WithTuples(name + DecimalString(n), attrs, newDom.value, newKey, rows);
      r := Returned(t);
    }

    /** `selt (predicate)`: a new table with the same schema holding the
        rows that satisfy the predicate, in order. */
    method SeltPredicate(p: Row -> bool, counter: NameCounter) returns (r: Table)
      modifies counter
      ensures fresh(r) && r.Valid()
      ensures r.name == DerivedName(name, old(counter.count))
      ensures r.attribute == attribute && r.domain == domain && r.key == key
      ensures r.tuples == Filter(tuples, p)
      ensures counter.count == Successor(old(counter.count))
    {
      var n := counter.Next();
      r := new Table.WithTuples(name + DecimalString(n), attribute, domain, key, Filter(tuples, p));
    }

    /** The `for` loop of `selt (condition)` over `rows`, once the tokens
        and the column number are known: it evaluates exactly `SelectRows`. */
    static method SelectLoop(rows: seq<Row>, colNo: Option<nat>, token: seq<string>,
                             domain: seq<Domain>, parsers: Parsers) returns (r: Outcome<seq<Row>>)
      ensures r == SelectRows(rows, colNo, token, domain, parsers)
    {
      ghost var sel := SelectRows(rows, colNo, token, domain, parsers);
      var kept: seq<Row> := [];
      assert rows[0..] == rows;
      if sel.Returned? {
        assert kept + sel.value == sel.value;
      }
      var i := 0;
      while i < |rows|
        invariant 0 <= i <= |rows|
        invariant sel == match SelectRows(rows[i..], colNo, token, domain, parsers)
                         case Threw(e) => Threw(e)
                         case Returned(rest) => Returned(kept + rest)
      {
        var t := rows[i];
        assert rows[i..][0] == t && rows[i..][1..] == rows[i + 1..];
        if colNo.None? {
          return Threw(NullPointer);
        }
        if |token| < 3 {
          return Threw(IndexOutOfBounds);
        }
        var sat := Satisfies(t, colNo.value, token[1], token[2], domain, parsers);
        if sat.Threw? {
          return Threw(sat.exception);
        }
        ghost var later := SelectRows(rows[i + 1..], colNo, token, domain, parsers);
        if sat.value {
          if later.Returned? {
            assert kept + ([t] + later.value) == (kept + [t]) + later.value;
          }
          kept := kept + [t];
        }
        i := i + 1;
      }
      assert kept + [] == kept;
      return Returned(kept);
    }

    /** `selt (condition)`: splits the condition into tokens, looks up the
        column of the first and keeps the rows for which `satifies` holds
        with the second and third, in order. An empty token list, a missing
        column or a short condition throw, the latter two only when there is
        a row to test. */
    method SeltCondition(condition: string, parsers: Parsers, counter: NameCounter) returns (r: Outcome<Table>)
      requires Valid()
      modifies counter
      ensures Split(condition) == [] ==>
                r == Threw(IndexOutOfBounds) && counter.count == old(counter.count)
      ensures Split(condition) != [] ==>
                var sel := SelectRows(tuples, ColumnNumber(Split(condition)[0]), Split(condition), domain, parsers);
                && (sel.Threw? ==> r == Threw(sel.exception) && counter.count == old(counter.count))
                && (sel.Returned? ==>
                      && r.Returned? && fresh(r.value) && r.value.Valid()
                      && r.value.name == DerivedName(name, old(counter.count))
                      && r.value.attribute == attribute && r.value.domain == domain && r.value.key == key
                      && r.value.tuples == sel.value
                      && counter.count == Successor(old(counter.count)))
    {
      var token := Split(condition);
      if token == [] {
        return Threw(IndexOutOfBounds);
      }
      var colNo := ColumnNumber(token[0]);
      var rows := SelectLoop(tuples, colNo, token, domain, parsers);
      if rows.Threw? {
        return Threw(rows.exception);
      }
      var n := counter.Next();
      var table := new Table.WithTuples(name + DecimalString(n), attribute, domain, key, rows.value);
      r := Returned(table);
    }

    /** `compatible (table2)`: same arity and, position by position, the
        same domain class; otherwise the `flaw` result, false. */
    method Compatible(table2: Table) returns (ok: bool)
      ensures ok <==> domain == table2.domain
    {
      if |domain| != |table2.domain| {
        return false;
      }
      var j := 0;
      while j < |domain|
        invariant 0 <= j <= |domain|
        invariant domain[..j] == table2.domain[..j]
      {
        if domain[j] != table2.domain[j] {
          return false;
        }
        assert domain[..j + 1] == domain[..j] + [domain[j]];
        assert table2.domain[..j + 1] == table2.domain[..j] + [table2.domain[j]];
        j := j + 1;
      }
      assert domain == domain[..j] && table2.domain == table2.domain[..j];
      return true;
    }

    /** `union (table2)`: `null` for incompatible tables; otherwise a copy of
        this table's rows followed by each row of `table2` that no row
        accumulated so far equals, under this table's schema. Neither
        operand changes. */
    method Union(table2: Table, counter: NameCounter) returns (r: Table?)
      modifies counter
      ensures unchanged(this, table2)
      ensures r == null <==> domain != table2.domain
      ensures r == null ==> counter.count == old(counter.count)
      ensures r != null ==>
                && fresh(r) && r.Valid()
                && r.name == DerivedName(name, old(counter.count))
                && r.attribute == attribute && r.domain == domain && r.key == key
                && r.tuples == UnionRows(tuples, table2.tuples)
                && counter.count == Successor(old(counter.count))
    {
      var ok := Compatible(table2);
      if !ok {
        return null;
      }
      var rows: seq<Row> := [];
      var i := 0;
      while i < |tuples|
        invariant 0 <= i <= |tuples|
        invariant rows == tuples[..i]
      {
        rows := rows + [tuples[i]];
        i := i + 1;
      }
      assert rows == tuples;
      var right := table2.tuples;
      i := 0;
      while i < |right|
        invariant 0 <= i <= |right|
        invariant AppendAbsent(rows, right[i..]) == UnionRows(tuples, right)
      {
        var row2 := right[i];
        var found := false;
        var j := 0;
        while j < |rows|
          invariant 0 <= j <= |rows|
          invariant !found && row2 !in rows[..j]
        {
          if rows[j] == row2 {
            found := true;
            break;
          }
          assert rows[..j + 1] == rows[..j] + [rows[j]];
          j := j + 1;
        }
        assert found <==> row2 in rows by {
          if !found { assert rows[..j] == rows; }
        }
        assert right[i..][0] == row2 && right[i..][1..] == right[i + 1..];
        if !found {
          rows := rows + [row2];
        }
        i := i + 1;
      }
      var n := counter.Next();
      r := new Table.WithTuples(name + DecimalString(n), attribute, domain, key, rows);
    }

    /** `minus (table2)`: `null` for incompatible tables; otherwise a table
        with this table's schema. The code builds no rows: the result is
        always empty. */
    method Minus(table2: Table, counter: NameCounter) returns (r: Table?)
      modifies counter
      ensures r == null <==> domain != table2.domain
      ensures r == null ==> counter.count == old(counter.count)
      ensures r != null ==>
                && fresh(r) && r.Valid()
                && r.name == DerivedName(name, old(counter.count))
                && r.attribute == attribute && r.domain == domain && r.key == key
                && r.tuples == []
                && counter.count == Successor(old(counter.count))
    {
      var ok := Compatible(table2);
      if !ok {
        return null;
      }
      var rows: seq<Row> := [];
      var n := counter.Next();
      r := new Table.WithTuples(name + DecimalString(n), attribute, domain, key, rows);
    }

    /** The table every join of the code returns: attributes and domains of
        both operands concatenated (no renaming), this table's key, no rows. */
    method JoinSchema(table2: Table, counter: NameCounter) returns (r: Table)
      modifies counter
      ensures fresh(r) && r.Valid()
      ensures r.name == DerivedName(name, old(counter.count))
      ensures r.attribute == Concat(attribute, table2.attribute)
      ensures r.domain == Concat(domain, table2.domain)
      ensures r.key == key && r.tuples == []
      ensures counter.count == Successor(old(counter.count))
    {
      var rows: seq<Row> := [];
      var n := counter.Next();
      r := new Table.WithTuples(name + DecimalString(n), Concat(attribute, table2.attribute),
                                Concat(domain, table2.domain), key, rows);
    }

    /** `join (attributes1, attributes2, table2)`, the equi-join. The code
        splits the two attribute lists and uses neither. */
    method EquiJoin(attributes1: string, attributes2: string, table2: Table, counter: NameCounter)
      returns (r: Table)
      modifies counter
      ensures fresh(r) && r.Valid()
      ensures r.name == DerivedName(name, old(counter.count))
      ensures r.attribute == Concat(attribute, table2.attribute)
      ensures r.domain == Concat(domain, table2.domain)
      ensures r.key == key && r.tuples == []
      ensures counter.count == Successor(old(counter.count))
    {
      r := JoinSchema(table2, counter);
    }

    /** `join (condition, table2)`, the theta-join. The code ignores the
        condition. */
    method ThetaJoin(condition: string, table2: Table, counter: NameCounter) returns (r: Table)
      modifies counter
      ensures fresh(r) && r.Valid()
      ensures r.name == DerivedName(name, old(counter.count))
      ensures r.attribute == Concat(attribute, table2.attribute)
      ensures r.domain == Concat(domain, table2.domain)
      ensures r.key == key && r.tuples == []
      ensures counter.count == Successor(old(counter.count))
    {
      r := JoinSchema(table2, counter);
    }

    /** `join (table2)`, the natural join. The code keeps the duplicate
        columns. */
    method NaturalJoin(table2: Table, counter: NameCounter) returns (r: Table)
      modifies counter
      ensures fresh(r) && r.Valid()
      ensures r.name == DerivedName(name, old(counter.count))
      ensures r.attribute == Concat(attribute, table2.attribute)
      ensures r.domain == Concat(domain, table2.domain)
      ensures r.key == key && r.tuples == []
      ensures counter.count == Successor(old(counter.count))
    {
      r := JoinSchema(table2, counter);
    }
  }
}
