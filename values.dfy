/** Column domains and the scalar values stored in rows.

    A Java `Table` keeps `Class [] domain` and rows of `Comparable []`.
    Here a domain is a tag naming one of the `java.lang` classes the table
    is used with, and a value is a closed union over those classes, so that
    `compareTo` and the class tests of `satifies` become ordinary functions. */
module Values {
  import opened Outcomes

  type int32 = x: int | -0x8000_0000 <= x < 0x8000_0000
  type int64 = x: int | -0x8000_0000_0000_0000 <= x < 0x8000_0000_0000_0000

  /** The class of a column. `Unresolved` is the `null` that `findClass`
      leaves in the domain array when a class name is not found. */
  datatype Domain =
    | IntegerClass
    | LongClass
    | DoubleClass
    | FloatClass
    | CharacterClass
    | StringClass
    | Unresolved

  const KnownClassNames: set<string> := {"Integer", "Long", "Double", "Float", "Character", "String"}

  /** The simple name of a resolved domain class. */
  function ClassName(d: Domain): (n: string)
    requires d != Unresolved
    ensures n in KnownClassNames
  {
    match d
    case IntegerClass => "Integer"
    case LongClass => "Long"
    case DoubleClass => "Double"
    case FloatClass => "Float"
    case CharacterClass => "Character"
    case StringClass => "String"
  }

  /** `findClass` for one name: the class `"java.lang." + className` when it
      is one of the value classes, otherwise the lookup fails and the slot
      stays `null`. */
  function FindClass(className: string): (d: Domain)
    ensures d == Unresolved <==> className !in KnownClassNames
    ensures d != Unresolved ==> ClassName(d) == className
  {
    if className == "Integer" then IntegerClass
    else if className == "Long" then LongClass
    else if className == "Double" then DoubleClass
    else if className == "Float" then FloatClass
    else if className == "Character" then CharacterClass
    else if className == "String" then StringClass
    else Unresolved
  }

  /** A row cell. Double and Float values are kept abstract: each is its
      rank in the total order that `Double.compareTo` (`Float.compareTo`)
      imposes, so equal ranks mean `equals` and ranks order `compareTo`. */
  datatype Value =
    | IntegerV(i: int32)
    | LongV(l: int64)
    | DoubleV(d: int)
    | FloatV(f: int)
    | CharacterV(c: char)
    | StringV(s: string)

  /** The runtime class of a value (`v.getClass()`). */
  function ClassOf(v: Value): (d: Domain)
    ensures d != Unresolved
  {
    match v
    case IntegerV(_) => IntegerClass
    case LongV(_) => LongClass
    case DoubleV(_) => DoubleClass
    case FloatV(_) => FloatClass
    case CharacterV(_) => CharacterClass
    case StringV(_) => StringClass
  }

  /** The sign of the comparison of two integers. */
  function Sign(x: int, y: int): (c: int)
    ensures c == -1 <==> x < y
    ensures c == 0 <==> x == y
    ensures c == 1 <==> x > y
  {
    if x < y then -1 else if x == y then 0 else 1
  }

  /** The sign of `String.compareTo`: the first differing character decides,
      otherwise the shorter string is smaller. */
  function CompareStrings(s: string, t: string): (c: int)
    ensures -1 <= c <= 1
    ensures c == 0 <==> s == t
  {
    if s == [] || t == [] then Sign(|s|, |t|)
    else if s[0] != t[0] then Sign(s[0] as int, t[0] as int)
    else
      var c := CompareStrings(s[1..], t[1..]);
      assert s == [s[0]] + s[1..] && t == [t[0]] + t[1..];
      c
  }

  /** `String.compareTo` is lexicographic: a proper prefix is smaller, and
      at the first index where the strings differ the smaller character
      decides. */
  lemma {:induction false} CompareStringsLexicographic(s: string, t: string)
    ensures |s| < |t| && s == t[..|s|] ==> CompareStrings(s, t) < 0
    ensures |t| < |s| && t == s[..|t|] ==> CompareStrings(s, t) > 0
    ensures forall k :: 0 <= k < |s| && k < |t| && s[..k] == t[..k] && s[k] != t[k] ==>
              (CompareStrings(s, t) < 0 <==> s[k] < t[k])
  {
    if s != [] && t != [] {
      var s', t' := s[1..], t[1..];
      CompareStringsLexicographic(s', t');
      if |s| < |t| && s == t[..|s|] {
        assert s' == t'[..|s'|];
      }
      if |t| < |s| && t == s[..|t|] {
        assert t' == s'[..|t'|];
      }
      forall k | 0 <= k < |s| && k < |t| && s[..k] == t[..k] && s[k] != t[k]
        ensures CompareStrings(s, t) < 0 <==> s[k] < t[k]
      {
        if k > 0 {
          assert s[..k][0] == t[..k][0];
          assert s'[..k - 1] == s[..k][1..] && t'[..k - 1] == t[..k][1..];
          assert s'[k - 1] == s[k] && t'[k - 1] == t[k];
        }
      }
    }
  }

  lemma {:induction false} CompareStringsAntisymmetric(s: string, t: string)
    ensures CompareStrings(t, s) == -CompareStrings(s, t)
  {
    if s != [] && t != [] && s[0] == t[0] {
      CompareStringsAntisymmetric(s[1..], t[1..]);
    }
  }

  lemma {:induction false} CompareStringsTransitive(s: string, t: string, u: string)
    requires CompareStrings(s, t) <= 0 && CompareStrings(t, u) <= 0
    ensures CompareStrings(s, u) <= 0
  {
    if s != [] && t != [] && u != [] && s[0] == t[0] && t[0] == u[0] {
      CompareStringsTransitive(s[1..], t[1..], u[1..]);
    }
  }

  /** `a.compareTo(b)` reduced to its sign; `None` when the classes differ,
      where Java throws `ClassCastException`. Consistent with `equals`. */
  function CompareTo(a: Value, b: Value): (r: Option<int>)
    ensures r.Some? <==> ClassOf(a) == ClassOf(b)
    ensures r.Some? ==> -1 <= r.value <= 1 && (r.value == 0 <==> a == b)
    ensures r.Some? && a.IntegerV? ==> (r.value < 0 <==> a.i < b.i)
    ensures r.Some? && a.LongV? ==> (r.value < 0 <==> a.l < b.l)
    ensures r.Some? && a.DoubleV? ==> (r.value < 0 <==> a.d < b.d)
    ensures r.Some? && a.FloatV? ==> (r.value < 0 <==> a.f < b.f)
    ensures r.Some? && a.CharacterV? ==> (r.value < 0 <==> a.c < b.c)
    ensures r.Some? && a.StringV? ==> r.value == CompareStrings(a.s, b.s)
  {
    match (a, b)
    case (IntegerV(x), IntegerV(y)) => Some(Sign(x, y))
    case (LongV(x), LongV(y)) => Some(Sign(x, y))
    case (DoubleV(x), DoubleV(y)) => Some(Sign(x, y))
    case (FloatV(x), FloatV(y)) => Some(Sign(x, y))
    case (CharacterV(x), CharacterV(y)) => Some(Sign(x as int, y as int))
    case (StringV(x), StringV(y)) => Some(CompareStrings(x, y))
    case _ => None
  }

  /** Swapping the operands negates the comparison. */
  lemma CompareToAntisymmetric(a: Value, b: Value)
    ensures CompareTo(b, a).Some? <==> CompareTo(a, b).Some?
    ensures CompareTo(a, b).Some? ==> CompareTo(b, a).value == -CompareTo(a, b).value
  {
    if a.StringV? && b.StringV? {
      CompareStringsAntisymmetric(a.s, b.s);
    }
  }

  /** `compareTo(..) <= 0` is transitive among values of one class. */
  lemma CompareToTransitive(a: Value, b: Value, c: Value)
    requires CompareTo(a, b).Some? && CompareTo(a, b).value <= 0
    requires CompareTo(b, c).Some? && CompareTo(b, c).value <= 0
    ensures CompareTo(a, c).Some? && CompareTo(a, c).value <= 0
  {
    if a.StringV? {
      CompareStringsTransitive(a.s, b.s, c.s);
    }
  }

  /** The library parsers `Integer.valueOf`, `Long.valueOf`, `Double.valueOf`
      and `Float.valueOf`; `None` where they throw `NumberFormatException`.
      The floating parsers yield the rank of the parsed number. */
  datatype Parsers = Parsers(
    integerOf: string -> Option<int32>,
    longOf: string -> Option<int64>,
    doubleOf: string -> Option<int>,
    floatOf: string -> Option<int>)

  /** The conversion of a condition literal to a column's domain inside the
      `try` block of `satifies`; `None` where that block throws (a bad
      number, or `charAt(0)` of an empty literal). A column whose domain is
      `String` or unresolved takes the literal verbatim, quotes included. */
  function ConvertLiteral(dom: Domain, value: string, parsers: Parsers): (r: Option<Value>)
    ensures r.Some? && dom != Unresolved ==> ClassOf(r.value) == dom
    ensures r.Some? && dom == Unresolved ==> ClassOf(r.value) == StringClass
    ensures dom == CharacterClass ==> (r.Some? <==> value != [])
    ensures dom == CharacterClass && value != [] ==> r.value.c == value[0]
    ensures dom == StringClass || dom == Unresolved ==> r == Some(StringV(value))
    ensures dom == IntegerClass ==>
              (r.Some? <==> parsers.integerOf(value).Some?) &&
              (r.Some? ==> r.value.i == parsers.integerOf(value).value)
    ensures dom == LongClass ==>
              (r.Some? <==> parsers.longOf(value).Some?) &&
              (r.Some? ==> r.value.l == parsers.longOf(value).value)
    ensures dom == DoubleClass ==>
              (r.Some? <==> parsers.doubleOf(value).Some?) &&
              (r.Some? ==> r.value.d == parsers.doubleOf(value).value)
    ensures dom == FloatClass ==>
              (r.Some? <==> parsers.floatOf(value).Some?) &&
              (r.Some? ==> r.value.f == parsers.floatOf(value).value)
  {
    match dom
    case IntegerClass =>
      (match parsers.integerOf(value) case Some(x) => Some(IntegerV(x)) case None => None)
    case LongClass =>
      (match parsers.longOf(value) case Some(x) => Some(LongV(x)) case None => None)
    case DoubleClass =>
      (match parsers.doubleOf(value) case Some(x) => Some(DoubleV(x)) case None => None)
    case FloatClass =>
      (match parsers.floatOf(value) case Some(x) => Some(FloatV(x)) case None => None)
    case CharacterClass =>
      if value == [] then None else Some(CharacterV(value[0]))
    case _ => Some(StringV(value))
  }
}
