/** The two `java.lang.String` behaviours the table code relies on:
    `s.split (" ")`, which turns every specification and condition string
    into tokens, and the decimal rendering of an `int` in `name + count`. */
module JavaStrings {

  /** True when no character of `s` is a space. */
  predicate NoSpace(s: string) {
    forall i :: 0 <= i < |s| ==> s[i] != ' '
  }

  /** The pieces of `s` between single spaces, empty pieces included:
      one more piece than there are spaces. */
  function Pieces(s: string): (ps: seq<string>)
    ensures |ps| >= 1
    ensures forall k :: 0 <= k < |ps| ==> NoSpace(ps[k])
  {
    if s == [] then [""]
    else
      var rest := Pieces(s[1..]);
      if s[0] == ' ' then [""] + rest
      else [[s[0]] + rest[0]] + rest[1..]
  }

  /** The pieces glued back together with single spaces. */
  function JoinSpaces(ps: seq<string>): string {
    if ps == [] then ""
    else if |ps| == 1 then ps[0]
    else ps[0] + " " + JoinSpaces(ps[1..])
  }

  /** Cutting at every space and gluing back with spaces gives `s` again. */
  lemma {:induction false} PiecesJoin(s: string)
    ensures JoinSpaces(Pieces(s)) == s
  {
    if s != [] {
      PiecesJoin(s[1..]);
      var rest := Pieces(s[1..]);
      if s[0] == ' ' {
        assert Pieces(s) == [""] + rest;
        assert ([""] + rest)[1..] == rest;
      } else {
        var ps := [[s[0]] + rest[0]] + rest[1..];
        assert Pieces(s) == ps;
        if |rest| == 1 {
          assert JoinSpaces(ps) == [s[0]] + rest[0];
        } else {
          assert ps[1..] == rest[1..];
          assert JoinSpaces(rest) == rest[0] + " " + JoinSpaces(rest[1..]);
        }
      }
    }
  }

  /** Cutting a piece followed by a space off the front of a string. */
  lemma {:induction false} PiecesCons(t: string, u: string)
    requires NoSpace(t)
    ensures Pieces(t + " " + u) == [t] + Pieces(u)
  {
    if t == [] {
      assert t + " " + u == [' '] + u;
      assert ([' '] + u)[1..] == u;
    } else {
      PiecesCons(t[1..], u);
      assert (t + " " + u)[1..] == t[1..] + " " + u;
      assert [t[0]] + t[1..] == t;
    }
  }

  /** Gluing space-free pieces and cutting again recovers the pieces. */
  lemma {:induction false} JoinPieces(ps: seq<string>)
    requires |ps| >= 1
    requires forall k :: 0 <= k < |ps| ==> NoSpace(ps[k])
    ensures Pieces(JoinSpaces(ps)) == ps
  {
    if |ps| == 1 {
      PiecesOfWord(ps[0]);
    } else {
      JoinPieces(ps[1..]);
      PiecesCons(ps[0], JoinSpaces(ps[1..]));
      assert [ps[0]] + ps[1..] == ps;
    }
  }

  /** A space-free string is a single piece. */
  lemma {:induction false} PiecesOfWord(t: string)
    requires NoSpace(t)
    ensures Pieces(t) == [t]
  {
    if t != [] {
      PiecesOfWord(t[1..]);
      assert [t[0]] + t[1..] == t;
    }
  }

  /** The pieces without the empty ones at the end. */
  function DropTrailingEmpty(ps: seq<string>): (r: seq<string>)
    ensures r <= ps
    ensures r != [] ==> r[|r| - 1] != ""
    ensures forall k :: |r| <= k < |ps| ==> ps[k] == ""
  {
    if ps != [] && ps[|ps| - 1] == "" then DropTrailingEmpty(ps[..|ps| - 1]) else ps
  }

  /** `s.split (" ")`: the pieces between single spaces with trailing empty
      pieces removed, except that the empty string splits to `[""]`. A
      string of spaces only splits to no tokens at all. */
  function Split(s: string): (tokens: seq<string>)
    ensures forall k :: 0 <= k < |tokens| ==> NoSpace(tokens[k])
    ensures s != [] && tokens != [] ==> tokens[|tokens| - 1] != ""
    ensures s == [] ==> tokens == [""]
  {
    if s == [] then [""] else DropTrailingEmpty(Pieces(s))
  }

  /** A condition or attribute list without a trailing space is exactly
      its tokens joined by single spaces. */
  lemma SplitJoin(s: string)
    requires s == [] || s[|s| - 1] != ' '
    ensures JoinSpaces(Split(s)) == s
  {
    PiecesJoin(s);
    if s != [] {
      var ps := Pieces(s);
      if ps[|ps| - 1] == "" {
        LastPieceEmpty(s);
        assert false;
      }
    }
  }

  /** The last piece is empty exactly when the string ends in a space. */
  lemma {:induction false} LastPieceEmpty(s: string)
    requires s != []
    ensures Pieces(s)[|Pieces(s)| - 1] == "" <==> s[|s| - 1] == ' '
  {
    if |s| > 1 {
      LastPieceEmpty(s[1..]);
      assert s[1..][|s[1..]| - 1] == s[|s| - 1];
    }
  }

  /** Tokens without spaces whose last one is not empty split back from
      their join: `split` and joining with spaces are inverse. */
  lemma JoinSplit(tokens: seq<string>)
    requires |tokens| >= 1 && tokens[|tokens| - 1] != ""
    requires forall k :: 0 <= k < |tokens| ==> NoSpace(tokens[k])
    ensures Split(JoinSpaces(tokens)) == tokens
  {
    JoinPieces(tokens);
  }

  // ---- Integer.toString, as used by `name + count` ----

  function DigitChar(d: nat): (c: char)
    requires d < 10
    ensures '0' <= c <= '9' && c as int - '0' as int == d
  {
    ('0' as int + d) as char
  }

  /** The decimal digits of `n`, most significant first, no leading zero. */
  function Digits(n: nat): (s: string)
    ensures |s| >= 1
    ensures forall i :: 0 <= i < |s| ==> '0' <= s[i] <= '9'
    decreases n
  {
    if n < 10 then [DigitChar(n)] else Digits(n / 10) + [DigitChar(n % 10)]
  }

  /** The number a string of decimal digits denotes. */
  function DigitsValue(s: string): nat
    requires forall i :: 0 <= i < |s| ==> '0' <= s[i] <= '9'
  {
    if s == [] then 0
    else DigitsValue(s[..|s| - 1]) * 10 + (s[|s| - 1] as int - '0' as int)
  }

  lemma {:induction false} DigitsRoundTrip(n: nat)
    ensures DigitsValue(Digits(n)) == n
    decreases n
  {
    var s := Digits(n);
    if n >= 10 {
      DigitsRoundTrip(n / 10);
      assert s[..|s| - 1] == Digits(n / 10);
      assert s[|s| - 1] as int - '0' as int == n % 10;
    }
  }

  /** A decimal rendering: digits, after an optional minus sign. */
  predicate IsDecimal(s: string) {
    && |s| >= 1
    && (s[0] == '-' ==> |s| >= 2 && forall i :: 1 <= i < |s| ==> '0' <= s[i] <= '9')
    && (s[0] != '-' ==> forall i :: 0 <= i < |s| ==> '0' <= s[i] <= '9')
  }

  /** `Integer.toString (n)`: a minus sign for negative numbers, then the
      digits of the magnitude. */
  function DecimalString(n: int): (s: string)
    ensures IsDecimal(s)
    ensures (s[0] == '-') <==> n < 0
  {
    if n < 0 then "-" + Digits(-n) else Digits(n)
  }

  /** The number a decimal rendering denotes. */
  function DecimalValue(s: string): int
    requires IsDecimal(s)
  {
    if s[0] == '-' then 0 - DigitsValue(s[1..]) else DigitsValue(s)
  }

  /** Rendering an integer and reading it back gives the integer. */
  lemma DecimalRoundTrip(n: int)
    ensures DecimalValue(DecimalString(n)) == n
  {
    var s := DecimalString(n);
    if n < 0 {
      var d := Digits(-n);
      DigitsRoundTrip(-n);
      assert s == "-" + d && s[0] == '-';
      assert s[1..] == d;
    } else {
      DigitsRoundTrip(n);
    }
  }

  /** Different integers render differently, so appending a counter value
      to one base name yields a different name for every value. */
  lemma DecimalStringInjective(a: int, b: int, base: string)
    requires a != b
    ensures base + DecimalString(a) != base + DecimalString(b)
  {
    DecimalRoundTrip(a);
    DecimalRoundTrip(b);
    assert (base + DecimalString(a))[|base|..] == DecimalString(a);
    assert (base + DecimalString(b))[|base|..] == DecimalString(b);
  }
}
