/** LIMIT rewriting: `(?i)LIMIT\s+(\d+)\s*,\s*(\d+)` becomes `LIMIT $2 OFFSET $1`. */
module LimitClause {

  import opened Options

  predicate IsSpace(c: char) {
    c in {' ', '\t', '\n', '\r', '\U{000C}'}
  }

  predicate IsDigit(c: char) {
    '0' <= c <= '9'
  }

  function Upper(c: char): char {
    if 'a' <= c <= 'z' then c - 'a' + 'A' else c
  }

  predicate IsL(c: char) { Upper(c) == 'L' }

  const LIMIT := "LIMIT"

  /** The keyword, in any case, at the head of the text. */
  predicate Keyword(s: string) {
    |s| >= 5 && forall i | 0 <= i < 5 :: Upper(s[i]) == LIMIT[i]
  }

  /** The longest run at the head of `s` of characters satisfying `p`. */
  function Lead(p: char -> bool, s: string): string {
    if s != [] && p(s[0]) then [s[0]] + Lead(p, s[1..]) else []
  }

  /** What follows that run. */
  function Skip(p: char -> bool, s: string): (rest: string)
    ensures |rest| <= |s|
  {
    if s != [] && p(s[0]) then Skip(p, s[1..]) else s
  }

  datatype Match = Match(offset: string, count: string, rest: string)

  /** The digits after the comma. */
  function MatchCount(s: string): (r: Option<(string, string)>)
    ensures r.Some? ==> |r.value.1| <= |s|
  {
    var digits := Skip(IsSpace, s);
    if Lead(IsDigit, digits) == [] then None
    else Some((Lead(IsDigit, digits), Skip(IsDigit, digits)))
  }

  /** What follows the keyword. */
  function MatchNumbers(s: string): (r: Option<Match>)
    ensures r.Some? ==> |r.value.rest| < |s|
  {
    var digits := Skip(IsSpace, s);
    var comma := Skip(IsSpace, Skip(IsDigit, digits));
    if Lead(IsSpace, s) == [] || Lead(IsDigit, digits) == [] || comma == [] || comma[0] != ',' then None
    else
      var r := MatchCount(comma[1..]);
      if r.None? then None else Some(Match(Lead(IsDigit, digits), r.value.0, r.value.1))
  }

  /** The match of the regular expression at the head of `s`.  No character can belong to two
      neighbouring parts of the pattern, so taking the longest run of each never backtracks. */
  function MatchHead(s: string): (r: Option<Match>)
    ensures r.Some? ==> |r.value.rest| < |s|
  {
    if Keyword(s) then MatchNumbers(s[5..]) else None
  }

  predicate All(p: char -> bool, s: string) {
    forall c | c in s :: p(c)
  }

  lemma {:induction false} LeadThenSkip(p: char -> bool, s: string)
    ensures s == Lead(p, s) + Skip(p, s)
    ensures All(p, Lead(p, s)) && (Skip(p, s) != [] ==> !p(Skip(p, s)[0]))
  {
    if s != [] && p(s[0]) {
      LeadThenSkip(p, s[1..]);
    }
  }

  lemma {:induction false} LeadOf(p: char -> bool, w: string, rest: string)
    requires All(p, w)
    requires rest != [] ==> !p(rest[0])
    ensures Lead(p, w + rest) == w && Skip(p, w + rest) == rest
  {
    if w == [] {
      assert w + rest == rest;
    } else {
      assert (w + rest)[1..] == w[1..] + rest;
      LeadOf(p, w[1..], rest);
      assert w[0] in w;
    }
  }

  /** The declarative reading of the pattern: the head of `s` splits into the keyword, spaces,
      digits, spaces, a comma, spaces and digits that no further digit follows. */
  predicate Splits(s: string, spaces: string, offset: string, before: string, after: string, count: string, rest: string) {
    && Keyword(s)
    && s[5..] == spaces + (offset + (before + ("," + (after + (count + rest)))))
    && spaces != [] && offset != [] && count != []
    && All(IsSpace, spaces) && All(IsSpace, before) && All(IsSpace, after)
    && All(IsDigit, offset) && All(IsDigit, count)
    && (rest != [] ==> !IsDigit(rest[0]))
  }

  /** The matcher finds exactly the splits of the text. */
  lemma MatchHeadIff(s: string, m: Match)
    ensures MatchHead(s) == Some(m)
       <==> exists spaces, before, after :: Splits(s, spaces, m.offset, before, after, m.count, m.rest)
  {
    if spaces, before, after :| Splits(s, spaces, m.offset, before, after, m.count, m.rest) {
      SplitIsMatched(s, spaces, before, after, m);
    }
    if MatchHead(s) == Some(m) {
      var spaces, before, after := MatchIsSplit(s, m);
    }
  }

  lemma MatchIsSplit(s: string, m: Match) returns (spaces: string, before: string, after: string)
    requires MatchHead(s) == Some(m)
    ensures Splits(s, spaces, m.offset, before, after, m.count, m.rest)
  {
    var a := s[5..];
    var b := Skip(IsSpace, a);
    var c := Skip(IsDigit, b);
    var d := Skip(IsSpace, c);
    var e := d[1..];
    var f := Skip(IsSpace, e);
    spaces, before, after := Lead(IsSpace, a), Lead(IsSpace, c), Lead(IsSpace, e);
    LeadThenSkip(IsSpace, a);
    LeadThenSkip(IsDigit, b);
    LeadThenSkip(IsSpace, c);
    LeadThenSkip(IsSpace, e);
    LeadThenSkip(IsDigit, f);
    assert d == "," + e;
  }

  lemma SplitIsMatched(s: string, spaces: string, before: string, after: string, m: Match)
    requires Splits(s, spaces, m.offset, before, after, m.count, m.rest)
    ensures MatchHead(s) == Some(m)
  {
    var f := m.count + m.rest;
    var e := after + f;
    var d := "," + e;
    var c := before + d;
    var b := m.offset + c;
    assert m.offset[0] in m.offset && m.count[0] in m.count;
    assert before != [] ==> before[0] in before;
    LeadOf(IsSpace, spaces, b);
    LeadOf(IsDigit, m.offset, c);
    LeadOf(IsSpace, before, d);
    assert d[1..] == e;
    LeadOf(IsSpace, after, f);
    LeadOf(IsDigit, m.count, m.rest);
  }

  /** The replacement text for one match. */
  function Clause(m: Match): string {
    "LIMIT " + m.count + " OFFSET " + m.offset
  }

  function TranslateLimitSyntax(s: string): string
    decreases |s|
  {
    if s == [] then []
    else
      var r := MatchHead(s);
      if r.Some? then Clause(r.value) + TranslateLimitSyntax(r.value.rest)
      else [s[0]] + TranslateLimitSyntax(s[1..])
  }

  // ---------------------------------------------------------------------------------------
  // No match is left
  // ---------------------------------------------------------------------------------------

  predicate NoMatch(s: string) {
    forall i | 0 <= i <= |s| :: MatchHead(s[i..]).None?
  }

  lemma {:induction false} UnmatchedUnchanged(s: string)
    requires NoMatch(s)
    ensures TranslateLimitSyntax(s) == s
  {
    if s != [] {
      assert s[0..] == s;
      forall i | 0 <= i <= |s[1..]| ensures MatchHead(s[1..][i..]).None? {
        assert s[1..][i..] == s[i + 1..];
      }
      UnmatchedUnchanged(s[1..]);
    }
  }

  lemma {:induction false} LeadAlike(p: char -> bool, x: string, u: string)
    requires u != [] ==> !p(u[0])
    ensures Lead(p, x + u) == Lead(p, x) && Skip(p, x + u) == Skip(p, x) + u
  {
    if x == [] {
      assert x + u == u;
    } else {
      assert (x + u)[1..] == x[1..] + u;
      LeadAlike(p, x[1..], u);
    }
  }

  /** Before an L, a match depends only on the text up to the L. */
  lemma NumbersAlike(x: string, u: string)
    requires u != [] ==> IsL(u[0])
    ensures MatchNumbers(x + u).None? == MatchNumbers(x).None?
  {
    LeadAlike(IsSpace, x, u);
    var digits := Skip(IsSpace, x);
    LeadAlike(IsDigit, digits, u);
    LeadAlike(IsSpace, Skip(IsDigit, digits), u);
    var comma := Skip(IsSpace, Skip(IsDigit, digits));
    if comma == [] {
      assert comma + u == u;
    } else {
      assert (comma + u)[1..] == comma[1..] + u;
      LeadAlike(IsSpace, comma[1..], u);
      LeadAlike(IsDigit, Skip(IsSpace, comma[1..]), u);
    }
  }

  /** The pattern holds an L only at its head, so a match that starts before the next L is
      decided before it. */
  lemma MatchAlike(x: string, u: string)
    requires x != [] && (u != [] ==> IsL(u[0]))
    ensures MatchHead(x + u).None? == MatchHead(x).None?
  {
    var s := x + u;
    assert forall i | 0 <= i < |x| :: s[i] == x[i];
    if |x| < 5 {
      assert u != [] ==> s[|x|] == u[0];
      assert !Keyword(s);
    } else {
      assert Keyword(s) == Keyword(x) && s[5..] == x[5..] + u;
      NumbersAlike(x[5..], u);
    }
  }

  /** Output and input agree up to the first match, and both go on with an L there. */
  lemma {:induction false} CommonPrefix(s: string) returns (x: string, u: string, v: string)
    ensures TranslateLimitSyntax(s) == x + u && s == x + v
    ensures u != [] ==> IsL(u[0])
    ensures v != [] ==> IsL(v[0])
    decreases |s|
  {
    if s == [] || MatchHead(s).Some? {
      x, u, v := [], TranslateLimitSyntax(s), s;
      if s != [] {
        assert Upper(s[0]) == LIMIT[0];
        assert u[0] == 'L';
      }
    } else {
      x, u, v := CommonPrefix(s[1..]);
      x := [s[0]] + x;
    }
  }

  lemma ClauseDoesNotMatch(m: Match, rest: string, i: nat)
    requires i < |Clause(m)| && All(IsDigit, m.offset) && All(IsDigit, m.count) && m.count != []
    ensures MatchHead((Clause(m) + rest)[i..]).None?
  {
    var s := Clause(m) + rest;
    if i == 0 {
      ClauseHeadDoesNotMatch(m, rest);
      assert s[0..] == s;
    } else {
      NoLInside(m, i);
      assert s[i..][0] == Clause(m)[i];
    }
  }

  /** After the first number comes `OFFSET`, not a comma. */
  lemma ClauseHeadDoesNotMatch(m: Match, rest: string)
    requires All(IsDigit, m.count) && m.count != []
    ensures MatchHead(Clause(m) + rest).None?
  {
    var s := Clause(m) + rest;
    var offset := "OFFSET " + m.offset + rest;
    assert s[5..] == " " + (m.count + (" " + offset));
    assert m.count[0] in m.count;
    LeadOf(IsSpace, " ", m.count + (" " + offset));
    LeadOf(IsDigit, m.count, " " + offset);
    LeadOf(IsSpace, " ", offset);
  }

  lemma NoLInside(m: Match, i: nat)
    requires 0 < i < |Clause(m)|
    requires All(IsDigit, m.offset) && All(IsDigit, m.count)
    ensures !IsL(Clause(m)[i])
  {
    var c := Clause(m);
    if i < 6 {
      assert c[i] == "LIMIT "[i];
    } else if i < 6 + |m.count| {
      assert c[i] == m.count[i - 6] && c[i] in m.count;
    } else if i < 14 + |m.count| {
      assert c[i] == " OFFSET "[i - 6 - |m.count|];
    } else {
      assert c[i] == m.offset[i - 14 - |m.count|] && c[i] in m.offset;
    }
  }

  /** The rewritten text holds no further match. */
  lemma {:induction false} NoMatchLeft(s: string)
    ensures NoMatch(TranslateLimitSyntax(s))
    decreases |s|
  {
    var out := TranslateLimitSyntax(s);
    if s != [] {
      var r := MatchHead(s);
      if r.Some? {
        var head, tail := Clause(r.value), TranslateLimitSyntax(r.value.rest);
        NoMatchLeft(r.value.rest);
        var spaces, before, after := MatchIsSplit(s, r.value);
        forall i | 0 <= i <= |out| ensures MatchHead(out[i..]).None? {
          if i < |head| {
            ClauseDoesNotMatch(r.value, tail, i);
          } else {
            assert out[i..] == tail[i - |head|..];
          }
        }
      } else {
        NoMatchLeft(s[1..]);
        forall i | 0 <= i <= |out| ensures MatchHead(out[i..]).None? {
          if i == 0 {
            UnmatchedHead(s);
            assert out[0..] == out;
          } else {
            assert out[i..] == TranslateLimitSyntax(s[1..])[i - 1..];
          }
        }
      }
    }
  }

  lemma {:induction false} UnmatchedStep(s: string) returns (x: string, u: string, v: string)
    requires s != [] && MatchHead(s).None?
    ensures TranslateLimitSyntax(s) == x + u && s == x + v && x != []
    ensures (u != [] ==> IsL(u[0])) && (v != [] ==> IsL(v[0]))
  {
    var y;
    y, u, v := CommonPrefix(s[1..]);
    x := [s[0]] + y;
    assert s == [s[0]] + s[1..];
    UnmatchedKept(s[0], s[1..]);
    Regroup(s[0], y, u);
    Regroup(s[0], y, v);
  }

  lemma Regroup(c: char, y: string, u: string)
    ensures [c] + (y + u) == ([c] + y) + u
  {
  }

  /** A position without a match has none in the output either. */
  lemma UnmatchedHead(s: string)
    requires s != [] && MatchHead(s).None?
    ensures MatchHead(TranslateLimitSyntax(s)).None?
  {
    var x, u, v := UnmatchedStep(s);
    MatchAlike(x, u);
    MatchAlike(x, v);
  }

  lemma TranslateIdempotent(s: string)
    ensures TranslateLimitSyntax(TranslateLimitSyntax(s)) == TranslateLimitSyntax(s)
  {
    NoMatchLeft(s);
    UnmatchedUnchanged(TranslateLimitSyntax(s));
  }

  // ---------------------------------------------------------------------------------------
  // What is replaced and what is kept
  // ---------------------------------------------------------------------------------------

  /** No match begins in the text `before` when `s` follows it. */
  predicate NoneBegins(before: string, s: string) {
    before == [] || (MatchHead(before + s).None? && NoneBegins(before[1..], s))
  }

  /** The leftmost match, and only it, is replaced; the text before it is kept and the rest is
      rewritten from the end of the match. */
  lemma {:induction false} LeftmostReplaced(before: string, s: string, m: Match)
    requires MatchHead(s) == Some(m) && NoneBegins(before, s)
    ensures TranslateLimitSyntax(before + s) == before + (Clause(m) + TranslateLimitSyntax(m.rest))
  {
    if before == [] {
      MatchReplaced(s, m);
      assert before + s == s;
    } else {
      LeftmostReplaced(before[1..], s, m);
      HeadAgain(before, s);
      UnmatchedKept(before[0], before[1..] + s);
      HeadAgain(before, Clause(m) + TranslateLimitSyntax(m.rest));
    }
  }

  lemma MatchReplaced(s: string, m: Match)
    requires MatchHead(s) == Some(m)
    ensures TranslateLimitSyntax(s) == Clause(m) + TranslateLimitSyntax(m.rest)
  {
  }

  lemma HeadAgain(before: string, s: string)
    requires before != []
    ensures [before[0]] + (before[1..] + s) == before + s
  {
  }

  lemma UnmatchedKept(c: char, s: string)
    requires MatchHead([c] + s).None?
    ensures TranslateLimitSyntax([c] + s) == [c] + TranslateLimitSyntax(s)
  {
  }

  /** On text: in any case of the keyword and with any of the five white-space characters, a clause
      is rewritten; after it the translation goes on. */
  lemma AnyCaseRewritten(k: string, sp: string, a: string, sp1: string, sp2: string, b: string, rest: string)
    requires |k| == 5 && k[0] in "Ll" && k[1] in "Ii" && k[2] in "Mm" && k[3] in "Ii" && k[4] in "Tt"
    requires forall c | c in sp + sp1 + sp2 :: c in " \t\n\r\U{000C}"
    requires forall c | c in a + b :: c in "0123456789"
    requires sp != [] && a != [] && b != [] && (rest != [] ==> rest[0] !in "0123456789")
    ensures TranslateLimitSyntax(k + (sp + (a + (sp1 + ("," + (sp2 + (b + rest)))))))
         == "LIMIT " + b + " OFFSET " + a + TranslateLimitSyntax(rest)
  {
    var tail := sp + (a + (sp1 + ("," + (sp2 + (b + rest)))));
    assert (k + tail)[5..] == tail && (k + tail)[..5] == k;
    KeywordInAnyCase(k, k + tail);
    SpacesAndDigits(sp, a, sp1, sp2, b);
    assert Splits(k + tail, sp, a, sp1, sp2, b, rest);
    MatchHeadIff(k + tail, Match(a, b, rest));
    MatchReplaced(k + tail, Match(a, b, rest));
  }

  lemma SpacesAndDigits(sp: string, a: string, sp1: string, sp2: string, b: string)
    requires forall c | c in sp + sp1 + sp2 :: c in " \t\n\r\U{000C}"
    requires forall c | c in a + b :: c in "0123456789"
    ensures All(IsSpace, sp) && All(IsSpace, sp1) && All(IsSpace, sp2) && All(IsDigit, a) && All(IsDigit, b)
  {
    assert forall c | c in sp || c in sp1 || c in sp2 :: c in sp + sp1 + sp2;
    assert forall c | c in a || c in b :: c in a + b;
  }

  lemma KeywordInAnyCase(k: string, s: string)
    requires |k| == 5 && k[0] in "Ll" && k[1] in "Ii" && k[2] in "Mm" && k[3] in "Ii" && k[4] in "Tt"
    requires |s| >= 5 && s[..5] == k
    ensures Keyword(s)
  {
    forall i | 0 <= i < 5 ensures Upper(s[i]) == LIMIT[i] {
      assert s[i] == k[i];
    }
  }

  /** And nothing else is: a match is such a clause. */
  lemma OnlyClausesMatch(s: string, m: Match) returns (sp: string, sp1: string, sp2: string)
    requires MatchHead(s) == Some(m)
    ensures |s| >= 5 && s[0] in "Ll" && s[1] in "Ii" && s[2] in "Mm" && s[3] in "Ii" && s[4] in "Tt"
    ensures s[5..] == sp + (m.offset + (sp1 + ("," + (sp2 + (m.count + m.rest)))))
    ensures sp != [] && m.offset != [] && m.count != []
    ensures forall c | c in sp || c in sp1 || c in sp2 :: c in " \t\n\r\U{000C}"
    ensures forall c | c in m.offset || c in m.count :: c in "0123456789"
    ensures m.rest != [] ==> m.rest[0] !in "0123456789"
  {
    sp, sp1, sp2 := MatchIsSplit(s, m);
    assert Upper(s[0]) == LIMIT[0] && Upper(s[1]) == LIMIT[1] && Upper(s[2]) == LIMIT[2] && Upper(s[3]) == LIMIT[3]
        && Upper(s[4]) == LIMIT[4];
  }

  // ---------------------------------------------------------------------------------------
  // Same rows
  // ---------------------------------------------------------------------------------------

  function Digit(c: char): nat
    requires IsDigit(c)
  {
    (c - '0') as nat
  }

  function Number(digits: string): nat
    requires All(IsDigit, digits)
  {
    if digits == [] then 0
    else
      var last := digits[|digits| - 1];
      assert last in digits;
      10 * Number(digits[..|digits| - 1]) + Digit(last)
  }

  /** The rows from position `offset`, at most `count` of them. */
  function Window<Row>(rows: seq<Row>, offset: nat, count: nat): seq<Row> {
    var start := if offset < |rows| then offset else |rows|;
    var end := if start + count < |rows| then start + count else |rows|;
    rows[start..end]
  }

  // 2^64 - 1 and 2^63 - 1
  const MYSQL_MAX := 18446744073709551615
  const SQLITE_MAX := 9223372036854775807

  /** MySQL: `LIMIT offset, count`, with numbers of 64 bits. */
  function MySqlRows<Row>(s: string, rows: seq<Row>): Option<seq<Row>> {
    var r := MatchHead(s);
    if r.None? then None
    else
      MatchHeadIff(s, r.value);
      var offset, count := Number(r.value.offset), Number(r.value.count);
      if offset > MYSQL_MAX || count > MYSQL_MAX then None else Some(Window(rows, offset, count))
  }

  /** SQLite: `LIMIT count OFFSET offset`, read from the text; a number that does not fit into a
      signed integer of 64 bits is a type error. */
  function SqliteRows<Row>(s: string, rows: seq<Row>): Option<seq<Row>> {
    if !("LIMIT " <= s) then None
    else
      var count, t := Lead(IsDigit, s[6..]), Skip(IsDigit, s[6..]);
      if count == [] || !(" OFFSET " <= t) then None
      else
        var offset := Lead(IsDigit, t[8..]);
        LeadThenSkip(IsDigit, s[6..]);
        LeadThenSkip(IsDigit, t[8..]);
        if offset == [] || Number(offset) > SQLITE_MAX || Number(count) > SQLITE_MAX then None
        else Some(Window(rows, Number(offset), Number(count)))
  }

  /** The numbers of a match. */
  function Numbers(s: string): (nat, nat)
    requires MatchHead(s).Some?
  {
    MatchHeadIff(s, MatchHead(s).value);
    (Number(MatchHead(s).value.offset), Number(MatchHead(s).value.count))
  }

  predicate Within(numbers: (nat, nat), max: nat) {
    numbers.0 <= max && numbers.1 <= max
  }

  /** The rewritten clause selects from every result list the rows the original selects, just when
      both numbers fit SQLite's integers, or one does not even fit MySQL's. */
  lemma SameRowsIff<Row>(s: string, rows: seq<Row>)
    requires MatchHead(s).Some?
    ensures SqliteRows(TranslateLimitSyntax(s), rows) == MySqlRows(s, rows)
       <==> Within(Numbers(s), SQLITE_MAX) || !Within(Numbers(s), MYSQL_MAX)
  {
    var m := MatchHead(s).value;
    var spaces, before, after := MatchIsSplit(s, m);
    NoDigitAhead(m.rest);
    SqliteReadsClause(m, TranslateLimitSyntax(m.rest), rows);
  }

  /** The decimal digits of a number. */
  function Digits(n: nat): (s: string)
    ensures s != [] && All(IsDigit, s) && Number(s) == n
  {
    var last := [('0' as int + n % 10) as char];
    if n < 10 then last
    else
      assert (Digits(n / 10) + last)[..|Digits(n / 10)|] == Digits(n / 10);
      Digits(n / 10) + last
  }

  lemma NumbersRead(offset: string, count: string)
    requires All(IsDigit, offset) && All(IsDigit, count) && offset != [] && count != []
    ensures MatchHead("LIMIT " + offset + ", " + count) == Some(Match(offset, count, ""))
  {
    var s := "LIMIT " + offset + ", " + count;
    assert s[5..] == " " + (offset + (", " + count));
    var tail := ", " + count;
    assert tail == "" + ("," + (" " + (count + ""))) by {
      assert count + "" == count;
    }
    assert Splits(s, " ", offset, "", " ", count, "");
    MatchHeadIff(s, Match(offset, count, ""));
  }

  /** `LIMIT 95, 18446744073709551615`, MySQL's way of asking for all rows from the 95th on, is
      rejected by SQLite after the rewriting. */
  lemma AllRowsIdiomRejected<Row>(rows: seq<Row>)
    ensures var s := "LIMIT " + Digits(95) + ", " + Digits(18446744073709551615);
            MySqlRows(s, rows) == Some(Window(rows, 95, 18446744073709551615))
            && SqliteRows(TranslateLimitSyntax(s), rows) == None
  {
    IdiomRejected(95, MYSQL_MAX, rows);
  }

  lemma IdiomRejected<Row>(offset: nat, count: nat, rows: seq<Row>)
    requires offset <= MYSQL_MAX && SQLITE_MAX < count <= MYSQL_MAX
    ensures var s := "LIMIT " + Digits(offset) + ", " + Digits(count);
            MySqlRows(s, rows) == Some(Window(rows, offset, count))
            && SqliteRows(TranslateLimitSyntax(s), rows) == None
  {
    var s, m := "LIMIT " + Digits(offset) + ", " + Digits(count), Match(Digits(offset), Digits(count), "");
    NumbersRead(m.offset, m.count);
    MatchReplaced(s, m);
    SqliteReadsClause(m, TranslateLimitSyntax(m.rest), rows);
  }

  lemma SqliteReadsClause<Row>(m: Match, tail: string, rows: seq<Row>)
    requires All(IsDigit, m.offset) && All(IsDigit, m.count) && m.offset != [] && m.count != []
    requires tail != [] ==> !IsDigit(tail[0])
    ensures SqliteRows(Clause(m) + tail, rows)
         == if Number(m.offset) > SQLITE_MAX || Number(m.count) > SQLITE_MAX then None
            else Some(Window(rows, Number(m.offset), Number(m.count)))
  {
    var out := Clause(m) + tail;
    var t := " OFFSET " + (m.offset + tail);
    assert out == "LIMIT " + (m.count + t);
    assert out[6..] == m.count + t;
    LeadOf(IsDigit, m.count, t);
    assert t[8..] == m.offset + tail;
    LeadOf(IsDigit, m.offset, tail);
  }

  lemma NoDigitAhead(s: string)
    requires s != [] ==> !IsDigit(s[0])
    ensures var out := TranslateLimitSyntax(s); out != [] ==> !IsDigit(out[0])
  {
  }
}
