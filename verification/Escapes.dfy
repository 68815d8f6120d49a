/** The string-escape scanner of the dialect translator: every backslash-quote inside a
    single-quoted literal becomes a doubled quote.  Characters stand for the bytes the scanner
    reads; only the quote and the backslash are ever compared. */
module Escapes {

  const QUOTE := '\''
  const BACKSLASH := '\\'

  /** What the scanner writes for the text `s`, given whether it is inside a literal. */
  function Rewrite(s: string, inString: bool): string {
    if s == [] then []
    else if s[0] == QUOTE then
      if !inString then [QUOTE] + Rewrite(s[1..], true)
      else if |s| > 1 && s[1] == QUOTE then [QUOTE, QUOTE] + Rewrite(s[2..], true)
      else [QUOTE] + Rewrite(s[1..], false)
    else if s[0] == BACKSLASH && inString && |s| > 1 && s[1] == QUOTE then
      [QUOTE, QUOTE] + Rewrite(s[2..], true)
    else
      [s[0]] + Rewrite(s[1..], inString)
  }

  /** Two characters are rewritten at once. */
  lemma PairRewritten(s: string)
    requires |s| > 1 && s[1] == QUOTE && (s[0] == QUOTE || s[0] == BACKSLASH)
    ensures Rewrite(s, true) == [QUOTE, QUOTE] + Rewrite(s[2..], true)
  {
  }

  lemma CharRewritten(s: string, inString: bool)
    requires s != [] && !(inString && |s| > 1 && s[1] == QUOTE && (s[0] == QUOTE || s[0] == BACKSLASH))
    ensures Rewrite(s, inString) == [s[0]] + Rewrite(s[1..], if s[0] == QUOTE then !inString else inString)
  {
  }

  lemma Regroup(a: string, b: string, c: string)
    ensures a + (b + c) == (a + b) + c
  {
  }

  method TranslateStringEscapes(sql: string) returns (result: string)
    ensures result == Rewrite(sql, false)
  {
    result := "";
    var inString := false;
    var i := 0;
    while i < |sql|
      invariant 0 <= i <= |sql|
      invariant result + Rewrite(sql[i..], inString) == Rewrite(sql, false)
    {
      var c := sql[i];
      if i + 1 < |sql| && sql[i + 1] == QUOTE && inString && (c == QUOTE || c == BACKSLASH) {
        PairRewritten(sql[i..]);
        assert sql[i..][2..] == sql[i + 2..];
        Regroup(result, [QUOTE, QUOTE], Rewrite(sql[i + 2..], true));
      } else {
        CharRewritten(sql[i..], inString);
        assert sql[i..][1..] == sql[i + 1..];
        Regroup(result, [c], Rewrite(sql[i + 1..], if c == QUOTE then !inString else inString));
      }
      if c == QUOTE {
        if !inString {
          inString := true;
          result := result + [c];
        } else {
          if i + 1 < |sql| && sql[i + 1] == QUOTE {
            result := result + [c, c];
            i := i + 2;
            continue;
          }
          inString := false;
          result := result + [c];
        }
      } else if c == BACKSLASH && inString && i + 1 < |sql| && sql[i + 1] == QUOTE {
        result := result + [QUOTE, QUOTE];
        i := i + 2;
        continue;
      } else {
        result := result + [c];
      }
      i := i + 1;
    }
  }

  // ---------------------------------------------------------------------------------------
  // Lexing: the text outside literals and the decoded value of every literal
  // ---------------------------------------------------------------------------------------

  /** One symbol of a lexed statement.  A literal is an `Open`, its decoded characters and,
      unless the text ends first, a `Close`. */
  datatype Symbol = Outside(c: char) | Open | Value(c: char) | Close

  /** The three escape conventions.  `Doubled` is SQLite's (only the doubled quote of
      section 5.3 of ISO/IEC 9075:1992); `DoubledAndEscapedQuote` adds the backslash-quote;
      `MySql` is section 9.1.1 of the MySQL 5.7 Reference Manual with every backslash escape. */
  datatype Dialect = Doubled | DoubledAndEscapedQuote | MySql

  /** The character a MySQL escape `\x` denotes, for an x other than % and _. */
  function Unescape(x: char): char {
    if x == '0' then '\0'
    else if x == 'b' then '\U{0008}'
    else if x == 'n' then '\n'
    else if x == 'r' then '\r'
    else if x == 't' then '\t'
    else if x == 'Z' then '\U{001A}'
    else x
  }

  function Lex(s: string, inString: bool, d: Dialect): seq<Symbol> {
    if s == [] then []
    else if !inString then
      if s[0] == QUOTE then [Open] + Lex(s[1..], true, d)
      else [Outside(s[0])] + Lex(s[1..], false, d)
    else if s[0] == QUOTE then
      if |s| > 1 && s[1] == QUOTE then [Value(QUOTE)] + Lex(s[2..], true, d)
      else [Close] + Lex(s[1..], false, d)
    else if s[0] == BACKSLASH && |s| > 1 then
      match d
      case Doubled => [Value(BACKSLASH)] + Lex(s[1..], true, d)
      case DoubledAndEscapedQuote =>
        if s[1] == QUOTE then [Value(QUOTE)] + Lex(s[2..], true, d)
        else [Value(BACKSLASH)] + Lex(s[1..], true, d)
      case MySql =>
        // \% and \_ keep their backslash
        if s[1] == '%' || s[1] == '_' then [Value(BACKSLASH), Value(s[1])] + Lex(s[2..], true, d)
        else [Value(Unescape(s[1]))] + Lex(s[2..], true, d)
    else [Value(s[0])] + Lex(s[1..], true, d)
  }

  /** SQLite reads in the output what the input meant: the same outside text and the same
      decoded literal values, unterminated literals included. */
  lemma {:induction false} LiteralMeaningPreserved(s: string, inString: bool)
    ensures Lex(Rewrite(s, inString), inString, Doubled) == Lex(s, inString, DoubledAndEscapedQuote)
    decreases |s|
  {
    if s == [] {
    } else if inString && |s| > 1 && s[1] == QUOTE && (s[0] == QUOTE || s[0] == BACKSLASH) {
      LiteralMeaningPreserved(s[2..], true);
      var out := Rewrite(s, inString);
      assert out[2..] == Rewrite(s[2..], true);
    } else {
      var next := if s[0] == QUOTE then !inString else inString;
      LiteralMeaningPreserved(s[1..], next);
      var rest := Rewrite(s[1..], next);
      var out := Rewrite(s, inString);
      assert out == [s[0]] + rest && out[1..] == rest;
      if s[0] == QUOTE && inString && rest != [] {
        // the closing quote is still followed by something other than a quote
        assert s[1] != QUOTE && rest[0] == s[1];
      }
    }
  }

  /** Every in-literal backslash starts a `\'`, a `\%` or a `\_`, or ends the text. */
  predicate OnlyQuoteEscapes(s: string, inString: bool) {
    if s == [] then true
    else if !inString then OnlyQuoteEscapes(s[1..], s[0] == QUOTE)
    else if s[0] == QUOTE then
      if |s| > 1 && s[1] == QUOTE then OnlyQuoteEscapes(s[2..], true)
      else OnlyQuoteEscapes(s[1..], false)
    else if s[0] == BACKSLASH && |s| > 1 then
      && s[1] in {QUOTE, '%', '_'}
      && OnlyQuoteEscapes(s[2..], true)
    else OnlyQuoteEscapes(s[1..], true)
  }

  /** The output means to SQLite what the input means to MySQL exactly when no in-literal
      backslash does more than escape a quote or a LIKE wildcard. */
  lemma {:induction false} MySqlMeaningPreservedIff(s: string)
    ensures Lex(Rewrite(s, false), false, Doubled) == Lex(s, false, MySql) <==> OnlyQuoteEscapes(s, false)
  {
    LiteralMeaningPreserved(s, false);
    DialectsAgreeIff(s, false);
  }

  lemma {:induction false} DialectsAgreeIff(s: string, inString: bool)
    ensures Lex(s, inString, DoubledAndEscapedQuote) == Lex(s, inString, MySql)
       <==> OnlyQuoteEscapes(s, inString)
    decreases |s|
  {
    var a, b := Lex(s, inString, DoubledAndEscapedQuote), Lex(s, inString, MySql);
    if s == [] {
    } else if inString && s[0] == BACKSLASH && |s| > 1 {
      if s[1] == QUOTE {
        DialectsAgreeIff(s[2..], true);
        assert a[1..] == Lex(s[2..], true, DoubledAndEscapedQuote) && b[1..] == Lex(s[2..], true, MySql);
      } else if s[1] in {'%', '_'} {
        DialectsAgreeIff(s[2..], true);
        assert s[1..][1..] == s[2..];
        assert a == [Value(BACKSLASH), Value(s[1])] + Lex(s[2..], true, DoubledAndEscapedQuote);
        assert a[2..] == Lex(s[2..], true, DoubledAndEscapedQuote) && b[2..] == Lex(s[2..], true, MySql);
      } else if s[1] == BACKSLASH {
        BackslashLag(1, s[2..]);
        assert Backslashes(1) + s[2..] == s[1..];
        assert a[1..] == Lex(s[1..], true, DoubledAndEscapedQuote) && b[1..] == Lex(s[2..], true, MySql);
      } else {
        assert a[0] == Value(BACKSLASH) && b[0] == Value(Unescape(s[1]));
      }
    } else if inString && s[0] == QUOTE && |s| > 1 && s[1] == QUOTE {
      DialectsAgreeIff(s[2..], true);
      assert a[1..] == Lex(s[2..], true, DoubledAndEscapedQuote) && b[1..] == Lex(s[2..], true, MySql);
    } else {
      var next := if s[0] == QUOTE then !inString else inString;
      DialectsAgreeIff(s[1..], next);
      assert a[1..] == Lex(s[1..], next, DoubledAndEscapedQuote) && b[1..] == Lex(s[1..], next, MySql);
    }
  }

  function Backslashes(n: nat): string {
    seq(n, i => BACKSLASH)
  }

  /** Once the narrow dialect lags behind MySQL by some backslashes, the readings never meet. */
  lemma {:induction false} BackslashLag(n: nat, t: string)
    requires n > 0
    ensures Lex(t, true, MySql) != Lex(Backslashes(n) + t, true, DoubledAndEscapedQuote)
    decreases |t|
  {
    var late := Backslashes(n) + t;
    var a, b := Lex(t, true, MySql), Lex(late, true, DoubledAndEscapedQuote);
    assert late[0] == BACKSLASH && late[1..] == Backslashes(n - 1) + t;
    if t == [] || t[0] !in {QUOTE, BACKSLASH} {
      if n > 1 || t != [] { assert b[0] == Value(BACKSLASH); }
    } else if t[0] == QUOTE {
      if n > 1 {
        assert late[1] == BACKSLASH && b[0] == Value(BACKSLASH);
      } else {
        assert late[1] == QUOTE && late[2..] == t[1..];
        assert b[0] == Value(QUOTE) && b[1..] == Lex(t[1..], true, DoubledAndEscapedQuote);
        if |t| > 1 && t[1] == QUOTE {
          QuoteLag(t[2..]);
          assert [QUOTE] + t[2..] == t[1..];
          assert a[1..] == Lex(t[2..], true, MySql);
        }
      }
    } else {
      assert late[1] == BACKSLASH;
      assert b[0] == Value(BACKSLASH) && b[1..] == Lex(late[1..], true, DoubledAndEscapedQuote);
      assert late[1..] == Backslashes(n) + t[1..];
      assert late[1..][0] == BACKSLASH;
      if |t| == 1 {
        assert Lex(late[1..], true, DoubledAndEscapedQuote) != [];
      } else if t[1] == BACKSLASH {
        BackslashLag(n + 1, t[2..]);
        assert Backslashes(n + 1) + t[2..] == late[1..];
        assert a[1..] == Lex(t[2..], true, MySql);
      } else if t[1] in {'%', '_'} {
        assert a[1] == Value(t[1]) && late[1..][1] != QUOTE;
        assert b[1] == Value(BACKSLASH);
      }
    }
  }

  /** Nor do they meet once the narrow dialect lags by one quote. */
  lemma {:induction false} QuoteLag(t: string)
    ensures Lex(t, true, MySql) != Lex([QUOTE] + t, true, DoubledAndEscapedQuote)
    decreases |t|
  {
    var late := [QUOTE] + t;
    var a, b := Lex(t, true, MySql), Lex(late, true, DoubledAndEscapedQuote);
    assert late[1..] == t;
    if t != [] && t[0] == QUOTE {
      assert late[2..] == t[1..];
      assert b[0] == Value(QUOTE) && b[1..] == Lex(t[1..], true, DoubledAndEscapedQuote);
      if |t| > 1 && t[1] == QUOTE {
        QuoteLag(t[2..]);
        assert [QUOTE] + t[2..] == t[1..];
        assert a[1..] == Lex(t[2..], true, MySql);
      }
    } else {
      assert b[0] == Close;
    }
  }

  // ---------------------------------------------------------------------------------------
  // Shape of the output, against a one-character-at-a-time automaton
  // ---------------------------------------------------------------------------------------

  /** The reading position of a literal: outside, inside, just after a quote that may close or
      be doubled, just after a backslash. */
  datatype Mode = Out | In | AfterQuote | AfterBackslash {
    predicate InLiteral() { In? || AfterBackslash? }
  }

  function Advance(m: Mode, c: char): Mode {
    if m.InLiteral() then
      if c == QUOTE then (if m.AfterBackslash? then In else AfterQuote)
      else if c == BACKSLASH then AfterBackslash
      else In
    else if c == QUOTE then In
    else Out
  }

  function ModeAfter(m: Mode, s: string): Mode
    decreases |s|
  {
    if s == [] then m else ModeAfter(Advance(m, s[0]), s[1..])
  }

  /** Position i holds a backslash inside a literal, directly before a quote. */
  predicate EscapesQuote(m: Mode, s: string, i: nat) {
    && i + 1 < |s| && s[i] == BACKSLASH && s[i + 1] == QUOTE
    && ModeAfter(m, s[..i]).InLiteral()
  }

  /** The mode the two-state scanner can stand for when it faces `s`. */
  predicate Stands(m: Mode, inString: bool, s: string) {
    && m.InLiteral() == inString
    && ((m.AfterQuote? || m.AfterBackslash?) && s != [] ==> s[0] != QUOTE)
  }

  lemma {:induction false} ModeAfterStep(m: Mode, s: string, i: nat)
    requires 0 < i <= |s|
    ensures ModeAfter(m, s[..i]) == ModeAfter(Advance(m, s[0]), s[1..][..i - 1])
  {
    assert s[..i][1..] == s[1..][..i - 1];
  }

  /** The output has the input's length and differs from it exactly at the in-literal
      backslashes directly before a quote, where it holds a quote. */
  lemma {:induction false} OutputShape(s: string, inString: bool, m: Mode)
    requires Stands(m, inString, s)
    ensures |Rewrite(s, inString)| == |s|
    ensures forall i: nat | i < |s| ::
              Rewrite(s, inString)[i] == if EscapesQuote(m, s, i) then QUOTE else s[i]
    decreases |s|
  {
    var out := Rewrite(s, inString);
    if s == [] {
    } else if inString && |s| > 1 && s[1] == QUOTE && (s[0] == QUOTE || s[0] == BACKSLASH) {
      var m1 := Advance(m, s[0]);
      var m2 := Advance(m1, s[1]);
      OutputShape(s[2..], true, m2);
      forall i: nat | i < |s| ensures out[i] == if EscapesQuote(m, s, i) then QUOTE else s[i] {
        if i >= 2 {
          ModeAfterStep(m, s, i);
          ModeAfterStep(m1, s[1..], i - 1);
          assert s[1..][1..] == s[2..];
          assert out[i] == Rewrite(s[2..], true)[i - 2];
          assert EscapesQuote(m, s, i) == EscapesQuote(m2, s[2..], i - 2);
        }
      }
    } else {
      var next := if s[0] == QUOTE then !inString else inString;
      var m1 := Advance(m, s[0]);
      OutputShape(s[1..], next, m1);
      forall i: nat | i < |s| ensures out[i] == if EscapesQuote(m, s, i) then QUOTE else s[i] {
        if i >= 1 {
          ModeAfterStep(m, s, i);
          assert out[i] == Rewrite(s[1..], next)[i - 1];
          assert EscapesQuote(m, s, i) == EscapesQuote(m1, s[1..], i - 1);
        }
      }
    }
  }

  /** Position i starts two in-literal backslashes directly before a quote. */
  predicate DoublesBackslash(m: Mode, s: string, i: nat) {
    && i + 2 < |s| && s[i] == BACKSLASH && s[i + 1] == BACKSLASH && s[i + 2] == QUOTE
    && ModeAfter(m, s[..i]).InLiteral()
  }

  /** The automaton reads the output as it reads the input, up to the first `\\'`. */
  lemma {:induction false} SameModes(s: string, n: nat)
    requires n <= |s|
    requires forall i: nat | i + 2 <= n :: !DoublesBackslash(Out, s, i)
    requires |Rewrite(s, false)| == |s|
    requires forall i: nat | i < |s| ::
               Rewrite(s, false)[i] == if EscapesQuote(Out, s, i) then QUOTE else s[i]
    ensures var a, b := ModeAfter(Out, s[..n]), ModeAfter(Out, Rewrite(s, false)[..n]);
            b == if n > 0 && EscapesQuote(Out, s, n - 1) then AfterQuote else a
  {
    var out := Rewrite(s, false);
    if n > 0 {
      SameModes(s, n - 1);
      ModeAfterLast(Out, s, n);
      ModeAfterLast(Out, out, n);
      var a := ModeAfter(Out, s[..n - 1]);
      if n > 1 {
        ModeAfterLast(Out, s, n - 1);
        assert !DoublesBackslash(Out, s, n - 2);
      }
    }
  }

  lemma {:induction false} ModeAfterLast(m: Mode, s: string, n: nat)
    requires 0 < n <= |s|
    ensures ModeAfter(m, s[..n]) == Advance(ModeAfter(m, s[..n - 1]), s[n - 1])
    decreases n
  {
    ModeAfterStep(m, s, n);
    if n > 1 {
      ModeAfterStep(m, s, n - 1);
      ModeAfterLast(Advance(m, s[0]), s[1..], n - 1);
    }
  }

  /** A second pass changes nothing exactly when no `\\'` stands inside a literal. */
  lemma {:induction false} SecondPassUnchangedIff(s: string)
    ensures Rewrite(Rewrite(s, false), false) == Rewrite(s, false)
       <==> forall i: nat | i < |s| :: !DoublesBackslash(Out, s, i)
  {
    var out := Rewrite(s, false);
    OutputShape(s, false, Out);
    OutputShape(out, false, Out);
    if i: nat :| i < |s| && DoublesBackslash(Out, s, i) {
      DoubledBackslashSurvives(s, i);
    } else {
      forall i: nat | i < |s| ensures !EscapesQuote(Out, out, i) {
        SameModes(s, i);
        assert !DoublesBackslash(Out, s, i);
        if i + 1 < |s| && EscapesQuote(Out, s, i + 1) {
          assert out[i] == BACKSLASH ==> s[i] == BACKSLASH;
        }
      }
      assert Rewrite(out, false) == out;
    }
  }

  lemma {:induction false} DoubledBackslashSurvives(s: string, i: nat)
    requires i < |s| && DoublesBackslash(Out, s, i)
    ensures Rewrite(Rewrite(s, false), false) != Rewrite(s, false)
    decreases i
  {
    if j: nat :| j < i && DoublesBackslash(Out, s, j) {
      DoubledBackslashSurvives(s, j);
    } else {
      var out := Rewrite(s, false);
      OutputShape(s, false, Out);
      OutputShape(out, false, Out);
      SameModes(s, i);
      ModeAfterLast(Out, s, i + 1);
      assert EscapesQuote(Out, s, i + 1);
      assert EscapesQuote(Out, out, i);
    }
  }

  // ---------------------------------------------------------------------------------------
  // Texts on which the two results fail
  // ---------------------------------------------------------------------------------------

  /** A quoted `\n` is a line break to MySQL, a backslash and an n to SQLite after the pass. */
  lemma LineBreakLost()
    ensures var s := [QUOTE, BACKSLASH, 'n', QUOTE];
            && Lex(s, false, MySql) == [Open, Value('\n'), Close]
            && Lex(Rewrite(s, false), false, Doubled) == [Open, Value(BACKSLASH), Value('n'), Close]
  {
    var s := [QUOTE, BACKSLASH, 'n', QUOTE];
    assert s[1..] == [BACKSLASH, 'n', QUOTE] && s[1..][2..] == [QUOTE] && s[1..][1..] == ['n', QUOTE];
    assert ['n', QUOTE][1..] == [QUOTE] && [QUOTE][1..] == [];
    assert Rewrite([QUOTE], true) == [QUOTE];
    assert Rewrite(['n', QUOTE], true) == ['n', QUOTE];
    assert Rewrite(s[1..], true) == s[1..];
    assert Rewrite(s, false) == s;
    assert Lex([], false, MySql) == [] && Lex([], false, Doubled) == [];
    assert Lex([QUOTE], true, MySql) == [Close];
    assert Lex([QUOTE], true, Doubled) == [Close];
    assert Lex(['n', QUOTE], true, Doubled) == [Value('n'), Close];
    assert Lex(s[1..], true, MySql) == [Value('\n'), Close];
    assert Lex(s[1..], true, Doubled) == [Value(BACKSLASH), Value('n'), Close];
  }

  /** Two backslashes before two quotes, inside a literal, are rewritten anew by a second pass. */
  lemma SecondPassChanges()
    ensures var s := [QUOTE, BACKSLASH, BACKSLASH, QUOTE, QUOTE];
            Rewrite(s, false) == [QUOTE, BACKSLASH, QUOTE, QUOTE, QUOTE]
            && Rewrite(Rewrite(s, false), false) == [QUOTE, QUOTE, QUOTE, QUOTE, QUOTE]
  {
    var s := [QUOTE, BACKSLASH, BACKSLASH, QUOTE, QUOTE];
    assert s[1..] == [BACKSLASH, BACKSLASH, QUOTE, QUOTE];
    assert s[1..][1..] == [BACKSLASH, QUOTE, QUOTE] && s[1..][1..][2..] == [QUOTE] && [QUOTE][1..] == [];
    assert Rewrite([QUOTE], true) == [QUOTE];
    assert Rewrite(s[1..][1..], true) == [QUOTE, QUOTE, QUOTE];
    assert Rewrite(s[1..], true) == [BACKSLASH, QUOTE, QUOTE, QUOTE];
    assert Rewrite(s, false) == [QUOTE, BACKSLASH, QUOTE, QUOTE, QUOTE];
    var t := [QUOTE, BACKSLASH, QUOTE, QUOTE, QUOTE];
    assert t[1..] == [BACKSLASH, QUOTE, QUOTE, QUOTE] && t[1..][2..] == [QUOTE, QUOTE] && [QUOTE, QUOTE][2..] == [];
    assert Rewrite([QUOTE, QUOTE], true) == [QUOTE, QUOTE];
  }
}
