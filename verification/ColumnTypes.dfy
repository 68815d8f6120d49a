/** Column-type translation: a loop over a type map, in any order, whose body replaces every
    case-insensitive whole-word occurrence of one MySQL type by its SQLite type.  The regular
    expression `(?i)\bKEY\b` is modelled character by character. */
module ColumnTypes {

  // ---------------------------------------------------------------------------------------
  // The regular expression
  // ---------------------------------------------------------------------------------------

  /** The word characters of `\b`, which are ASCII only. */
  predicate IsWord(c: char) {
    'a' <= c <= 'z' || 'A' <= c <= 'Z' || '0' <= c <= '9' || c == '_'
  }

  const LONG_S := '\U{017F}'
  const KELVIN := '\U{212A}'

  /** The upper-case ASCII letter that `c` matches under `(?i)`, or `c` itself.  Two characters
      outside ASCII fold to ASCII letters: the long s and the Kelvin sign. */
  function Fold(c: char): char {
    if 'a' <= c <= 'z' then c - 'a' + 'A'
    else if c == LONG_S then 'S'
    else if c == KELVIN then 'K'
    else c
  }

  function FoldAll(s: string): string {
    seq(|s|, i requires 0 <= i < |s| => Fold(s[i]))
  }

  /** Whether the character after a position, if any, is a word character. */
  predicate WordAhead(s: string) {
    s != [] && IsWord(s[0])
  }

  /** `(?i)\bkey\b` matches at the head of `s`, the text before it ending in a word character
      exactly when `afterWord`. */
  predicate MatchesHead(key: string, afterWord: bool, s: string)
    requires key != []
  {
    && |key| <= |s|
    && afterWord != IsWord(s[0])
    && FoldAll(s[..|key|]) == key
    && IsWord(s[|key| - 1]) != WordAhead(s[|key|..])
  }

  /** Replacing every match, leftmost first and without overlap. */
  function ReplaceAll(key: string, to: string, afterWord: bool, s: string): string
    requires key != []
    decreases |s|
  {
    if s == [] then []
    else if MatchesHead(key, afterWord, s) then
      to + ReplaceAll(key, to, IsWord(s[|key| - 1]), s[|key|..])
    else
      [s[0]] + ReplaceAll(key, to, IsWord(s[0]), s[1..])
  }

  // ---------------------------------------------------------------------------------------
  // Words and the simultaneous substitution
  // ---------------------------------------------------------------------------------------

  type TypeMap = map<string, string>

  predicate AllWord(s: string) {
    forall c | c in s :: IsWord(c)
  }

  /** What the proofs need of a type map: keys are upper-case words, values are words, and a
      value that is itself a key stands for itself. */
  predicate WellFormed(m: TypeMap) {
    forall k | k in m ::
      && k != [] && m[k] != [] && AllWord(m[k])
      && AllWord(k) && FoldAll(k) == k
      && (FoldAll(m[k]) in m ==> m[FoldAll(m[k])] == m[k])
  }

  /** A maximal run of word characters, or one other character. */
  datatype Token = Word(text: string) | Other(c: char)

  function WordLength(s: string): (n: nat)
    ensures n <= |s| && AllWord(s[..n]) && !WordAhead(s[n..])
  {
    if WordAhead(s) then
      var n := 1 + WordLength(s[1..]);
      assert s[..n] == [s[0]] + s[1..][..n - 1] && s[n..] == s[1..][n - 1..];
      n
    else 0
  }

  function Tokens(s: string): seq<Token>
    decreases |s|
  {
    if s == [] then []
    else if IsWord(s[0]) then
      assert WordLength(s) > 0;
      [Word(s[..WordLength(s)])] + Tokens(s[WordLength(s)..])
    else [Other(s[0])] + Tokens(s[1..])
  }

  /** The type a word stands for. */
  function Translated(m: TypeMap, w: string): string {
    if FoldAll(w) in m then m[FoldAll(w)] else w
  }

  function TranslatedToken(m: TypeMap, t: Token): Token {
    match t
    case Word(w) => Word(Translated(m, w))
    case Other(_) => t
  }

  function TranslatedTokens(m: TypeMap, ts: seq<Token>): seq<Token> {
    seq(|ts|, i requires 0 <= i < |ts| => TranslatedToken(m, ts[i]))
  }

  function Text(ts: seq<Token>): string {
    if ts == [] then []
    else (match ts[0] case Word(w) => w case Other(c) => [c]) + Text(ts[1..])
  }

  /** Every word replaced at once. */
  function Substitute(m: TypeMap, s: string): string {
    Text(TranslatedTokens(m, Tokens(s)))
  }

  /** No character outside the ASCII words folds to a letter of a key.  For the type map of the
      translator this says only that the text holds no long s. */
  predicate FoldsWithinWords(m: TypeMap, s: string) {
    forall c, k | c in s && k in m && !IsWord(c) :: Fold(c) !in k
  }

  // ---------------------------------------------------------------------------------------
  // Tokens
  // ---------------------------------------------------------------------------------------

  lemma {:induction false} WordLengthOfRun(w: string, rest: string)
    requires AllWord(w) && !WordAhead(rest)
    ensures WordLength(w + rest) == |w|
    ensures (w + rest)[..|w|] == w && (w + rest)[|w|..] == rest
  {
  }

  lemma {:induction false} TokensOfRun(w: string, rest: string)
    requires w != [] && AllWord(w) && !WordAhead(rest)
    ensures Tokens(w + rest) == [Word(w)] + Tokens(rest)
  {
    WordLengthOfRun(w, rest);
    assert IsWord((w + rest)[0]);
  }

  lemma {:induction false} SubstituteUnfolds(m: TypeMap, s: string)
    requires s != []
    ensures !IsWord(s[0]) ==> Substitute(m, s) == [s[0]] + Substitute(m, s[1..])
    ensures IsWord(s[0]) ==>
              var n := WordLength(s);
              Substitute(m, s) == Translated(m, s[..n]) + Substitute(m, s[n..])
  {
    var ts := Tokens(s);
    assert TranslatedTokens(m, ts)[1..] == TranslatedTokens(m, ts[1..]);
  }

  lemma TranslatedIsRun(m: TypeMap, w: string)
    requires WellFormed(m) && w != [] && AllWord(w)
    ensures Translated(m, w) != [] && AllWord(Translated(m, w))
  {
  }

  /** A substitution keeps the token structure: token for token, a word in the map becomes its
      type and everything else is unchanged. */
  lemma {:induction false} SubstituteTokenwise(m: TypeMap, s: string)
    requires WellFormed(m)
    ensures Tokens(Substitute(m, s)) == TranslatedTokens(m, Tokens(s))
    ensures WordAhead(Substitute(m, s)) == WordAhead(s)
    decreases |s|
  {
    if s != [] {
      SubstituteUnfolds(m, s);
      var ts := Tokens(s);
      assert TranslatedTokens(m, ts) == [TranslatedToken(m, ts[0])] + TranslatedTokens(m, ts[1..]);
      if IsWord(s[0]) {
        var n := WordLength(s);
        var w := Translated(m, s[..n]);
        assert s[..n][0] == s[0];
        SubstituteTokenwise(m, s[n..]);
        TranslatedIsRun(m, s[..n]);
        TokensOfRun(w, Substitute(m, s[n..]));
        assert w[0] in w;
      } else {
        SubstituteTokenwise(m, s[1..]);
        var out := Substitute(m, s);
        assert out[0] == s[0] && out[1..] == Substitute(m, s[1..]);
      }
    }
  }

  // ---------------------------------------------------------------------------------------
  // One replacement is a substitution by one key
  // ---------------------------------------------------------------------------------------

  /** Inside a word nothing matches, so the rest of the word is copied. */
  lemma {:induction false} RestOfWordCopied(key: string, to: string, w: string, rest: string)
    requires key != [] && AllWord(w) && !WordAhead(rest)
    ensures ReplaceAll(key, to, true, w + rest) == w + ReplaceAll(key, to, true, rest)
  {
    var s := w + rest;
    if w == [] {
      assert s == rest;
    } else {
      assert s[0] == w[0] && s[1..] == w[1..] + rest;
      assert w[0] in w;
      RestOfWordCopied(key, to, w[1..], rest);
      assert [w[0]] + (w[1..] + ReplaceAll(key, to, true, rest)) == w + ReplaceAll(key, to, true, rest);
    }
  }

  lemma MatchIsWholeWord(key: string, m: TypeMap, w: string, rest: string)
    requires key in m && WellFormed(m) && FoldsWithinWords(m, w + rest)
    requires w != [] && AllWord(w) && !WordAhead(rest)
    ensures MatchesHead(key, false, w + rest) <==> FoldAll(w) == key
  {
    var s := w + rest;
    assert s[0] == w[0] && w[0] in w;
    if FoldAll(w) == key {
      assert s[..|key|] == w && s[|key|..] == rest;
      assert s[|key| - 1] == w[|w| - 1] && w[|w| - 1] in w;
    }
    if MatchesHead(key, false, s) {
      var head := s[..|key|];
      forall i | 0 <= i < |key| ensures IsWord(s[i]) {
        assert Fold(s[i]) == FoldAll(head)[i] == key[i];
        assert s[i] in s && key[i] in key;
      }
      assert s == head + s[|key|..];
      WordLengthOfRun(head, s[|key|..]);
      WordLengthOfRun(w, rest);
    }
  }

  function Single(key: string, m: TypeMap): TypeMap
    requires key in m
  {
    map[key := m[key]]
  }

  lemma {:induction false} ReplaceAtWord(m: TypeMap, key: string, w: string, rest: string)
    requires WellFormed(m) && key in m && FoldsWithinWords(m, w + rest)
    requires w != [] && AllWord(w) && !WordAhead(rest)
    ensures ReplaceAll(key, m[key], false, w + rest)
         == Translated(Single(key, m), w) + ReplaceAll(key, m[key], true, rest)
  {
    var s := w + rest;
    MatchIsWholeWord(key, m, w, rest);
    assert w[0] in w && w[|w| - 1] in w;
    if FoldAll(w) == key {
      assert s[|key| - 1] == w[|w| - 1] && s[|key|..] == rest;
    } else {
      assert s[1..] == w[1..] + rest;
      RestOfWordCopied(key, m[key], w[1..], rest);
      assert [w[0]] + (w[1..] + ReplaceAll(key, m[key], true, rest)) == w + ReplaceAll(key, m[key], true, rest);
    }
  }

  lemma NoMatchOutsideWords(m: TypeMap, key: string, afterWord: bool, s: string)
    requires WellFormed(m) && key in m && FoldsWithinWords(m, s)
    requires s != [] && !IsWord(s[0])
    ensures !MatchesHead(key, afterWord, s)
  {
    assert s[0] in s && key[0] in key;
    if |key| <= |s| {
      assert FoldAll(s[..|key|])[0] == Fold(s[0]);
    }
  }

  lemma ReplaceAfterOther(m: TypeMap, key: string, afterWord: bool, s: string)
    requires WellFormed(m) && key in m && FoldsWithinWords(m, s) && s != [] && !IsWord(s[0])
    ensures ReplaceAll(key, m[key], afterWord, s) == [s[0]] + ReplaceAll(key, m[key], false, s[1..])
  {
    NoMatchOutsideWords(m, key, afterWord, s);
  }

  lemma ReplaceFirstWord(m: TypeMap, key: string, s: string, n: nat)
    requires WellFormed(m) && key in m && FoldsWithinWords(m, s) && s != [] && IsWord(s[0]) && n == WordLength(s)
    ensures ReplaceAll(key, m[key], false, s)
         == Translated(Single(key, m), s[..n]) + ReplaceAll(key, m[key], true, s[n..])
  {
    assert s == s[..n] + s[n..] && s[..n] != [];
    ReplaceAtWord(m, key, s[..n], s[n..]);
  }

  /** On a text that folds within words, the regular expression replaces exactly the words
      equal to the key. */
  lemma {:induction false} ReplaceAllIsSubstitute(m: TypeMap, key: string, afterWord: bool, s: string)
    requires WellFormed(m) && key in m && FoldsWithinWords(m, s)
    requires afterWord ==> !WordAhead(s)
    ensures ReplaceAll(key, m[key], afterWord, s) == Substitute(Single(key, m), s)
    decreases |s|
  {
    if s != [] {
      SubstituteUnfolds(Single(key, m), s);
      if IsWord(s[0]) {
        var n := WordLength(s);
        ReplaceFirstWord(m, key, s, n);
        FoldsWithinSuffix(m, s, n);
        ReplaceAllIsSubstitute(m, key, true, s[n..]);
      } else {
        ReplaceAfterOther(m, key, afterWord, s);
        FoldsWithinSuffix(m, s, 1);
        ReplaceAllIsSubstitute(m, key, false, s[1..]);
      }
    }
  }

  lemma FoldsWithinSuffix(m: TypeMap, s: string, n: nat)
    requires n <= |s| && FoldsWithinWords(m, s)
    ensures FoldsWithinWords(m, s[n..])
  {
  }

  // ---------------------------------------------------------------------------------------
  // Any order of replacements is the simultaneous substitution
  // ---------------------------------------------------------------------------------------

  function Restrict(m: TypeMap, keys: set<string>): TypeMap {
    map k | k in m && k in keys :: m[k]
  }

  lemma TranslatedAfter(m: TypeMap, done: set<string>, key: string, w: string)
    requires WellFormed(m) && key in m
    ensures Translated(Single(key, m), Translated(Restrict(m, done), w)) == Translated(Restrict(m, done + {key}), w)
  {
  }

  /** Substituting the keys `done` and then one more key substitutes them all. */
  lemma {:induction false} SubstituteAfter(m: TypeMap, done: set<string>, key: string, s: string)
    requires WellFormed(m) && key in m
    ensures WellFormed(Restrict(m, done))
    ensures Substitute(Single(key, m), Substitute(Restrict(m, done), s)) == Substitute(Restrict(m, done + {key}), s)
  {
    var some, all, one := Restrict(m, done), Restrict(m, done + {key}), Single(key, m);
    SubstituteTokenwise(some, s);
    var ts := Tokens(s);
    forall i | 0 <= i < |ts| ensures TranslatedToken(one, TranslatedToken(some, ts[i])) == TranslatedToken(all, ts[i]) {
      if ts[i].Word? { TranslatedAfter(m, done, key, ts[i].text); }
    }
    assert TranslatedTokens(one, TranslatedTokens(some, ts)) == TranslatedTokens(all, ts);
  }

  lemma {:induction false} SubstituteStaysWithinWords(m: TypeMap, part: TypeMap, s: string)
    requires WellFormed(part) && FoldsWithinWords(m, s)
    ensures FoldsWithinWords(m, Substitute(part, s))
    decreases |s|
  {
    if s != [] {
      SubstituteUnfolds(part, s);
      if IsWord(s[0]) {
        var n := WordLength(s);
        assert s[..n][0] == s[0];
        TranslatedIsRun(part, s[..n]);
        SubstituteStaysWithinWords(m, part, s[n..]);
      } else {
        SubstituteStaysWithinWords(m, part, s[1..]);
        assert s[0] in s;
      }
    }
  }

  lemma {:induction false} EmptySubstitute(s: string)
    ensures Substitute(map[], s) == s
    decreases |s|
  {
    if s != [] {
      SubstituteUnfolds(map[], s);
      if IsWord(s[0]) {
        EmptySubstitute(s[WordLength(s)..]);
      } else {
        EmptySubstitute(s[1..]);
      }
    }
  }

  /** The text after replacing the keys of `order` one after the other. */
  function ReplaceInOrder(m: TypeMap, order: seq<string>, s: string): string
    requires forall k | k in order :: k in m && k != []
  {
    if order == [] then s
    else
      var last := order[|order| - 1];
      ReplaceAll(last, m[last], false, ReplaceInOrder(m, order[..|order| - 1], s))
  }

  function Keys(order: seq<string>): set<string> {
    set k | k in order
  }

  /** Confluence: replacing any keys, in any order and with any repetitions, is one
      simultaneous substitution of those keys. */
  lemma {:induction false} Confluent(m: TypeMap, order: seq<string>, s: string)
    requires WellFormed(m) && FoldsWithinWords(m, s)
    requires forall k | k in order :: k in m
    ensures ReplaceInOrder(m, order, s) == Substitute(Restrict(m, Keys(order)), s)
    ensures FoldsWithinWords(m, ReplaceInOrder(m, order, s))
  {
    if order == [] {
      EmptySubstitute(s);
      assert Restrict(m, Keys(order)) == map[];
    } else {
      var last, before := order[|order| - 1], order[..|order| - 1];
      Confluent(m, before, s);
      assert order == before + [last];
      OneMoreKey(m, Keys(before), last, s, ReplaceInOrder(m, before, s));
      assert Keys(order) == Keys(before) + {last};
    }
  }

  lemma OneMoreKey(m: TypeMap, done: set<string>, last: string, s: string, text: string)
    requires WellFormed(m) && FoldsWithinWords(m, s) && last in m && done <= m.Keys
    requires text == Substitute(Restrict(m, done), s) && FoldsWithinWords(m, text)
    ensures ReplaceAll(last, m[last], false, text) == Substitute(Restrict(m, done + {last}), s)
    ensures FoldsWithinWords(m, ReplaceAll(last, m[last], false, text))
  {
    ReplaceAllIsSubstitute(m, last, false, text);
    SubstituteAfter(m, done, last, s);
    SubstituteStaysWithinWords(m, Single(last, m), text);
  }

  lemma RestrictAll(m: TypeMap, keys: set<string>)
    requires keys == m.Keys
    ensures Restrict(m, keys) == m
  {
  }

  /** Two complete passes in any two orders: the first has the same result as any other, leaves
      the token structure, and the second changes nothing. */
  lemma {:induction false} DeterministicAndIdempotent(m: TypeMap, order: seq<string>, other: seq<string>, s: string)
    requires WellFormed(m) && FoldsWithinWords(m, s)
    requires Keys(order) == m.Keys == Keys(other)
    requires forall k | k in order || k in other :: k in m && k != []
    ensures ReplaceInOrder(m, order, s) == ReplaceInOrder(m, other, s)
    ensures Tokens(ReplaceInOrder(m, order, s)) == TranslatedTokens(m, Tokens(s))
    ensures ReplaceInOrder(m, other, ReplaceInOrder(m, order, s)) == ReplaceInOrder(m, order, s)
  {
    Confluent(m, order, s);
    Confluent(m, other, s);
    RestrictAll(m, m.Keys);
    SubstituteTokenwise(m, s);
    var once := ReplaceInOrder(m, order, s);
    Confluent(m, other, once);
    var ts := Tokens(s);
    assert TranslatedTokens(m, TranslatedTokens(m, ts)) == TranslatedTokens(m, ts);
  }

  lemma Visit(m: TypeMap, order: seq<string>, key: string, s: string)
    requires key in m && key != [] && forall k | k in order :: k in m && k != []
    ensures Keys(order + [key]) == Keys(order) + {key}
    ensures forall k | k in order + [key] :: k in m && k != []
    ensures ReplaceInOrder(m, order + [key], s) == ReplaceAll(key, m[key], false, ReplaceInOrder(m, order, s))
  {
  }

  /** The translator's loop: Go visits the map's keys in an unspecified order. */
  method ReplaceTypes(m: TypeMap, sql: string) returns (result: string)
    requires WellFormed(m)
    ensures exists order: seq<string> ::
              && Keys(order) == m.Keys && |order| == |m|
              && (forall k | k in order :: k in m && k != [])
              && result == ReplaceInOrder(m, order, sql)
    ensures FoldsWithinWords(m, sql) ==> result == Substitute(m, sql)
  {
    result := sql;
    var remaining := m.Keys;
    ghost var order: seq<string> := [];
    while remaining != {}
      invariant remaining <= m.Keys && Keys(order) == m.Keys - remaining
      invariant |order| + |remaining| == |m|
      invariant forall k | k in order :: k in m && k != []
      invariant result == ReplaceInOrder(m, order, sql)
      decreases remaining
    {
      var key :| key in remaining;
      result := ReplaceAll(key, m[key], false, result);
      remaining := remaining - {key};
      Visit(m, order, key, sql);
      order := order + [key];
    }
    assert Keys(order) == m.Keys;
    if FoldsWithinWords(m, sql) {
      Confluent(m, order, sql);
      RestrictAll(m, m.Keys);
    }
  }

  // ---------------------------------------------------------------------------------------
  // The translator's own map
  // ---------------------------------------------------------------------------------------

  const INTEGER_TYPES := {
    "TINYINT", "SMALLINT", "MEDIUMINT", "INT", "INTEGER", "BIGINT", "YEAR", "BOOLEAN", "BOOL"
  }
  const REAL_TYPES := {"FLOAT", "DOUBLE", "DECIMAL", "NUMERIC"}
  const STRING_TYPES := {
    "VARCHAR", "CHAR", "TINYTEXT", "TEXT", "MEDIUMTEXT", "LONGTEXT", "ENUM", "SET", "JSON"
  }
  const TIME_TYPES := {"DATE", "TIME", "DATETIME", "TIMESTAMP"}
  const BLOB_TYPES := {"VARBINARY", "BINARY", "TINYBLOB", "BLOB", "MEDIUMBLOB", "LONGBLOB"}

  function Constant(keys: set<string>, value: string): TypeMap {
    map k | k in keys :: value
  }

  function DefaultTypeMap(): TypeMap {
    Constant(INTEGER_TYPES, "INTEGER") + Constant(REAL_TYPES, "REAL") + Constant(STRING_TYPES, "TEXT")
    + Constant(TIME_TYPES, "TEXT") + Constant(BLOB_TYPES, "BLOB")
  }

  predicate UpperCase(s: string) {
    s != [] && forall i | 0 <= i < |s| :: 'A' <= s[i] <= 'Z'
  }

  lemma UpperCaseIsWord(s: string)
    requires UpperCase(s)
    ensures AllWord(s) && FoldAll(s) == s
  {
  }

  /** Upper-case keys without a K; the only type name among them is their own value. */
  predicate Group(m: TypeMap) {
    forall k | k in m ::
      && UpperCase(k) && 'K' !in k
      && (m[k] == "INTEGER" || m[k] == "REAL" || m[k] == "TEXT" || m[k] == "BLOB")
  }

  /** Type names among the keys stand for themselves. */
  predicate TypeNamesFixed(m: TypeMap) {
    && ("INTEGER" in m ==> m["INTEGER"] == "INTEGER")
    && ("REAL" in m ==> m["REAL"] == "REAL")
    && ("TEXT" in m ==> m["TEXT"] == "TEXT")
    && ("BLOB" in m ==> m["BLOB"] == "BLOB")
  }

  lemma IntegerTypes()
    ensures Group(Constant(INTEGER_TYPES, "INTEGER")) && TypeNamesFixed(Constant(INTEGER_TYPES, "INTEGER"))
  {
  }

  lemma RealTypes()
    ensures Group(Constant(REAL_TYPES, "REAL")) && TypeNamesFixed(Constant(REAL_TYPES, "REAL"))
  {
  }

  lemma StringTypes()
    ensures Group(Constant(STRING_TYPES, "TEXT")) && TypeNamesFixed(Constant(STRING_TYPES, "TEXT"))
  {
  }

  lemma TimeTypes()
    ensures Group(Constant(TIME_TYPES, "TEXT")) && TypeNamesFixed(Constant(TIME_TYPES, "TEXT"))
  {
  }

  lemma BlobTypes()
    ensures Group(Constant(BLOB_TYPES, "BLOB")) && TypeNamesFixed(Constant(BLOB_TYPES, "BLOB"))
  {
  }

  lemma GroupSum(a: TypeMap, b: TypeMap)
    requires Group(a) && Group(b) && TypeNamesFixed(a) && TypeNamesFixed(b)
    ensures Group(a + b) && TypeNamesFixed(a + b)
  {
  }

  lemma GroupMeetsConditions(m: TypeMap)
    requires Group(m) && TypeNamesFixed(m)
    ensures WellFormed(m)
    ensures forall s: string | LONG_S !in s :: FoldsWithinWords(m, s)
  {
    assert UpperCase("INTEGER") && UpperCase("REAL") && UpperCase("TEXT") && UpperCase("BLOB");
    forall k | UpperCase(k) ensures AllWord(k) && FoldAll(k) == k { UpperCaseIsWord(k); }
  }

  /** The translator's map meets what the proofs need, and for it the guard holds of every text
      without a long s. */
  lemma DefaultTypeMapMeetsConditions()
    ensures WellFormed(DefaultTypeMap())
    ensures forall s: string | LONG_S !in s :: FoldsWithinWords(DefaultTypeMap(), s)
  {
    IntegerTypes();
    RealTypes();
    StringTypes();
    TimeTypes();
    BlobTypes();
    var a, b, c := Constant(INTEGER_TYPES, "INTEGER"), Constant(REAL_TYPES, "REAL"), Constant(STRING_TYPES, "TEXT");
    GroupSum(a, b);
    GroupSum(a + b, c);
    GroupSum(a + b + c, Constant(TIME_TYPES, "TEXT"));
    GroupSum(a + b + c + Constant(TIME_TYPES, "TEXT"), Constant(BLOB_TYPES, "BLOB"));
    GroupMeetsConditions(DefaultTypeMap());
  }

  lemma {:induction false} ReplaceInTwoParts(m: TypeMap, first: seq<string>, second: seq<string>, s: string)
    requires forall k | k in first || k in second :: k in m && k != []
    ensures ReplaceInOrder(m, first + second, s) == ReplaceInOrder(m, second, ReplaceInOrder(m, first, s))
    decreases |second|
  {
    if second == [] {
      assert first + second == first;
    } else {
      var before := second[..|second| - 1];
      assert (first + second)[..|first + second| - 1] == first + before;
      ReplaceInTwoParts(m, first, before, s);
    }
  }

  lemma NoMatchAt(key: string, afterWord: bool, s: string, i: nat)
    requires i < |key| && (i < |s| ==> Fold(s[i]) != key[i])
    ensures !MatchesHead(key, afterWord, s)
  {
  }

  lemma {:induction false} HeadCopied(key: string, to: string, afterWord: bool, s: string, n: nat)
    requires key != [] && 0 < n <= |s|
    requires forall i | 0 <= i < n :: Fold(s[i]) != key[0]
    ensures ReplaceAll(key, to, afterWord, s) == s[..n] + ReplaceAll(key, to, IsWord(s[n - 1]), s[n..])
    decreases n
  {
    NoMatchAt(key, afterWord, s, 0);
    if n > 1 {
      HeadCopied(key, to, IsWord(s[0]), s[1..], n - 1);
      assert s[1..][n - 1..] == s[n..] && [s[0]] + s[1..][..n - 1] == s[..n];
    }
  }

  const INT_LONG_SET := "INT\U{017F}ET"

  lemma IntBeforeSet()
    ensures ReplaceAll("SET", "TEXT", false, ReplaceAll("INT", "INTEGER", false, INT_LONG_SET)) == "INTEGERTEXT"
  {
    var s, tail := INT_LONG_SET, "\U{017F}ET";
    assert s[..3] == "INT" && FoldAll("INT") == "INT" && s[3..] == tail;
    HeadCopied("INT", "INTEGER", true, tail, 3);
    assert ReplaceAll("INT", "INTEGER", false, s) == "INTEGER" + tail;
    SetAtTail("INTEGER");
  }

  lemma SetAtTail(w: string)
    requires w != [] && AllWord(w) && forall c | c in w :: Fold(c) != 'S'
    ensures ReplaceAll("SET", "TEXT", false, w + "\U{017F}ET") == w + "TEXT"
  {
    var tail := "\U{017F}ET";
    var s := w + tail;
    assert forall i | 0 <= i < |w| :: s[i] in w;
    HeadCopied("SET", "TEXT", false, s, |w|);
    assert s[|w|..] == tail && s[..|w|] == w && IsWord(s[|w| - 1]);
    assert tail[..3] == tail && FoldAll(tail) == "SET" && tail[3..] == [];
    assert ReplaceAll("SET", "TEXT", true, tail) == "TEXT" + ReplaceAll("SET", "TEXT", true, []);
  }

  lemma IntNotInWord()
    ensures ReplaceAll("INT", "INTEGER", false, "INTTEXT") == "INTTEXT"
  {
  }

  lemma SetBeforeInt()
    ensures ReplaceAll("INT", "INTEGER", false, ReplaceAll("SET", "TEXT", false, INT_LONG_SET)) == "INTTEXT"
  {
    SetAtTail("INT");
    assert INT_LONG_SET == "INT" + "\U{017F}ET" && "INT" + "TEXT" == "INTTEXT";
    IntNotInWord();
  }

  lemma WholeWordLeft(m: TypeMap, order: seq<string>, w: string)
    requires WellFormed(m) && (forall k | k in order :: k in m)
    requires UpperCase(w) && w !in m
    ensures ReplaceInOrder(m, order, w) == w
  {
    UpperCaseIsWord(w);
    Confluent(m, order, w);
    var part := Restrict(m, Keys(order));
    TokensOfRun(w, "");
    assert w + "" == w && Tokens(w) == [Word(w)];
    assert TranslatedTokens(part, [Word(w)]) == [Word(w)];
    assert Text([Word(w)]) == w + Text([]);
  }

  lemma TwoThenRest(m: TypeMap, a: string, b: string, rest: seq<string>, s: string)
    requires forall k | k in [a, b] || k in rest :: k in m && k != []
    ensures ReplaceInOrder(m, [a, b] + rest, s)
         == ReplaceInOrder(m, rest, ReplaceAll(b, m[b], false, ReplaceAll(a, m[a], false, s)))
  {
    ReplaceInTwoParts(m, [a, b], rest, s);
    assert [a, b][..1] == [a] && [a][..0] == [];
    assert ReplaceInOrder(m, [a], s) == ReplaceAll(a, m[a], false, s);
  }

  /** The entries of a map that make a long s matter. */
  predicate ReplacesIntAndSet(m: TypeMap) {
    && "INT" in m && m["INT"] == "INTEGER" && "SET" in m && m["SET"] == "TEXT"
    && "INTTEXT" !in m && "INTEGERTEXT" !in m
  }

  /** With a long s the order matters: INT before SET and SET before INT end in different
      texts, whatever order the remaining keys follow in. */
  lemma LongSOrderMatters(m: TypeMap, rest: seq<string>)
    requires WellFormed(m) && (forall k | k in rest :: k in m) && ReplacesIntAndSet(m)
    ensures ReplaceInOrder(m, ["INT", "SET"] + rest, INT_LONG_SET) == "INTEGERTEXT"
    ensures ReplaceInOrder(m, ["SET", "INT"] + rest, INT_LONG_SET) == "INTTEXT"
  {
    IntThenSet(m, rest);
    SetThenInt(m, rest);
  }

  lemma IntThenSet(m: TypeMap, rest: seq<string>)
    requires WellFormed(m) && (forall k | k in rest :: k in m) && ReplacesIntAndSet(m)
    ensures ReplaceInOrder(m, ["INT", "SET"] + rest, INT_LONG_SET) == "INTEGERTEXT"
  {
    var last := "INTEGERTEXT";
    assert UpperCase(last);
    WholeWordLeft(m, rest, last);
    IntBeforeSet();
    TwoThenRest(m, "INT", "SET", rest, INT_LONG_SET);
  }

  lemma SetThenInt(m: TypeMap, rest: seq<string>)
    requires WellFormed(m) && (forall k | k in rest :: k in m) && ReplacesIntAndSet(m)
    ensures ReplaceInOrder(m, ["SET", "INT"] + rest, INT_LONG_SET) == "INTTEXT"
  {
    var last := "INTTEXT";
    assert UpperCase(last);
    WholeWordLeft(m, rest, last);
    SetBeforeInt();
    TwoThenRest(m, "SET", "INT", rest, INT_LONG_SET);
  }

  lemma IntegersHaveInt()
    ensures "INT" in INTEGER_TYPES && "SET" !in INTEGER_TYPES
    ensures "INTTEXT" !in INTEGER_TYPES && "INTEGERTEXT" !in INTEGER_TYPES
  {
  }

  lemma StringsHaveSet()
    ensures "SET" in STRING_TYPES && "INT" !in STRING_TYPES
    ensures "INTTEXT" !in STRING_TYPES && "INTEGERTEXT" !in STRING_TYPES
  {
  }

  lemma OthersHaveNeither()
    ensures {"INT", "SET", "INTTEXT", "INTEGERTEXT"} !! REAL_TYPES
    ensures {"INT", "SET", "INTTEXT", "INTEGERTEXT"} !! TIME_TYPES
    ensures {"INT", "SET", "INTTEXT", "INTEGERTEXT"} !! BLOB_TYPES
  {
  }

  lemma ConstantSum(integers: set<string>, reals: set<string>, strings: set<string>, times: set<string>, blobs: set<string>)
    requires "INT" in integers && "SET" in strings
    requires {"INT", "INTTEXT", "INTEGERTEXT"} !! strings && {"SET", "INTTEXT", "INTEGERTEXT"} !! integers
    requires {"INT", "SET", "INTTEXT", "INTEGERTEXT"} !! reals
    requires {"INT", "SET", "INTTEXT", "INTEGERTEXT"} !! times
    requires {"INT", "SET", "INTTEXT", "INTEGERTEXT"} !! blobs
    ensures ReplacesIntAndSet(Constant(integers, "INTEGER") + Constant(reals, "REAL") + Constant(strings, "TEXT")
                              + Constant(times, "TEXT") + Constant(blobs, "BLOB"))
  {
  }

  /** The translator's own map is one for which a long s makes the order matter. */
  lemma DefaultTypeMapReplacesIntAndSet()
    ensures ReplacesIntAndSet(DefaultTypeMap())
  {
    IntegersHaveInt();
    StringsHaveSet();
    OthersHaveNeither();
    ConstantSum(INTEGER_TYPES, REAL_TYPES, STRING_TYPES, TIME_TYPES, BLOB_TYPES);
  }

  // ---------------------------------------------------------------------------------------
  // The texts on which the order does not matter
  // ---------------------------------------------------------------------------------------

  /** An order in which the loop may visit the map. */
  predicate VisitsOnce(m: TypeMap, order: seq<string>) {
    Keys(order) == m.Keys && |order| == |m| && forall k | k in order :: k in m && k != []
  }

  ghost predicate OrderIrrelevant(m: TypeMap, s: string) {
    forall a, b | VisitsOnce(m, a) && VisitsOnce(m, b) :: ReplaceInOrder(m, a, s) == ReplaceInOrder(m, b, s)
  }

  predicate Over(alphabet: set<char>, s: string) {
    forall c | c in s :: c in alphabet
  }

  lemma {:induction false} Listing(keys: set<string>) returns (order: seq<string>)
    ensures Keys(order) == keys && |order| == |keys|
    decreases |keys|
  {
    if keys == {} {
      order := [];
    } else {
      var k :| k in keys;
      var rest := Listing(keys - {k});
      order := [k] + rest;
      assert Keys(order) == {k} + Keys(rest);
    }
  }

  lemma TwoFirst(m: TypeMap, a: string, b: string, rest: seq<string>)
    requires a in m && b in m && a != b && Keys(rest) == m.Keys - {a, b} && |rest| == |m.Keys - {a, b}|
    requires forall k | k in m :: k != []
    ensures VisitsOnce(m, [a, b] + rest)
  {
    assert m.Keys == {a, b} + (m.Keys - {a, b});
    assert forall k | k in [a, b] + rest :: k == a || k == b || k in Keys(rest);
    assert forall k | k in Keys(rest) :: k in [a, b] + rest;
    assert ([a, b] + rest)[0] == a && ([a, b] + rest)[1] == b;
  }

  /** Two complete visits that end in different texts, one in each order of two keys. */
  lemma PairDepends(m: TypeMap, a: string, b: string, rest: seq<string>, s: string)
    requires a in m && b in m && a != b && Keys(rest) == m.Keys - {a, b} && |rest| == |m.Keys - {a, b}|
    requires (forall k | k in m :: k != []) && (forall k | k in rest :: k in m)
    requires |ReplaceInOrder(m, [a, b] + rest, s)| != |ReplaceInOrder(m, [b, a] + rest, s)|
    ensures !OrderIrrelevant(m, s)
  {
    TwoFirst(m, a, b, rest);
    assert {a, b} == {b, a};
    TwoFirst(m, b, a, rest);
  }

  lemma LongSTextDepends(m: TypeMap)
    requires WellFormed(m) && ReplacesIntAndSet(m)
    ensures !OrderIrrelevant(m, INT_LONG_SET)
  {
    var i, s := "INT", "SET";
    var rest := Listing(m.Keys - {i, s});
    assert forall k | k in rest :: k in Keys(rest);
    LongSOrderMatters(m, rest);
    PairDepends(m, i, s, rest, INT_LONG_SET);
  }

  lemma DeterministicOver(m: TypeMap, s: string)
    requires WellFormed(m) && FoldsWithinWords(m, s)
    ensures OrderIrrelevant(m, s)
  {
    forall a, b | VisitsOnce(m, a) && VisitsOnce(m, b) ensures ReplaceInOrder(m, a, s) == ReplaceInOrder(m, b, s) {
      DeterministicAndIdempotent(m, a, b, s);
    }
  }

  /** For any alphabet with the letters I, N, T and E, every text is translated the same way in
      every order exactly when the long s is not in the alphabet. */
  lemma DeterministicIff(m: TypeMap, alphabet: set<char>)
    requires WellFormed(m) && ReplacesIntAndSet(m)
    requires forall s: string | LONG_S !in s :: FoldsWithinWords(m, s)
    requires {'I', 'N', 'T', 'E'} <= alphabet
    ensures (forall s | Over(alphabet, s) :: OrderIrrelevant(m, s)) <==> LONG_S !in alphabet
  {
    if LONG_S in alphabet {
      LongSTextDepends(m);
      assert Over(alphabet, INT_LONG_SET);
    } else {
      forall s | Over(alphabet, s) ensures OrderIrrelevant(m, s) { DeterministicOver(m, s); }
    }
  }

  /** The translator's map meets what DeterministicIff asks. */
  lemma DefaultMapDeterministicIff(alphabet: set<char>)
    requires {'I', 'N', 'T', 'E'} <= alphabet
    ensures (forall s | Over(alphabet, s) :: OrderIrrelevant(DefaultTypeMap(), s)) <==> LONG_S !in alphabet
  {
    DefaultTypeMapMeetsConditions();
    DefaultTypeMapReplacesIntAndSet();
    DeterministicIff(DefaultTypeMap(), alphabet);
  }

  /** The pass with the translator's map: on every text without a long s, hence on every ASCII
      text, its result is the simultaneous substitution, whatever order the loop took. */
  method TranslateColumnTypes(sql: string) returns (result: string)
    ensures LONG_S !in sql ==> result == Substitute(DefaultTypeMap(), sql)
  {
    DefaultTypeMapMeetsConditions();
    result := ReplaceTypes(DefaultTypeMap(), sql);
  }
}
