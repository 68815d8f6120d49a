/** The translation of column types read on the text: which words are replaced, by what, and what
    is left alone. */
module TypeLaws {
  import opened ColumnTypes

  /** A letter, a digit or an underscore. */
  predicate Identifier(c: char) {
    '0' <= c <= '9' || 'A' <= c <= 'Z' || 'a' <= c <= 'z' || c == '_'
  }

  /** The upper-case name in whatever case. */
  predicate Spells(w: string, key: string) {
    |w| == |key| && forall i | 0 <= i < |w| :: w[i] == key[i] || ('A' <= key[i] <= 'Z' && w[i] as int == key[i] as int + 32)
  }

  lemma SpellsIff(m: TypeMap, w: string, key: string)
    requires WellFormed(m) && key in m && forall c | c in w :: Identifier(c)
    ensures Spells(w, key) <==> FoldAll(w) == key
  {
    assert forall i | 0 <= i < |w| :: w[i] in w;
    if |w| == |key| {
      assert forall i | 0 <= i < |key| :: FoldAll(key)[i] == key[i];
      assert forall i | 0 <= i < |w| :: FoldAll(w)[i] == Fold(w[i]);
    }
  }

  lemma WordFirst(m: TypeMap, w: string, rest: string)
    requires w != [] && AllWord(w) && !WordAhead(rest)
    ensures Substitute(m, w + rest) == Translated(m, w) + Substitute(m, rest)
  {
    SubstituteUnfolds(m, w + rest);
    WordLengthOfRun(w, rest);
    assert (w + rest)[0] == w[0] && w[0] in w;
  }

  lemma Regroup(a: string, b: string, c: string)
    ensures a + (b + c) == (a + b) + c
  {
  }

  /** Text is translated piece by piece, wherever no word is cut. */
  lemma {:induction false} PieceByPiece(m: TypeMap, x: string, z: string)
    requires x == [] || !IsWord(x[|x| - 1]) || !WordAhead(z)
    ensures Substitute(m, x + z) == Substitute(m, x) + Substitute(m, z)
    decreases |x|, 1
  {
    if x == [] {
      assert x + z == z;
    } else if IsWord(x[0]) {
      var n := WordLength(x);
      SplitWord(x, n);
      WordThenPiece(m, x[..n], x[n..], z);
    } else {
      assert [x[0]] + x[1..] == x;
      OtherThenPiece(m, x[0], x[1..], z);
    }
  }

  lemma SplitWord(x: string, n: nat)
    requires x != [] && IsWord(x[0]) && n == WordLength(x)
    ensures 0 < n <= |x| && x == x[..n] + x[n..] && AllWord(x[..n]) && !WordAhead(x[n..])
    ensures n < |x| ==> x[n..][|x[n..]| - 1] == x[|x| - 1]
    ensures n == |x| ==> IsWord(x[|x| - 1])
  {
    if n == |x| { LastIsWord(x[..n], x); }
  }

  lemma LastIsWord(w: string, x: string)
    requires x != [] && w == x && AllWord(w)
    ensures IsWord(x[|x| - 1])
  {
    assert w[|w| - 1] in w;
  }

  lemma {:induction false} WordThenPiece(m: TypeMap, w: string, rest: string, z: string)
    requires w != [] && AllWord(w) && !WordAhead(rest)
    requires if rest == [] then !WordAhead(z) else !IsWord(rest[|rest| - 1]) || !WordAhead(z)
    ensures Substitute(m, (w + rest) + z) == Substitute(m, w + rest) + Substitute(m, z)
    decreases |w| + |rest|, 0
  {
    assert rest + z == if rest == [] then z else rest + z;
    Regroup(w, rest, z);
    WordFirst(m, w, rest);
    WordFirst(m, w, rest + z);
    PieceByPiece(m, rest, z);
    Regroup(Translated(m, w), Substitute(m, rest), Substitute(m, z));
  }

  lemma {:induction false} OtherThenPiece(m: TypeMap, c: char, rest: string, z: string)
    requires !IsWord(c) && (rest == [] || !IsWord(rest[|rest| - 1]) || !WordAhead(z))
    ensures Substitute(m, ([c] + rest) + z) == Substitute(m, [c] + rest) + Substitute(m, z)
    decreases 1 + |rest|, 0
  {
    Regroup([c], rest, z);
    OtherFirst(m, c, rest);
    OtherFirst(m, c, rest + z);
    PieceByPiece(m, rest, z);
    Regroup([c], Substitute(m, rest), Substitute(m, z));
  }

  lemma OtherFirst(m: TypeMap, c: char, rest: string)
    requires !IsWord(c)
    ensures Substitute(m, [c] + rest) == [c] + Substitute(m, rest)
  {
    SubstituteUnfolds(m, [c] + rest);
    assert ([c] + rest)[1..] == rest;
  }

  /** A whole word that spells a type name in any case becomes the type, any other word stays. */
  lemma WordReplaced(m: TypeMap, x: string, w: string, y: string)
    requires WellFormed(m) && w != [] && forall c | c in w :: Identifier(c)
    requires (x != [] ==> !Identifier(x[|x| - 1])) && (y != [] ==> !Identifier(y[0]))
    ensures forall k | k in m && Spells(w, k) :: Substitute(m, x + (w + y)) == Substitute(m, x) + (m[k] + Substitute(m, y))
    ensures (forall k | k in m :: !Spells(w, k)) ==> Substitute(m, x + (w + y)) == Substitute(m, x) + (w + Substitute(m, y))
  {
    PieceByPiece(m, x, w + y);
    SubstituteUnfolds(m, w + y);
    assert w[0] in w && (w + y)[0] == w[0];
    WordLengthOfRun(w, y);
    forall k | k in m ensures Spells(w, k) <==> FoldAll(w) == k { SpellsIff(m, w, k); }
  }

  /** Text without a letter, a digit or an underscore stays. */
  lemma {:induction false} NonWordsKept(m: TypeMap, x: string)
    requires forall c | c in x :: !Identifier(c)
    ensures Substitute(m, x) == x
  {
    if x != [] {
      assert x == [x[0]] + x[1..] && x[0] in x;
      SubstituteUnfolds(m, x);
      NonWordsKept(m, x[1..]);
    }
  }

  // ---------------------------------------------------------------------------------------
  // The translator's own map
  // ---------------------------------------------------------------------------------------

  lemma IntegersApart()
    ensures INTEGER_TYPES !! REAL_TYPES && INTEGER_TYPES !! BLOB_TYPES
  {
  }

  lemma IntegersAndStringsApart()
    ensures INTEGER_TYPES !! STRING_TYPES
  {
  }

  lemma IntegersAndTimesApart()
    ensures INTEGER_TYPES !! TIME_TYPES
  {
  }

  lemma RealsApart()
    ensures REAL_TYPES !! STRING_TYPES && REAL_TYPES !! TIME_TYPES && REAL_TYPES !! BLOB_TYPES
  {
  }

  lemma StringsApart()
    ensures STRING_TYPES !! BLOB_TYPES && TIME_TYPES !! BLOB_TYPES
  {
  }

  lemma SumOfApart(integers: set<string>, reals: set<string>, strings: set<string>, times: set<string>, blobs: set<string>)
    requires integers !! reals && integers !! strings && integers !! times && integers !! blobs
    requires reals !! strings && reals !! times && reals !! blobs && strings !! blobs && times !! blobs
    ensures var m := Constant(integers, "INTEGER") + Constant(reals, "REAL") + Constant(strings, "TEXT")
                     + Constant(times, "TEXT") + Constant(blobs, "BLOB");
            && m.Keys == integers + reals + strings + times + blobs
            && (forall k | k in integers :: m[k] == "INTEGER") && (forall k | k in reals :: m[k] == "REAL")
            && (forall k | k in strings + times :: m[k] == "TEXT") && (forall k | k in blobs :: m[k] == "BLOB")
  {
  }

  /** The types of the translator, name by name. */
  lemma DefaultTypes()
    ensures var m := DefaultTypeMap();
            && (forall k | k in {"TINYINT", "SMALLINT", "MEDIUMINT", "INT", "INTEGER", "BIGINT", "YEAR", "BOOLEAN", "BOOL"} ::
                  k in m && m[k] == "INTEGER")
            && (forall k | k in {"FLOAT", "DOUBLE", "DECIMAL", "NUMERIC"} :: k in m && m[k] == "REAL")
            && (forall k | k in {"VARCHAR", "CHAR", "TINYTEXT", "TEXT", "MEDIUMTEXT", "LONGTEXT", "ENUM", "SET", "JSON"} ::
                  k in m && m[k] == "TEXT")
            && (forall k | k in {"DATE", "TIME", "DATETIME", "TIMESTAMP"} :: k in m && m[k] == "TEXT")
            && (forall k | k in {"VARBINARY", "BINARY", "TINYBLOB", "BLOB", "MEDIUMBLOB", "LONGBLOB"} :: k in m && m[k] == "BLOB")
            && m.Keys ==
               {"TINYINT", "SMALLINT", "MEDIUMINT", "INT", "INTEGER", "BIGINT", "YEAR", "BOOLEAN", "BOOL"}
               + {"FLOAT", "DOUBLE", "DECIMAL", "NUMERIC"}
               + {"VARCHAR", "CHAR", "TINYTEXT", "TEXT", "MEDIUMTEXT", "LONGTEXT", "ENUM", "SET", "JSON"}
               + {"DATE", "TIME", "DATETIME", "TIMESTAMP"}
               + {"VARBINARY", "BINARY", "TINYBLOB", "BLOB", "MEDIUMBLOB", "LONGBLOB"}
  {
    IntegersApart();
    IntegersAndStringsApart();
    IntegersAndTimesApart();
    RealsApart();
    StringsApart();
    SumOfApart(INTEGER_TYPES, REAL_TYPES, STRING_TYPES, TIME_TYPES, BLOB_TYPES);
  }
}
