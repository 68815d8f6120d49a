/** Queries against information_schema: finding the table in the FROM clause, extracting the
    equalities a WHERE clause implies, and deciding from them what to answer. */
module InfoSchema {
  import opened Options

  // ---------------------------------------------------------------------------------------
  // The FROM clause
  // ---------------------------------------------------------------------------------------

  datatype FromNode =
    | Join(left: FromNode, right: Option<FromNode>)
    | Source(source: FromNode)
    | Table(schema: string, name: string)
    | OtherNode

  function Lower(s: string): string {
    seq(|s|, i requires 0 <= i < |s| => if 'A' <= s[i] <= 'Z' then s[i] - 'A' + 'a' else s[i])
  }

  /** Equal under simple case folding, in which the long s is an s. */
  predicate IsInfoSchema(schema: string) {
    Lower(Short(schema)) == "information_schema"
  }

  const LONG_S := '\U{017F}'

  function Short(s: string): string {
    seq(|s|, i requires 0 <= i < |s| => if s[i] == LONG_S then 's' else s[i])
  }

  /** The information_schema table a FROM tree names, or the empty string. */
  function FindInfoSchema(n: FromNode): string {
    match n
    case Join(left, right) =>
      var l := FindInfoSchema(left);
      if l != "" then l
      else if right.Some? then FindInfoSchema(right.value)
      else ""
    case Source(source) => FindInfoSchema(source)
    case Table(schema, name) => if IsInfoSchema(schema) then Lower(name) else ""
    case OtherNode => ""
  }

  /** The tables of a FROM tree from left to right. */
  function Leaves(n: FromNode): seq<(string, string)> {
    match n
    case Join(left, right) => Leaves(left) + (if right.Some? then Leaves(right.value) else [])
    case Source(source) => Leaves(source)
    case Table(schema, name) => [(schema, name)]
    case OtherNode => []
  }

  /** The first of the listed tables that belongs to information_schema and has a name. */
  function FirstInfoSchema(tables: seq<(string, string)>): string {
    if tables == [] then ""
    else if IsInfoSchema(tables[0].0) && tables[0].1 != "" then Lower(tables[0].1)
    else FirstInfoSchema(tables[1..])
  }

  lemma {:induction false} FirstOfConcat(a: seq<(string, string)>, b: seq<(string, string)>)
    ensures FirstInfoSchema(a + b) == if FirstInfoSchema(a) != "" then FirstInfoSchema(a) else FirstInfoSchema(b)
  {
    if a == [] {
      assert a + b == b;
    } else {
      assert (a + b)[1..] == a[1..] + b;
      FirstOfConcat(a[1..], b);
    }
  }

  /** Whatever the nesting of joins, the table found is the leftmost information_schema one. */
  lemma {:induction false} FindsLeftmost(n: FromNode)
    ensures FindInfoSchema(n) == FirstInfoSchema(Leaves(n))
  {
    match n
    case Join(left, right) =>
      FindsLeftmost(left);
      if right.Some? {
        FindsLeftmost(right.value);
        FirstOfConcat(Leaves(left), Leaves(right.value));
      } else {
        assert Leaves(n) == Leaves(left);
      }
    case Source(source) => FindsLeftmost(source);
    case Table(schema, name) =>
      assert Leaves(n)[1..] == [];
    case OtherNode =>
  }

  /** The letter in either case, or the long s for an s. */
  predicate Folds(c: char, letter: char) {
    c == letter || ('A' <= c <= 'Z' && letter as int == c as int + 32) || (c == '\U{017F}' && letter == 's')
  }

  lemma FoldIff(a: string, name: string)
    requires IsLower(name) && LONG_S !in name
    ensures Lower(Short(a)) == name <==> |a| == |name| && forall i | 0 <= i < |a| :: Folds(a[i], name[i])
  {
    if |a| == |name| {
      forall i | 0 <= i < |a| ensures Lower(Short(a))[i] == name[i] <==> Folds(a[i], name[i]) {
        assert name[i] in name;
      }
    }
  }

  /** The schema is recognised in any case, the table's name is given in lower case. */
  lemma SchemaInAnyCase(schema: string, name: string)
    requires name != ""
    ensures FindInfoSchema(Table(schema, name)) != ""
       <==> |schema| == 18 && forall i | 0 <= i < 18 :: Folds(schema[i], "information_schema"[i])
    ensures FindInfoSchema(Table(schema, name)) != "" ==>
              SameLetters(name, FindInfoSchema(Table(schema, name))) && IsLower(FindInfoSchema(Table(schema, name)))
  {
    FoldIff(schema, "information_schema");
    LowerIsLower(name);
    LowerIff(name, Lower(name));
  }

  lemma LowerIsLower(s: string)
    ensures IsLower(Lower(s)) && |Lower(s)| == |s|
  {
    forall c | c in Lower(s) ensures !('A' <= c <= 'Z') {
      var i :| 0 <= i < |s| && Lower(s)[i] == c;
    }
  }

  // ---------------------------------------------------------------------------------------
  // WHERE clauses and their three-valued meaning
  // ---------------------------------------------------------------------------------------

  /** A literal of the parser.  Only strings carry bytes: the text of any other literal reads
      as the empty string. */
  datatype Literal = Str(s: string) | Num(n: int) | Null {
    function GetString(): string {
      if Str? then s else ""
    }
  }

  datatype Expr =
    | Column(table: string, name: string)
    | Const(value: Literal)
    | Eq(left: Expr, right: Expr)
    | And(left: Expr, right: Expr)
    | Or(left: Expr, right: Expr)
    | Not(arg: Expr)
    | Paren(arg: Expr)
    | OtherExpr(id: nat)

  /** A candidate row: the value of each column by table qualifier and lower-case name, the value
      of each expression the model does not look into, and the number MySQL reads a string as
      when it compares it with a number. */
  datatype Row = Row(columns: (string, string) -> Literal, operand: nat -> Literal, reading: string -> int) {
    function Get(table: string, name: string): Literal {
      columns(table, Lower(name))
    }
  }

  datatype Truth = True | False | Unknown

  function AsLiteral(t: Truth): Literal {
    if t.True? then Num(1) else if t.False? then Num(0) else Null
  }

  function AsTruth(v: Literal, reading: string -> int): Truth {
    match v
    case Str(s) => if reading(s) != 0 then True else False
    case Num(n) => if n != 0 then True else False
    case Null => Unknown
  }

  /** A string and a number are compared as numbers. */
  function Compared(a: Literal, b: Literal, reading: string -> int): Truth {
    if a.Null? || b.Null? then Unknown
    else if (if a.Str? && b.Num? then reading(a.s) == b.n else if a.Num? && b.Str? then a.n == reading(b.s) else a == b)
      then True
    else False
  }

  function Both(a: Truth, b: Truth): Truth {
    if a.False? || b.False? then False else if a.True? && b.True? then True else Unknown
  }

  function Negated(a: Truth): Truth {
    if a.True? then False else if a.False? then True else Unknown
  }

  function Value(e: Expr, row: Row): Literal {
    match e
    case Column(table, name) => row.Get(table, name)
    case Const(v) => v
    case Eq(l, r) => AsLiteral(Compared(Value(l, row), Value(r, row), row.reading))
    case And(l, r) => AsLiteral(Both(AsTruth(Value(l, row), row.reading), AsTruth(Value(r, row), row.reading)))
    case Or(l, r) =>
      AsLiteral(Negated(Both(Negated(AsTruth(Value(l, row), row.reading)), Negated(AsTruth(Value(r, row), row.reading)))))
    case Not(x) => AsLiteral(Negated(AsTruth(Value(x, row), row.reading)))
    case Paren(x) => Value(x, row)
    case OtherExpr(id) => row.operand(id)
  }

  function Holds(e: Expr, row: Row): Truth {
    AsTruth(Value(e, row), row.reading)
  }

  lemma EqHolds(l: Expr, r: Expr, row: Row)
    ensures Holds(Eq(l, r), row) == Compared(Value(l, row), Value(r, row), row.reading)
    ensures l.Column? ==> Value(l, row) == row.Get(l.table, l.name)
    ensures r.Column? ==> Value(r, row) == row.Get(r.table, r.name)
    ensures l.Const? ==> Value(l, row) == l.value
    ensures r.Const? ==> Value(r, row) == r.value
  {
    assert Value(Eq(l, r), row) == AsLiteral(Compared(Value(l, row), Value(r, row), row.reading));
  }

  lemma AndHolds(l: Expr, r: Expr, row: Row)
    ensures Holds(And(l, r), row) == Both(Holds(l, row), Holds(r, row))
  {
    assert Value(And(l, r), row) == AsLiteral(Both(Holds(l, row), Holds(r, row)));
  }

  // ---------------------------------------------------------------------------------------
  // Extraction
  // ---------------------------------------------------------------------------------------

  type Conditions = map<string, string>

  /** The equalities written into `out`, later ones over earlier ones. */
  function Collected(e: Expr, out: Conditions): Conditions {
    match e
    case Eq(l, r) =>
      if l.Column? && r.Const? then out[Lower(l.name) := r.value.GetString()]
      else if r.Column? && l.Const? then out[Lower(r.name) := l.value.GetString()]
      else out
    case And(l, r) => Collected(r, Collected(l, out))
    case _ => out
  }

  class EqualityCollector {
    var out: Conditions

    constructor ()
      ensures out == map[]
    {
      out := map[];
    }

    method CollectEqualities(e: Expr)
      modifies this
      ensures out == Collected(e, old(out))
      decreases e
    {
      match e {
        case Eq(l, r) =>
          if l.Column? && r.Const? {
            out := out[Lower(l.name) := r.value.GetString()];
            return;
          }
          if r.Column? && l.Const? {
            out := out[Lower(r.name) := l.value.GetString()];
            return;
          }
        case And(l, r) =>
          CollectEqualities(l);
          CollectEqualities(r);
        case _ =>
      }
    }
  }

  method ExtractWhereEqualities(where: Option<Expr>) returns (conditions: Conditions)
    ensures conditions == if where.None? then map[] else Collected(where.value, map[])
  {
    var collector := new EqualityCollector();
    if where.Some? {
      collector.CollectEqualities(where.value);
    }
    conditions := collector.out;
  }

  /** A conjunct of the clause compares column `table.name` with `v`. */
  predicate Compares(e: Expr, table: string, name: string, v: Literal) {
    match e
    case Eq(l, r) =>
      || (l.Column? && r.Const? && l.table == table && Lower(l.name) == name && r.value == v)
      || (r.Column? && l.Const? && r.table == table && Lower(r.name) == name && l.value == v)
    case And(l, r) => Compares(l, table, name, v) || Compares(r, table, name, v)
    case _ => false
  }

  lemma {:induction false} ComparisonHolds(e: Expr, table: string, name: string, v: Literal, row: Row)
    requires Compares(e, table, name, v) && Holds(e, row).True?
    ensures Compared(row.Get(table, name), v, row.reading).True?
  {
    match e
    case Eq(l, r) =>
      EqHolds(l, r, row);
      var column := if l.Column? then l.name else r.name;
      assert Lower(Lower(column)) == Lower(column);
    case And(l, r) =>
      AndHolds(l, r, row);
      if Compares(l, table, name, v) {
        ComparisonHolds(l, table, name, v, row);
      } else {
        ComparisonHolds(r, table, name, v, row);
      }
  }

  /** Some conjunct compares column `name` with a literal that reads as `text`. */
  ghost predicate ComparesText(e: Expr, name: string, text: string) {
    exists table, v :: Compares(e, table, name, v) && v.GetString() == text
  }

  /** Every extracted pair comes from a comparison among the conjuncts or was there before. */
  lemma {:induction false} ExtractedFromComparison(e: Expr, out: Conditions, name: string)
    requires name in Collected(e, out)
    ensures (name in out && out[name] == Collected(e, out)[name]) || ComparesText(e, name, Collected(e, out)[name])
  {
    var text := Collected(e, out)[name];
    match e
    case Eq(l, r) =>
      if l.Column? && r.Const? && Lower(l.name) == name {
        assert Compares(e, l.table, name, r.value) && r.value.GetString() == text;
      } else if !(l.Column? && r.Const?) && r.Column? && l.Const? && Lower(r.name) == name {
        assert Compares(e, r.table, name, l.value) && l.value.GetString() == text;
      }
    case And(l, r) =>
      ExtractedFromComparison(r, Collected(l, out), name);
      if ComparesText(r, name, text) {
        var table, v :| Compares(r, table, name, v) && v.GetString() == text;
        assert Compares(e, table, name, v);
      } else {
        ExtractedFromComparison(l, out, name);
        if ComparesText(l, name, text) {
          var table, v :| Compares(l, table, name, v) && v.GetString() == text;
          assert Compares(e, table, name, v);
        }
      }
    case _ =>
  }

  /** The operands of the top-level ANDs of a clause, from left to right. */
  function Conjuncts(e: Expr): seq<Expr> {
    match e
    case And(l, r) => Conjuncts(l) + Conjuncts(r)
    case _ => [e]
  }

  /** The same letters in whatever case. */
  predicate SameLetters(a: string, b: string) {
    && |a| == |b|
    && forall i | 0 <= i < |a| ::
         || a[i] == b[i]
         || ('A' <= a[i] <= 'Z' && b[i] as int == a[i] as int + 32)
         || ('A' <= b[i] <= 'Z' && a[i] as int == b[i] as int + 32)
  }

  /** The literal a conjunct compares a column of that name with, on either side and in any case. */
  function LiteralFor(c: Expr, name: string): Option<Literal> {
    match c
    case Eq(Column(_, column), Const(v)) => if SameLetters(column, name) then Some(v) else None
    case Eq(Const(v), Column(_, column)) => if SameLetters(column, name) then Some(v) else None
    case _ => None
  }

  /** The last such literal among the conjuncts. */
  function LastLiteral(cs: seq<Expr>, name: string): Option<Literal> {
    if cs == [] then None
    else
      var last := LiteralFor(cs[|cs| - 1], name);
      if last.Some? then last else LastLiteral(cs[..|cs| - 1], name)
  }

  lemma {:induction false} LastOfConcat(a: seq<Expr>, b: seq<Expr>, name: string)
    ensures LastLiteral(a + b, name) == if LastLiteral(b, name).Some? then LastLiteral(b, name) else LastLiteral(a, name)
    decreases |b|
  {
    if b == [] {
      assert a + b == a;
    } else {
      assert (a + b)[..|a + b| - 1] == a + b[..|b| - 1];
      LastOfConcat(a, b[..|b| - 1], name);
    }
  }

  /** A lower-case name. */
  predicate IsLower(name: string) {
    forall c | c in name :: !('A' <= c <= 'Z')
  }

  lemma LowerIff(a: string, name: string)
    requires IsLower(name)
    ensures Lower(a) == name <==> SameLetters(a, name)
  {
    if SameLetters(a, name) {
      forall i | 0 <= i < |a| ensures Lower(a)[i] == name[i] {
        assert name[i] in name;
      }
    }
    if Lower(a) == name {
      forall i | 0 <= i < |a|
        ensures a[i] == name[i] || ('A' <= a[i] <= 'Z' && name[i] as int == a[i] as int + 32)
      {
        assert name[i] == Lower(a)[i];
      }
    }
  }

  /** Nothing is missed and nothing is made up: whatever the other conjuncts are, a name is extracted
      exactly when some conjunct compares a column of that name with a literal, and its value is the
      text of the last such literal from left to right. */
  lemma {:induction false} ExtractionComplete(e: Expr, out: Conditions, name: string)
    requires IsLower(name)
    ensures var last := LastLiteral(Conjuncts(e), name);
            && (name in Collected(e, out) <==> last.Some? || name in out)
            && (name in Collected(e, out) ==>
                  Collected(e, out)[name] == if last.None? then out[name] else if last.value.Str? then last.value.s else "")
  {
    match e
    case And(l, r) =>
      ExtractionComplete(l, out, name);
      ExtractionComplete(r, Collected(l, out), name);
      LastOfConcat(Conjuncts(l), Conjuncts(r), name);
    case Eq(l, r) =>
      assert Conjuncts(e) == [e] && [e][..0] == [];
      if l.Column? { LowerIff(l.name, name); }
      if r.Column? { LowerIff(r.name, name); }
    case _ =>
      assert Conjuncts(e) == [e] && [e][..0] == [];
  }

  lemma ExtractedIsLower(e: Expr, name: string)
    requires name in Collected(e, map[])
    ensures IsLower(name)
  {
    CollectedKeysLower(e, name);
    forall i | 0 <= i < |name| ensures !('A' <= name[i] <= 'Z') {
      assert Lower(name)[i] == name[i];
    }
  }

  /** Every literal a conjunct compares a column with is a string. */
  ghost predicate ComparesStrings(e: Expr) {
    forall table, name, v | Compares(e, table, name, v) :: v.Str?
  }

  /** A row of a query over one table: qualifiers make no difference. */
  ghost predicate OneTable(row: Row) {
    forall t, u, name :: row.Get(t, name) == row.Get(u, name)
  }

  /** The row has the pair: comparing the column with the string is true. */
  predicate HasPair(row: Row, table: string, name: string, text: string) {
    Compared(row.Get(table, name), Str(text), row.reading).True?
  }

  /** Whatever the shape of the clause (dropped subtrees, function calls, duplicates, negations,
      joins), every non-empty extracted value holds, under some qualifier, in every row that
      satisfies the clause; so does an empty one when the literals are strings. */
  lemma ExtractionSound(e: Expr, name: string, row: Row)
    requires name in Collected(e, map[]) && Holds(e, row).True?
    requires Collected(e, map[])[name] != "" || ComparesStrings(e)
    ensures exists table :: HasPair(row, table, name, Collected(e, map[])[name])
    ensures OneTable(row) ==> forall table :: HasPair(row, table, name, Collected(e, map[])[name])
  {
    ExtractedFromComparison(e, map[], name);
    var table, v :| Compares(e, table, name, v) && v.GetString() == Collected(e, map[])[name];
    ComparisonHolds(e, table, name, v, row);
    assert HasPair(row, table, name, Collected(e, map[])[name]);
  }

  /** A row whose columns hold text, as those of the catalog that are extracted do. */
  ghost predicate TextRow(row: Row, reading: string -> int) {
    row.reading == reading && forall table, name :: !row.columns(table, name).Num?
  }

  /** Every number is read from more than one string, as 5 is from `5` and `05`. */
  ghost predicate Rich(reading: string -> int) {
    forall n: int, other: string :: ReadFrom(reading, n, other)
  }

  ghost predicate ReadFrom(reading: string -> int, n: int, other: string) {
    exists s: string :: s != other && reading(s) == n
  }

  ghost function Spelling(reading: string -> int, n: int, other: string): string {
    if ReadFrom(reading, n, other) then (var s: string :| s != other && reading(s) == n; s) else ""
  }

  /** For one comparison the string condition is exact: the pair extracted from `name = v` holds
      in every satisfying row just when v is a string, or NULL, which no row equals. */
  lemma ComparisonSoundIff(table: string, name: string, v: Literal, reading: string -> int)
    requires Rich(reading)
    ensures var e := Eq(Column(table, name), Const(v));
            (v.Str? || v.Null?)
            <==> forall row: Row | OneTable(row) && TextRow(row, reading) && Holds(e, row).True? ::
                   HasPair(row, table, name, Collected(e, map[])[Lower(name)])
  {
    var e := Eq(Column(table, name), Const(v));
    forall row: Row ensures Holds(e, row) == Compared(row.Get(table, name), v, row.reading) {
      EqHolds(Column(table, name), Const(v), row);
    }
    if v.Num? {
      assert ReadFrom(reading, v.n, "");
      var row := ConstantRow(Str(Spelling(reading, v.n, "")), reading);
      EqHolds(Column(table, name), Const(v), row);
      assert OneTable(row) && TextRow(row, reading) && Holds(e, row).True?;
      assert !HasPair(row, table, name, "");
    }
  }

  /** The row with the same value in every column. */
  function ConstantRow(v: Literal, reading: string -> int): Row {
    Row((table, name) => v, id => Null, reading)
  }

  // ---------------------------------------------------------------------------------------
  // Of which table an extracted pair holds
  // ---------------------------------------------------------------------------------------

  /** A conjunction of comparisons between a column and a literal of any kind. */
  predicate Comparisons(e: Expr) {
    match e
    case Eq(l, r) => (l.Column? && r.Const?) || (r.Column? && l.Const?)
    case And(l, r) => Comparisons(l) && Comparisons(r)
    case _ => false
  }

  /** The last string a conjunct compares column `table.name` with. */
  function TextOf(e: Expr, table: string, name: string): (s: Option<string>)
    ensures s.Some? ==> Compares(e, table, name, Str(s.value))
  {
    match e
    case Eq(l, r) =>
      if l.Column? && r.Const? && r.value.Str? && l.table == table && Lower(l.name) == name then Some(r.value.s)
      else if r.Column? && l.Const? && l.value.Str? && r.table == table && Lower(r.name) == name then Some(l.value.s)
      else None
    case And(l, r) => if TextOf(r, table, name).Some? then TextOf(r, table, name) else TextOf(l, table, name)
    case _ => None
  }

  /** The last number. */
  function NumberOf(e: Expr, table: string, name: string): (n: Option<int>)
    ensures n.Some? ==> Compares(e, table, name, Num(n.value))
  {
    match e
    case Eq(l, r) =>
      if l.Column? && r.Const? && r.value.Num? && l.table == table && Lower(l.name) == name then Some(r.value.n)
      else if r.Column? && l.Const? && l.value.Num? && r.table == table && Lower(r.name) == name then Some(l.value.n)
      else None
    case And(l, r) => if NumberOf(r, table, name).Some? then NumberOf(r, table, name) else NumberOf(l, table, name)
    case _ => None
  }

  lemma {:induction false} ComparedIsFound(e: Expr, table: string, name: string, v: Literal)
    requires Compares(e, table, name, v)
    ensures Lower(name) == name
    ensures v.Str? ==> TextOf(e, table, name).Some?
    ensures v.Num? ==> NumberOf(e, table, name).Some?
  {
    match e
    case Eq(l, r) =>
      var column := if l.Column? then l else r;
      assert Lower(Lower(column.name)) == Lower(column.name);
    case And(l, r) =>
      if Compares(r, table, name, v) {
        ComparedIsFound(r, table, name, v);
      } else {
        ComparedIsFound(l, table, name, v);
      }
  }

  /** Some column is compared with NULL, or with two literals no value can both equal: two strings,
      two numbers, or a string and a number it does not read as. */
  ghost predicate Contradicts(e: Expr, reading: string -> int) {
    exists table, name, v, w ::
      Compares(e, table, name, v) && Compares(e, table, name, w) && !Compared(v, w, reading).True?
  }

  /** The row equals every compared value. */
  ghost predicate Meets(row: Row, e: Expr) {
    forall table, name, v | Compares(e, table, name, v) :: Compared(row.Get(table, name), v, row.reading).True?
  }

  lemma {:induction false} HoldsIffCompared(e: Expr, row: Row)
    requires Comparisons(e)
    ensures Holds(e, row).True? <==> Meets(row, e)
  {
    match e
    case Eq(l, r) =>
      var column, v := if l.Column? then l else r, if l.Column? then r.value else l.value;
      EqHolds(l, r, row);
      assert Lower(Lower(column.name)) == Lower(column.name);
      assert Compares(e, column.table, Lower(column.name), v);
    case And(l, r) =>
      AndHolds(l, r, row);
      HoldsIffCompared(l, row);
      HoldsIffCompared(r, row);
      MeetsBoth(l, r, row);
  }

  lemma MeetsBoth(l: Expr, r: Expr, row: Row)
    ensures Meets(row, And(l, r)) <==> Meets(row, l) && Meets(row, r)
  {
    if Meets(row, And(l, r)) {
      forall table, name, v | Compares(l, table, name, v) ensures Compared(row.Get(table, name), v, row.reading).True? {
        assert Compares(And(l, r), table, name, v);
      }
      forall table, name, v | Compares(r, table, name, v) ensures Compared(row.Get(table, name), v, row.reading).True? {
        assert Compares(And(l, r), table, name, v);
      }
    }
    if Meets(row, l) && Meets(row, r) {
      forall table, name, v | Compares(And(l, r), table, name, v)
        ensures Compared(row.Get(table, name), v, row.reading).True?
      {
        assert Compares(l, table, name, v) || Compares(r, table, name, v);
      }
    }
  }

  /** The text row with the compared strings, strings other than `other` that read as the compared
      numbers, and `rest` in every other column. */
  ghost function ComparedRow(e: Expr, rest: Literal, other: string, reading: string -> int): Row {
    Row((table, name) => if TextOf(e, table, name).Some? then Str(TextOf(e, table, name).value)
                         else if NumberOf(e, table, name).Some? then Str(Spelling(reading, NumberOf(e, table, name).value, other))
                         else rest,
        id => Null, reading)
  }

  lemma ComparedRowHolds(e: Expr, rest: Literal, other: string, reading: string -> int)
    requires Comparisons(e) && !Contradicts(e, reading) && Rich(reading) && !rest.Num?
    ensures var row := ComparedRow(e, rest, other, reading); TextRow(row, reading) && Holds(e, row).True?
  {
    var row := ComparedRow(e, rest, other, reading);
    forall table, name, v | Compares(e, table, name, v) ensures Compared(row.Get(table, name), v, reading).True? {
      ComparedIsFound(e, table, name, v);
      assert Compared(v, v, reading).True?;
      if TextOf(e, table, name).Some? {
        assert Compares(e, table, name, Str(TextOf(e, table, name).value));
      } else {
        var n := NumberOf(e, table, name).value;
        assert Compares(e, table, name, Num(n)) && ReadFrom(reading, n, other);
      }
    }
    HoldsIffCompared(e, row);
  }

  lemma ContradictionHoldsNowhere(e: Expr, row: Row, reading: string -> int)
    requires Comparisons(e) && Contradicts(e, reading) && TextRow(row, reading)
    ensures !Holds(e, row).True?
  {
    HoldsIffCompared(e, row);
    var table, name, v, w :| Compares(e, table, name, v) && Compares(e, table, name, w) && !Compared(v, w, reading).True?;
    assert !row.columns(table, Lower(name)).Num?;
    assert Meets(row, e) ==>
        Compared(row.Get(table, name), v, reading).True? && Compared(row.Get(table, name), w, reading).True?;
  }

  /** For a conjunction of comparisons over a join, the pair extracted for a column holds of one
      of the tables in every satisfying row just when a conjunct compares that very table's column
      with that very string, or the comparisons contradict each other. */
  lemma PairHoldsOfTableIff(e: Expr, table: string, name: string, reading: string -> int)
    requires Comparisons(e) && name in Collected(e, map[]) && Rich(reading)
    ensures (forall row: Row | TextRow(row, reading) && Holds(e, row).True? ::
               HasPair(row, table, name, Collected(e, map[])[name]))
       <==> Contradicts(e, reading) || Compares(e, table, name, Str(Collected(e, map[])[name]))
  {
    var text := Collected(e, map[])[name];
    if Compares(e, table, name, Str(text)) {
      forall row: Row | TextRow(row, reading) && Holds(e, row).True? ensures HasPair(row, table, name, text) {
        ComparisonHolds(e, table, name, Str(text), row);
      }
    } else if Contradicts(e, reading) {
      forall row: Row | TextRow(row, reading) ensures !Holds(e, row).True? { ContradictionHoldsNowhere(e, row, reading); }
    } else {
      PairMissing(e, table, name, text, reading);
    }
  }

  lemma PairMissing(e: Expr, table: string, name: string, text: string, reading: string -> int)
    requires Comparisons(e) && !Contradicts(e, reading) && Rich(reading)
    requires name in Collected(e, map[]) && text == Collected(e, map[])[name] && !Compares(e, table, name, Str(text))
    ensures exists row: Row :: TextRow(row, reading) && Holds(e, row).True? && !HasPair(row, table, name, text)
  {
    ExtractedFromComparison(e, map[], name);
    var t, v :| Compares(e, t, name, v) && v.GetString() == text;
    ComparedIsFound(e, t, name, v);
    ComparedRowHolds(e, Null, text, reading);
    var row := ComparedRow(e, Null, text, reading);
    if TextOf(e, table, name).None? && NumberOf(e, table, name).Some? {
      assert ReadFrom(reading, NumberOf(e, table, name).value, text);
    }
    assert !HasPair(row, table, name, text);
  }

  /** One comparison over a join says nothing of another table's column of the same name. */
  lemma JoinedColumnIff(compared: string, table: string, name: string, text: string, reading: string -> int)
    requires Rich(reading)
    ensures var e := Eq(Column(compared, name), Const(Str(text)));
            Lower(name) in Collected(e, map[])
            && ((forall row: Row | TextRow(row, reading) && Holds(e, row).True? ::
                   HasPair(row, table, Lower(name), Collected(e, map[])[Lower(name)]))
                <==> compared == table)
  {
    PairHoldsOfTableIff(Eq(Column(compared, name), Const(Str(text))), table, Lower(name), reading);
  }

  /** The clause with every qualifier dropped. */
  function Unqualified(e: Expr): Expr {
    match e
    case Column(_, name) => Column("", name)
    case Eq(l, r) => Eq(Unqualified(l), Unqualified(r))
    case And(l, r) => And(Unqualified(l), Unqualified(r))
    case _ => e
  }

  lemma {:induction false} UnqualifiedAlike(e: Expr, out: Conditions)
    requires Comparisons(e)
    ensures Comparisons(Unqualified(e)) && Collected(Unqualified(e), out) == Collected(e, out)
    ensures forall row: Row | OneTable(row) :: Holds(Unqualified(e), row) == Holds(e, row)
  {
    match e
    case Eq(l, r) =>
      forall row: Row | OneTable(row) ensures Holds(Unqualified(e), row) == Holds(e, row) {
        var column := if l.Column? then l else r;
        EqHolds(l, r, row);
        EqHolds(Unqualified(l), Unqualified(r), row);
        assert row.Get("", column.name) == row.Get(column.table, column.name);
      }
    case And(l, r) =>
      UnqualifiedAlike(l, out);
      UnqualifiedAlike(r, Collected(l, out));
      forall row: Row | OneTable(row) ensures Holds(Unqualified(e), row) == Holds(e, row) {
        AndHolds(l, r, row);
        AndHolds(Unqualified(l), Unqualified(r), row);
      }
  }

  lemma {:induction false} UnqualifiedCompares(e: Expr, table: string, name: string, v: Literal)
    requires Comparisons(e) && Compares(Unqualified(e), table, name, v)
    ensures table == ""
  {
    if e.Eq? {
      assert Unqualified(e) == Eq(Unqualified(e.left), Unqualified(e.right));
    } else {
      if Compares(Unqualified(e.left), table, name, v) {
        UnqualifiedCompares(e.left, table, name, v);
      } else {
        UnqualifiedCompares(e.right, table, name, v);
      }
    }
  }

  /** Over one table, for a conjunction of comparisons with any literals: the extracted pair holds
      in every satisfying row just when some conjunct compares the column with that very string,
      or the comparisons contradict each other.  (A number or NULL is extracted as the empty
      string.) */
  lemma PairHoldsIff(e: Expr, name: string, reading: string -> int)
    requires Comparisons(e) && name in Collected(e, map[]) && Rich(reading)
    ensures (forall row: Row | OneTable(row) && TextRow(row, reading) && Holds(e, row).True? ::
               HasPair(row, "", name, Collected(e, map[])[name]))
       <==> Contradicts(Unqualified(e), reading) || Compares(Unqualified(e), "", name, Str(Collected(e, map[])[name]))
  {
    var u, text := Unqualified(e), Collected(e, map[])[name];
    UnqualifiedAlike(e, map[]);
    PairHoldsOfTableIff(u, "", name, reading);
    if !Contradicts(u, reading) && !Compares(u, "", name, Str(text)) {
      var row: Row :| TextRow(row, reading) && Holds(u, row).True? && !HasPair(row, "", name, text);
      FlatHolds(e, row);
      assert OneTable(Flat(row)) && TextRow(Flat(row), reading) && !HasPair(Flat(row), "", name, text);
    }
  }

  /** The row of one table that has the values without a qualifier. */
  function Flat(row: Row): Row {
    Row((table, name) => row.columns("", name), row.operand, row.reading)
  }

  lemma FlatHolds(e: Expr, row: Row)
    requires Comparisons(e) && Holds(Unqualified(e), row).True?
    ensures OneTable(Flat(row)) && Holds(e, Flat(row)).True?
  {
    var u, flat := Unqualified(e), Flat(row);
    UnqualifiedAlike(e, map[]);
    HoldsIffCompared(u, row);
    forall t, n, v | Compares(u, t, n, v) ensures Compared(flat.Get(t, n), v, row.reading).True? {
      UnqualifiedCompares(e, t, n, v);
      assert Compared(row.Get(t, n), v, row.reading).True?;
    }
    HoldsIffCompared(u, flat);
  }

  // ---------------------------------------------------------------------------------------
  // When the extraction is exact
  // ---------------------------------------------------------------------------------------

  /** A conjunction of comparisons between a column and a string. */
  predicate StringEqualities(e: Expr) {
    match e
    case Eq(l, r) => (l.Column? && r.Const? && r.value.Str?) || (r.Column? && l.Const? && l.value.Str?)
    case And(l, r) => StringEqualities(l) && StringEqualities(r)
    case _ => false
  }

  predicate Agree(a: Conditions, b: Conditions) {
    forall name | name in a && name in b :: a[name] == b[name]
  }

  /** No column is compared with two different strings. */
  predicate Consistent(e: Expr) {
    match e
    case And(l, r) => Consistent(l) && Consistent(r) && Agree(Collected(l, map[]), Collected(r, map[]))
    case _ => true
  }

  /** The row has the extracted value in every extracted column. */
  ghost predicate Matches(c: Conditions, row: Row) {
    forall name | name in c :: HasPair(row, "", name, c[name])
  }

  lemma {:induction false} CollectedOverlays(e: Expr, out: Conditions)
    ensures Collected(e, out) == out + Collected(e, map[])
  {
    match e
    case Eq(l, r) =>
    case And(l, r) =>
      CollectedOverlays(l, out);
      CollectedOverlays(r, Collected(l, out));
      CollectedOverlays(r, Collected(l, map[]));
    case _ =>
  }

  lemma {:induction false} ConsistentHoldsIff(e: Expr, row: Row)
    requires StringEqualities(e) && Consistent(e) && OneTable(row)
    ensures Holds(e, row).True? <==> Matches(Collected(e, map[]), row)
  {
    match e
    case Eq(l, r) =>
      var column := if l.Column? then l else r;
      assert Lower(Lower(column.name)) == Lower(column.name);
      assert row.Get(column.table, column.name) == row.Get("", column.name) == row.Get("", Lower(column.name));
      EqHolds(l, r, row);
      var text := if l.Column? then r.value.s else l.value.s;
      assert Collected(e, map[]) == map[Lower(column.name) := text];
      MatchesOne(Lower(column.name), text, row);
    case And(l, r) =>
      ConsistentHoldsIff(l, row);
      ConsistentHoldsIff(r, row);
      CollectedOverlays(r, Collected(l, map[]));
      AndHolds(l, r, row);
      MatchesBoth(Collected(l, map[]), Collected(r, map[]), row);
  }

  lemma MatchesOne(name: string, text: string, row: Row)
    ensures Matches(map[name := text], row) <==> HasPair(row, "", name, text)
  {
    var c := map[name := text];
    assert name in c && c[name] == text;
  }

  lemma MatchesBoth(a: Conditions, b: Conditions, row: Row)
    requires Agree(a, b)
    ensures Matches(a + b, row) <==> Matches(a, row) && Matches(b, row)
  {
    var c := a + b;
    assert forall name | name in a :: name in c && c[name] == a[name];
    assert forall name | name in b :: name in c && c[name] == b[name];
    assert forall name | name in c :: name in a || name in b;
  }

  lemma {:induction false} SatisfiedIsConsistent(e: Expr, row: Row)
    requires StringEqualities(e) && OneTable(row) && Holds(e, row).True?
    requires forall table, name :: !row.columns(table, name).Num?
    ensures Consistent(e)
  {
    if e.And? {
      AndHolds(e.left, e.right, row);
      SatisfiedIsConsistent(e.left, row);
      SatisfiedIsConsistent(e.right, row);
      ConsistentHoldsIff(e.left, row);
      ConsistentHoldsIff(e.right, row);
    }
  }

  function RowOf(c: Conditions): Row {
    Row((table, name) => if name in c then Str(c[name]) else Null, id => Null, s => 0)
  }

  lemma {:induction false} CollectedKeysLower(e: Expr, name: string)
    requires name in Collected(e, map[])
    ensures Lower(name) == name
  {
    match e
    case Eq(l, r) =>
      var column := if l.Column? && r.Const? then l else r;
      assert Lower(Lower(column.name)) == Lower(column.name);
    case And(l, r) =>
      CollectedOverlays(r, Collected(l, map[]));
      if name in Collected(l, map[]) {
        CollectedKeysLower(l, name);
      } else {
        CollectedKeysLower(r, name);
      }
  }

  /** For a conjunction of string equalities the extracted map says exactly what the clause
      says, on every row, just when no column is compared with two different strings. */
  lemma ExtractionExactIff(e: Expr)
    requires StringEqualities(e)
    ensures Consistent(e)
       <==> forall row: Row | OneTable(row) :: Holds(e, row).True? <==> Matches(Collected(e, map[]), row)
  {
    if Consistent(e) {
      forall row: Row | OneTable(row) { ConsistentHoldsIff(e, row); }
    } else {
      var c := Collected(e, map[]);
      var row := RowOf(c);
      forall name | name in c ensures HasPair(row, "", name, c[name]) { CollectedKeysLower(e, name); }
      assert OneTable(row) && Matches(c, row);
      if Holds(e, row).True? {
        SatisfiedIsConsistent(e, row);
      }
    }
  }

  // ---------------------------------------------------------------------------------------
  // What is answered
  // ---------------------------------------------------------------------------------------

  datatype Plan = NoRows | CountTable(name: string) | AllTables | ColumnsOf(name: string)

  function Condition(c: Conditions, name: string): string {
    if name in c then c[name] else ""
  }

  /** information_schema.tables. */
  function PlanTables(tenant: string, c: Conditions): Plan {
    if Condition(c, "table_schema") != "" && Condition(c, "table_schema") != tenant then NoRows
    else if Condition(c, "table_name") != "" then CountTable(Condition(c, "table_name"))
    else AllTables
  }

  /** information_schema.columns. */
  function PlanColumns(tenant: string, c: Conditions): Plan {
    if Condition(c, "table_schema") != "" && Condition(c, "table_schema") != tenant then NoRows
    else if Condition(c, "table_name") == "" then NoRows
    else ColumnsOf(Condition(c, "table_name"))
  }

  /** A row that the tenant's catalog contributes for one of its tables. */
  ghost predicate CatalogRow(row: Row, tenant: string, name: string) {
    && OneTable(row)
    && row.Get("", "table_schema") == Str(tenant) && row.Get("", "table_name") == Str(name)
  }

  /** The text the clause asks a column to equal last, empty without one or with another literal. */
  function Asked(e: Expr, name: string): string {
    var last := LastLiteral(Conjuncts(e), name);
    if last.Some? && last.value.Str? then last.value.s else ""
  }

  /** The answers follow the clause: nothing when it asks for another schema than the bound tenant;
      otherwise the count of the table it asks for, or all tables; the columns of the table it asks
      for, or nothing. */
  lemma PlansFollowClause(e: Expr, tenant: string)
    ensures var schema, table := Asked(e, "table_schema"), Asked(e, "table_name");
            && PlanTables(tenant, Collected(e, map[]))
               == (if schema !in {"", tenant} then NoRows else if table != "" then CountTable(table) else AllTables)
            && PlanColumns(tenant, Collected(e, map[]))
               == (if schema !in {"", tenant} || table == "" then NoRows else ColumnsOf(table))
  {
    ExtractionComplete(e, map[], "table_schema");
    ExtractionComplete(e, map[], "table_name");
  }

  lemma ConditionHolds(e: Expr, name: string, row: Row)
    requires Condition(Collected(e, map[]), name) != "" && OneTable(row) && Holds(e, row).True?
    ensures HasPair(row, "", name, Condition(Collected(e, map[]), name))
  {
    ExtractionSound(e, name, row);
  }

  /** No row of the tenant that satisfies the clause is lost by the plan for tables: the answer
      is not empty and, when it is about one table, it is the row's table. */
  lemma TablesPlanKeepsRows(e: Expr, tenant: string, name: string, row: Row)
    requires CatalogRow(row, tenant, name) && Holds(e, row).True?
    ensures PlanTables(tenant, Collected(e, map[])) in {AllTables, CountTable(name)}
  {
    var c := Collected(e, map[]);
    if Condition(c, "table_schema") != "" { ConditionHolds(e, "table_schema", row); }
    if Condition(c, "table_name") != "" { ConditionHolds(e, "table_name", row); }
  }

  /** The plan for columns keeps the tenant's rows exactly when a table name was extracted:
      without one it answers nothing although rows may satisfy the clause. */
  lemma ColumnsPlanKeepsRowsIff(e: Expr, tenant: string, name: string, row: Row)
    requires CatalogRow(row, tenant, name) && Holds(e, row).True?
    ensures PlanColumns(tenant, Collected(e, map[])) == ColumnsOf(name)
       <==> Condition(Collected(e, map[]), "table_name") != ""
  {
    var c := Collected(e, map[]);
    if Condition(c, "table_schema") != "" { ConditionHolds(e, "table_schema", row); }
    if Condition(c, "table_name") != "" { ConditionHolds(e, "table_name", row); }
  }

  /** Clauses with a function call in a comparison, such as `table_schema = DATABASE()`, are satisfied
      by rows of the tenant, and covered by the two results. */
  lemma FunctionClauseHolds(id: nat, tenant: string, name: string)
    ensures var e := And(Eq(Column("", "table_schema"), OtherExpr(id)), Eq(Column("", "table_name"), Const(Str(name))));
            "table_name" in Collected(e, map[]) && "table_schema" !in Collected(e, map[])
            && exists row: Row :: CatalogRow(row, tenant, name) && Holds(e, row).True?
  {
    var l, r := Eq(Column("", "table_schema"), OtherExpr(id)), Eq(Column("", "table_name"), Const(Str(name)));
    var row := Row((t, n) => if n == "table_schema" then Str(tenant) else Str(name), i => Str(tenant), s => 0);
    assert Lower("table_schema") == "table_schema" && Lower("table_name") == "table_name";
    AndHolds(l, r, row);
    EqHolds(l.left, l.right, row);
    EqHolds(r.left, r.right, row);
    assert CatalogRow(row, tenant, name) && Holds(And(l, r), row).True?;
  }

  /** It happens: any comparison of the schema alone loses the tenant's rows. */
  lemma ColumnsPlanLosesRows(tenant: string, name: string)
    ensures var e := Eq(Column("", "table_schema"), Const(Str(tenant)));
            PlanColumns(tenant, Collected(e, map[])) == NoRows
            && exists row: Row :: CatalogRow(row, tenant, name) && Holds(e, row).True?
  {
    var e := Eq(Column("", "table_schema"), Const(Str(tenant)));
    var row := Row((t, n) => if n == "table_schema" then Str(tenant) else Str(name), id => Null, s => 0);
    assert Lower("table_schema") == "table_schema" && Lower("table_name") == "table_name";
    EqHolds(e.left, e.right, row);
    assert CatalogRow(row, tenant, name) && Holds(e, row).True?;
  }

  // Over a join

  /** A row of the join in which one table contributes a row of the tenant's catalog. */
  ghost predicate JoinRow(row: Row, reading: string -> int, table: string, tenant: string, name: string) {
    && TextRow(row, reading)
    && row.Get(table, "table_schema") == Str(tenant) && row.Get(table, "table_name") == Str(name)
  }

  /** The clause, asked of the tenant's rows only. */
  function OfTenant(e: Expr, table: string, tenant: string): Expr {
    And(e, Eq(Column(table, "table_schema"), Const(Str(tenant))))
  }

  /** No condition was extracted that the tenant's rows of the table need not meet. */
  predicate PlanFits(e: Expr, table: string, tenant: string) {
    var c := Collected(e, map[]);
    && Condition(c, "table_schema") in {"", tenant}
    && (Condition(c, "table_name") == "" || Compares(e, table, "table_name", Str(Condition(c, "table_name"))))
  }

  lemma PlanForRow(e: Expr, reading: string -> int, table: string, tenant: string, name: string, row: Row)
    requires PlanFits(e, table, tenant) && JoinRow(row, reading, table, tenant, name) && Holds(e, row).True?
    ensures var c := Collected(e, map[]);
            && PlanTables(tenant, c) in {AllTables, CountTable(name)}
            && (Condition(c, "table_name") != "" ==> PlanColumns(tenant, c) == ColumnsOf(name))
  {
    var text := Condition(Collected(e, map[]), "table_name");
    if text != "" { ComparisonHolds(e, table, "table_name", Str(text), row); }
  }

  /** Unless no row of the tenant satisfies the clause, one does whose table name is not the
      extracted one, as long as no conjunct compares it with that. */
  lemma RowToLose(e: Expr, reading: string -> int, table: string, tenant: string) returns (name: string, row: Row)
    requires Comparisons(e) && !Contradicts(OfTenant(e, table, tenant), reading) && Rich(reading)
    ensures JoinRow(row, reading, table, tenant, name) && Holds(e, row).True?
    ensures var text := Condition(Collected(e, map[]), "table_name");
            name == text ==> Compares(e, table, "table_name", Str(text))
  {
    var all, text := OfTenant(e, table, tenant), Condition(Collected(e, map[]), "table_name");
    row := ComparedRow(all, Str(text + "x"), text, reading);
    ComparedRowHolds(all, Str(text + "x"), text, reading);
    HoldsIffCompared(all, row);
    AndHolds(all.left, all.right, row);
    assert Lower("table_schema") == "table_schema" && Lower("table_name") == "table_name";
    assert Compares(all, table, "table_schema", Str(tenant));
    assert Compared(row.Get(table, "table_schema"), Str(tenant), reading).True?;
    var v := row.Get(table, "table_name");
    if TextOf(all, table, "table_name").Some? {
      assert Compares(e, table, "table_name", v);
    } else if NumberOf(all, table, "table_name").Some? {
      assert ReadFrom(reading, NumberOf(all, table, "table_name").value, text);
    }
    name := v.s;
  }

  /** Over a join, for a conjunction of comparisons: the plan for tables keeps every row of the
      tenant, as contributed by one of the tables, just when the extracted conditions are about
      that table, or the clause contradicts itself on the tenant's rows. */
  lemma TablesPlanKeepsJoinIff(e: Expr, reading: string -> int, table: string, tenant: string)
    requires Comparisons(e) && Rich(reading)
    ensures (forall row, name | JoinRow(row, reading, table, tenant, name) && Holds(e, row).True? ::
               PlanTables(tenant, Collected(e, map[])) in {AllTables, CountTable(name)})
       <==> Contradicts(OfTenant(e, table, tenant), reading) || PlanFits(e, table, tenant)
  {
    if Contradicts(OfTenant(e, table, tenant), reading) {
      NoRowToLose(e, reading, table, tenant);
    } else if PlanFits(e, table, tenant) {
      forall row, name | JoinRow(row, reading, table, tenant, name) && Holds(e, row).True?
        ensures PlanTables(tenant, Collected(e, map[])) in {AllTables, CountTable(name)}
      {
        PlanForRow(e, reading, table, tenant, name, row);
      }
    } else {
      var name, row := RowToLose(e, reading, table, tenant);
    }
  }

  lemma NoRowToLose(e: Expr, reading: string -> int, table: string, tenant: string)
    requires Comparisons(e) && Contradicts(OfTenant(e, table, tenant), reading)
    ensures forall row, name | JoinRow(row, reading, table, tenant, name) :: !Holds(e, row).True?
  {
    forall row, name | JoinRow(row, reading, table, tenant, name) ensures !Holds(e, row).True? {
      var all := OfTenant(e, table, tenant);
      ContradictionHoldsNowhere(all, row, reading);
      AndHolds(all.left, all.right, row);
      EqHolds(all.right.left, all.right.right, row);
    }
  }

  /** The plan for columns needs a table name of that table as well. */
  lemma ColumnsPlanKeepsJoinIff(e: Expr, reading: string -> int, table: string, tenant: string)
    requires Comparisons(e) && Rich(reading)
    ensures (forall row, name | JoinRow(row, reading, table, tenant, name) && Holds(e, row).True? ::
               PlanColumns(tenant, Collected(e, map[])) == ColumnsOf(name))
       <==> Contradicts(OfTenant(e, table, tenant), reading)
            || (PlanFits(e, table, tenant) && Condition(Collected(e, map[]), "table_name") != "")
  {
    if Contradicts(OfTenant(e, table, tenant), reading) {
      NoRowToLose(e, reading, table, tenant);
    } else if PlanFits(e, table, tenant) && Condition(Collected(e, map[]), "table_name") != "" {
      forall row, name | JoinRow(row, reading, table, tenant, name) && Holds(e, row).True?
        ensures PlanColumns(tenant, Collected(e, map[])) == ColumnsOf(name)
      {
        PlanForRow(e, reading, table, tenant, name, row);
      }
    } else {
      var name, row := RowToLose(e, reading, table, tenant);
    }
  }
}
