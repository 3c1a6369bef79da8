/** What the wrapped query asks the database for: its condition and its order, read back from the
    text (packages/connectors/src/postgres.ts). */
module KeysetQuery {
  import opened KeysetSync
  import opened SqlScanner
  import opened TextTools
  import opened Wrappers

  // ---- A reader for the clauses ----

  /** A comparison of a column with the parameter of the given digit, and combinations of them. */
  datatype Condition =
    | Greater(column: string, parameter: char)
    | Equal(column: string, parameter: char)
    | Either(left: Condition, right: Condition)
    | Both(left: Condition, right: Condition)

  function WordRun(s: string): (n: nat)
    ensures n <= |s| && forall i | 0 <= i < n :: InWord(s[i])
    ensures n < |s| ==> !InWord(s[n])
  {
    if s == "" || !InWord(s[0]) then 0 else 1 + WordRun(s[1..])
  }

  function SkipCast(s: string): (rest: string)
    ensures |rest| <= |s|
  {
    if "::" <= s then s[2..][WordRun(s[2..])..] else s
  }

  /** A quoted column of the wrapped statement. */
  function ReadColumnName(s: string): (r: Option<(string, string)>)
    ensures r.Some? ==> |r.value.1| < |s|
  {
    if !("q.\"" <= s) then None
    else
      var n := IndexOf(s[3..], '"');
      if n == |s| - 3 then None else Some((s[3..][..n], s[3..][n + 1..]))
  }

  function ReadComparison(s: string): (r: Option<(Condition, string)>)
    ensures r.Some? ==> |r.value.1| < |s|
  {
    match ReadColumnName(s)
    case None => None
    case Some((name, rest)) =>
      if |rest| < 5 || !IsDigit(rest[4]) then None
      else if " > $" <= rest then Some((Greater(name, rest[4]), SkipCast(rest[5..])))
      else if " = $" <= rest then Some((Equal(name, rest[4]), SkipCast(rest[5..])))
      else None
  }

  /** A comparison, alone, followed by `AND` and a condition, or by `OR` and one in parentheses. */
  function ReadCondition(s: string): (r: Option<(Condition, string)>)
    ensures r.Some? ==> |r.value.1| < |s|
    decreases |s|
  {
    match ReadComparison(s)
    case None => None
    case Some((first, rest)) =>
      if " AND " <= rest then
        match ReadCondition(rest[5..])
        case None => None
        case Some((second, behind)) => Some((Both(first, second), behind))
      else if " OR (" <= rest then
        match ReadCondition(rest[5..])
        case None => None
        case Some((second, behind)) =>
          if ")" <= behind then Some((Either(first, second), behind[1..])) else None
      else Some((first, rest))
  }

  /** The condition of a `WHERE` clause in parentheses. */
  function ReadWhereClause(s: string): Option<Condition> {
    if !("WHERE (" <= s) then None
    else
      match ReadCondition(s[7..])
      case None => None
      case Some((condition, rest)) => if rest == ")\n" then Some(condition) else None
  }

  function ReadColumns(s: string): Option<seq<string>>
    decreases |s|
  {
    match ReadColumnName(s)
    case None => None
    case Some((name, rest)) =>
      if rest == "" then Some([name])
      else if !(", " <= rest) then None
      else
        match ReadColumns(rest[2..])
        case None => None
        case Some(names) => Some([name] + names)
  }

  function ReadOrderClause(s: string): Option<seq<string>> {
    if "ORDER BY " <= s then ReadColumns(s[9..]) else None
  }

  // ---- What the clauses mean for a row ----

  /** The value of a column in a row with the given cursor and key columns. */
  function ValueOf(row: Row, cur: string, name: string): int {
    if name == cur then row.cursor else row.pk
  }

  predicate IsMet(condition: Condition, row: Row, cur: string, parameters: map<char, int>) {
    match condition
    case Greater(column, n) => n in parameters && ValueOf(row, cur, column) > parameters[n]
    case Equal(column, n) => n in parameters && ValueOf(row, cur, column) == parameters[n]
    case Either(left, right) => IsMet(left, row, cur, parameters) || IsMet(right, row, cur, parameters)
    case Both(left, right) => IsMet(left, row, cur, parameters) && IsMet(right, row, cur, parameters)
  }

  /** Row `a` comes before row `b` when ordered by these columns, and the columns tell them apart. */
  predicate Precedes(a: Row, b: Row, cur: string, columns: seq<string>) {
    columns != [] &&
    var x, y := ValueOf(a, cur, columns[0]), ValueOf(b, cur, columns[0]);
    x < y || (x == y && Precedes(a, b, cur, columns[1..]))
  }

  predicate OrderedBy(rows: seq<Row>, cur: string, columns: seq<string>) {
    forall i, j | 0 <= i < j < |rows| :: Precedes(rows[i], rows[j], cur, columns)
  }

  /** Both columns of a table may be one. */
  predicate FitsColumns(row: Row, cur: string, pk: string) {
    cur == pk ==> row.cursor == row.pk
  }

  // ---- Reading back what the connector writes ----

  lemma NameHasNoQuote(name: string)
    requires IsWord(name)
    ensures '"' !in name
  {
    assert forall i | 0 <= i < |name| :: name[i] != '"';
  }

  lemma ColumnReads(name: string, behind: string)
    requires IsWord(name)
    ensures ReadColumnName(Column(name) + behind) == Some((name, behind))
  {
    var s := Column(name) + behind;
    NameHasNoQuote(name);
    var inner := name + ("\"" + behind);
    assert s == "q.\"" + inner && s[3..] == inner;
    IndexIs(inner, '"', |name|);
    assert inner[..|name|] == name && inner[|name| + 1..] == behind;
    hide IndexOf;
  }

  lemma CastSkipped(cast: string, behind: string)
    requires IsCast(cast) && behind != "" && !InWord(behind[0]) && behind[0] != ':'
    ensures SkipCast(cast + behind) == behind
  {
    if cast == "" {
      assert cast + behind == behind;
    } else {
      var rest := cast[2..] + behind;
      assert cast + behind == "::" + rest && (cast + behind)[2..] == rest;
      WordRunIs(rest, |cast[2..]|);
      assert rest[|cast[2..]|..] == behind;
      hide WordRun;
    }
  }

  lemma WordRunIs(s: string, n: nat)
    requires n <= |s| && forall i | 0 <= i < n :: InWord(s[i])
    requires n < |s| ==> !InWord(s[n])
    ensures WordRun(s) == n
  {
    hide WordRun;
  }

  lemma ComparisonReads(name: string, sign: string, cast: string, behind: string)
    requires IsWord(name) && IsCast(cast) && sign in {" > $1", " = $1", " > $2"}
    requires behind != "" && !InWord(behind[0]) && behind[0] != ':'
    ensures ReadComparison(Column(name) + sign + cast + behind)
      == Some((if sign[1] == '>' then Greater(name, sign[4]) else Equal(name, sign[4]), behind))
  {
    var rest := sign + (cast + behind);
    assert Column(name) + sign + cast + behind == Column(name) + rest;
    ColumnReads(name, rest);
    CastSkipped(cast, behind);
    hide ReadColumnName, SkipCast, Column, IsWord, IsCast, InWord;
    SignReads(Column(name) + rest, name, sign, cast + behind);
  }

  lemma SignReads(s: string, name: string, sign: string, behind: string)
    requires sign in {" > $1", " = $1", " > $2"} && ReadColumnName(s) == Some((name, sign + behind))
    ensures ReadComparison(s)
      == Some((if sign[1] == '>' then Greater(name, sign[4]) else Equal(name, sign[4]), SkipCast(behind)))
  {
    hide ReadColumnName, SkipCast;
    var rest := sign + behind;
    assert rest[5..] == behind && rest[4] == sign[4] && rest[1] == sign[1];
    assert " > $" <= rest <==> sign[1] == '>';
    assert " = $" <= rest <==> sign[1] == '=';
  }

  lemma SingleReads(s: string, first: Condition, rest: string)
    requires ReadComparison(s) == Some((first, rest)) && !(" AND " <= rest) && !(" OR (" <= rest)
    ensures ReadCondition(s) == Some((first, rest))
  {
    hide ReadComparison;
  }

  lemma BothRead(s: string, first: Condition, inner: string, second: Condition, behind: string)
    requires ReadComparison(s) == Some((first, " AND " + inner))
    requires ReadCondition(inner) == Some((second, behind))
    ensures ReadCondition(s) == Some((Both(first, second), behind))
  {
    hide ReadComparison;
    assert (" AND " + inner)[5..] == inner;
  }

  lemma EitherReads(s: string, first: Condition, inner: string, second: Condition, behind: string)
    requires ReadComparison(s) == Some((first, " OR (" + inner))
    requires ReadCondition(inner) == Some((second, ")" + behind))
    ensures ReadCondition(s) == Some((Either(first, second), behind))
  {
    hide ReadComparison;
    var rest := " OR (" + inner;
    assert rest[5..] == inner && rest[1] == 'O' && (")" + behind)[1..] == behind;
    assert !(" AND " <= rest);
  }

  /** The condition the connector writes: a later cursor, or the same cursor and a later key. */
  lemma WhereReads(cur: string, pk: string, curCast: string, pkCast: string)
    requires AreNames(cur, pk, curCast, pkCast)
    ensures ReadWhereClause(Where(cur, pk, curCast, pkCast))
      == Some(Either(Greater(cur, '1'), Both(Equal(cur, '1'), Greater(pk, '2'))))
  {
    Signs();
    hide ReadComparison, ReadCondition, Column, IsWord, IsCast, InWord, Where;
    var third := Column(pk) + " > $2" + pkCast + "))\n";
    var second := Column(cur) + " = $1" + curCast + (" AND " + third);
    var first := Column(cur) + " > $1" + curCast + (" OR (" + second);
    assert "))\n" == ")" + ")\n";
    ComparisonReads(pk, " > $2", pkCast, "))\n");
    SingleReads(third, Greater(pk, '2'), "))\n");
    ComparisonReads(cur, " = $1", curCast, " AND " + third);
    BothRead(second, Equal(cur, '1'), third, Greater(pk, '2'), "))\n");
    ComparisonReads(cur, " > $1", curCast, " OR (" + second);
    EitherReads(first, Greater(cur, '1'), second, Both(Equal(cur, '1'), Greater(pk, '2')), ")\n");
    WhereText(cur, pk, curCast, pkCast, first, second, third);
    assert ("WHERE (" + first)[7..] == first;
  }

  lemma Signs()
    ensures !InWord(')') && !InWord(' ')
  {}

  lemma WhereText(cur: string, pk: string, curCast: string, pkCast: string, first: string, second: string,
                  third: string)
    requires third == Column(pk) + " > $2" + pkCast + "))\n"
    requires second == Column(cur) + " = $1" + curCast + (" AND " + third)
    requires first == Column(cur) + " > $1" + curCast + (" OR (" + second)
    ensures Where(cur, pk, curCast, pkCast) == "WHERE (" + first
  {
    hide Column;
    assert SameCursor(cur, pk, curCast, pkCast) == second;
    assert LaterCursor(cur, curCast) + second == first;
  }

  lemma OrderReads(cur: string, pk: string)
    requires IsWord(cur) && IsWord(pk)
    ensures ReadOrderClause(OrderBy(cur, pk)) == Some([cur, pk])
  {
    hide ReadColumnName, Column, IsWord;
    var second := Column(pk) + "";
    var first := Column(cur) + (", " + second);
    ColumnReads(pk, "");
    ColumnReads(cur, ", " + second);
    assert Column(pk) + "" == Column(pk);
    assert OrderBy(cur, pk) == "ORDER BY " + first && ("ORDER BY " + first)[9..] == first;
    assert (", " + second)[2..] == second;
    assert ReadColumns(second) == Some([pk]);
    assert [cur] + [pk] == [cur, pk];
  }

  // ---- The query asks for what the sync relies on ----

  /** The condition of the wrapped query, read from its text, holds for a row exactly when the row is
      above the checkpoint that is passed as its first two parameters. */
  lemma QueryAsksForRowsAbove(cur: string, pk: string, curCast: string, pkCast: string, row: Row, ck: Key)
    requires AreNames(cur, pk, curCast, pkCast) && FitsColumns(row, cur, pk)
    ensures ReadWhereClause(Where(cur, pk, curCast, pkCast)).Some?
    ensures IsMet(ReadWhereClause(Where(cur, pk, curCast, pkCast)).value, row, cur, map['1' := ck.cursor, '2' := ck.pk])
            <==> Above(row, Some(ck))
  {
    hide ReadWhereClause, Where, AreNames;
    WhereReads(cur, pk, curCast, pkCast);
    var parameters := map['1' := ck.cursor, '2' := ck.pk];
    assert IsMet(Greater(cur, '1'), row, cur, parameters) <==> row.cursor > ck.cursor;
    assert IsMet(Equal(cur, '1'), row, cur, parameters) <==> row.cursor == ck.cursor;
    assert IsMet(Greater(pk, '2'), row, cur, parameters) <==> row.pk > ck.pk;
    assert IsMet(Both(Equal(cur, '1'), Greater(pk, '2')), row, cur, parameters) <==>
             row.cursor == ck.cursor && row.pk > ck.pk;
  }

  /** Rows ordered by the columns of the `ORDER BY` clause, read from its text, are rows in the order
      the sync relies on. */
  lemma QueryAsksForOrder(cur: string, pk: string, rows: seq<Row>)
    requires IsWord(cur) && IsWord(pk) && forall row | row in rows :: FitsColumns(row, cur, pk)
    ensures ReadOrderClause(OrderBy(cur, pk)).Some?
    ensures OrderedBy(rows, cur, ReadOrderClause(OrderBy(cur, pk)).value) <==> Sorted(rows)
  {
    OrderReads(cur, pk);
    hide ReadOrderClause, OrderBy, IsWord;
    assert [cur, pk][1..] == [pk] && [pk][1..] == [];
    forall i, j | 0 <= i < j < |rows|
      ensures Precedes(rows[i], rows[j], cur, [cur, pk]) <==> Less(KeyOf(rows[i]), KeyOf(rows[j]))
    {
      assert rows[i] in rows && rows[j] in rows;
      assert Precedes(rows[i], rows[j], cur, [pk]) <==>
               ValueOf(rows[i], cur, pk) < ValueOf(rows[j], cur, pk);
    }
  }
}
