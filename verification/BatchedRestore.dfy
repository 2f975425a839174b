/** The logical restore (finnor-os/packages/db/backup.ts): rows of a dump go into
    multi-row inserts of one column list each, within the bind-parameter budget. */
module BatchedRestore {
  import opened Basics

  /** A dumped value: a scalar, or an array or object with its JSON text. */
  datatype Value = Scalar(text: string) | Structure(isArray: bool, json: string)

  /** What is bound: the value as it is, or its JSON text; nothing for an absent column. */
  datatype Bound = Native(value: Value) | JsonText(json: string) | Absent

  /** A row keeps its columns in the order of the dump. */
  datatype Row = Row(columns: seq<string>, values: map<string, Value>)

  datatype Batch = Batch(columns: seq<string>, rows: seq<Row>)

  /** An insert statement: the table, a parameter number per row and column, and the bound values. */
  datatype Insert = Insert(table: string, columns: seq<string>, placeholders: seq<seq<nat>>, values: seq<Bound>)

  /** A table: its name, and what the catalog says about its columns. */
  datatype Table = Table(name: string, generated: set<string>, arrays: set<string>)

  const MAX_BIND_PARAMETERS := 60_000

  // ------------------------------------------------------------------------
  // Column lists
  // ------------------------------------------------------------------------

  function Keep(columns: seq<string>, generated: set<string>): seq<string> {
    if columns == [] then []
    else if columns[0] in generated then Keep(columns[1..], generated)
    else [columns[0]] + Keep(columns[1..], generated)
  }

  function ColumnsOf(row: Row, t: Table): seq<string> {
    Keep(row.columns, t.generated)
  }

  const NUL := '\0'

  /** The names joined with NUL characters, by which lists are compared. */
  function Joined(columns: seq<string>): string {
    if columns == [] then ""
    else if |columns| == 1 then columns[0]
    else columns[0] + [NUL] + Joined(columns[1..])
  }

  predicate NulFree(columns: seq<string>) {
    forall i :: 0 <= i < |columns| ==> NUL !in columns[i]
  }

  // ------------------------------------------------------------------------
  // Batches
  // ------------------------------------------------------------------------

  function RowsPerBatch(columnCount: nat): nat
    requires columnCount > 0
  {
    if MAX_BIND_PARAMETERS / columnCount < 1 then 1 else MAX_BIND_PARAMETERS / columnCount
  }

  /** Where a batch that starts at `start` and has reached `offset` ends. */
  function BatchEnd(rows: seq<Row>, t: Table, start: nat, offset: nat, columns: seq<string>): (end: nat)
    requires start < offset <= |rows| && columns != []
    ensures offset <= end <= |rows|
    decreases |rows| - offset
  {
    if offset < |rows| && offset - start < RowsPerBatch(|columns|) && Joined(ColumnsOf(rows[offset], t)) == Joined(columns)
    then BatchEnd(rows, t, start, offset + 1, columns)
    else offset
  }

  /** The batches of the rows from an offset on; rows without insertable columns are skipped. */
  function BatchesFrom(rows: seq<Row>, t: Table, offset: nat): seq<Batch>
    requires offset <= |rows|
    decreases |rows| - offset
  {
    if offset == |rows| then []
    else
      var columns := ColumnsOf(rows[offset], t);
      if columns == [] then BatchesFrom(rows, t, offset + 1)
      else
        var end := BatchEnd(rows, t, offset, offset + 1, columns);
        [Batch(columns, rows[offset..end])] + BatchesFrom(rows, t, end)
  }

  function Insertable(rows: seq<Row>, t: Table): seq<Row> {
    if rows == [] then []
    else if ColumnsOf(rows[0], t) == [] then Insertable(rows[1..], t)
    else [rows[0]] + Insertable(rows[1..], t)
  }

  function AllRows(batches: seq<Batch>): seq<Row> {
    if batches == [] then [] else batches[0].rows + AllRows(batches[1..])
  }

  // ------------------------------------------------------------------------
  // What a batch is
  // ------------------------------------------------------------------------

  /** A batch holds at least one row, all with the same joined column list, and binds no
      more than the budget unless it is a single row. */
  ghost predicate BatchSound(b: Batch, t: Table) {
    && b.columns != [] && b.rows != []
    && (forall i :: 0 <= i < |b.rows| ==> Joined(ColumnsOf(b.rows[i], t)) == Joined(b.columns))
    && (|b.rows| == 1 || |b.rows| * |b.columns| <= MAX_BIND_PARAMETERS)
  }

  lemma {:induction false} EndKeepsColumns(rows: seq<Row>, t: Table, start: nat, offset: nat, columns: seq<string>)
    requires start < offset <= |rows| && columns != []
    requires forall i :: start <= i < offset ==> Joined(ColumnsOf(rows[i], t)) == Joined(columns)
    requires offset - start <= RowsPerBatch(|columns|)
    ensures var end := BatchEnd(rows, t, start, offset, columns);
      && (forall i :: start <= i < end ==> Joined(ColumnsOf(rows[i], t)) == Joined(columns))
      && end - start <= RowsPerBatch(|columns|)
    decreases |rows| - offset
  {
    if offset < |rows| && offset - start < RowsPerBatch(|columns|) && Joined(ColumnsOf(rows[offset], t)) == Joined(columns) {
      EndKeepsColumns(rows, t, start, offset + 1, columns);
    }
  }

  lemma WithinBudget(count: nat, columnCount: nat)
    requires columnCount > 0 && 1 <= count <= RowsPerBatch(columnCount)
    ensures count == 1 || count * columnCount <= MAX_BIND_PARAMETERS
  {
    if count > 1 {
      var limit := MAX_BIND_PARAMETERS / columnCount;
      TimesAtMost(count, limit, columnCount);
      QuotientTimes(MAX_BIND_PARAMETERS, columnCount);
    }
  }

  lemma TimesAtMost(a: nat, b: nat, n: nat)
    requires a <= b
    ensures a * n <= b * n
  {
  }

  lemma QuotientTimes(a: nat, n: nat)
    requires n > 0
    ensures (a / n) * n <= a
  {
  }

  lemma FirstBatchIsSound(rows: seq<Row>, t: Table, offset: nat)
    requires offset < |rows| && ColumnsOf(rows[offset], t) != []
    ensures var columns := ColumnsOf(rows[offset], t); var end := BatchEnd(rows, t, offset, offset + 1, columns);
      BatchSound(Batch(columns, rows[offset..end]), t)
  {
    var columns := ColumnsOf(rows[offset], t);
    EndKeepsColumns(rows, t, offset, offset + 1, columns);
    WithinBudget(BatchEnd(rows, t, offset, offset + 1, columns) - offset, |columns|);
  }

  lemma {:induction false} BatchesAreSound(rows: seq<Row>, t: Table, offset: nat)
    requires offset <= |rows|
    ensures forall i :: 0 <= i < |BatchesFrom(rows, t, offset)| ==> BatchSound(BatchesFrom(rows, t, offset)[i], t)
    decreases |rows| - offset
  {
    if offset < |rows| {
      var columns := ColumnsOf(rows[offset], t);
      if columns == [] {
        BatchesAreSound(rows, t, offset + 1);
      } else {
        FirstBatchIsSound(rows, t, offset);
        BatchesAreSound(rows, t, BatchEnd(rows, t, offset, offset + 1, columns));
      }
    }
  }

  /** A batch is cut off only by the end of the table, by a row with another column list, or
      because one more row would bind more than the budget. */
  lemma BatchesAreFull(rows: seq<Row>, t: Table, offset: nat) returns (end: nat)
    requires offset < |rows| && ColumnsOf(rows[offset], t) != []
    ensures offset < end <= |rows|
    ensures var columns := ColumnsOf(rows[offset], t);
      && BatchesFrom(rows, t, offset) == [Batch(columns, rows[offset..end])] + BatchesFrom(rows, t, end)
      && (end == |rows| || Joined(ColumnsOf(rows[end], t)) != Joined(columns)
            || (end - offset + 1) * |columns| > MAX_BIND_PARAMETERS)
  {
    var columns := ColumnsOf(rows[offset], t);
    end := BatchEnd(rows, t, offset, offset + 1, columns);
    EndIsReached(rows, t, offset, offset + 1, columns);
    if end < |rows| && Joined(ColumnsOf(rows[end], t)) == Joined(columns) {
      NoRoomForMore(end - offset, |columns|);
    }
  }

  lemma {:induction false} EndIsReached(rows: seq<Row>, t: Table, start: nat, offset: nat, columns: seq<string>)
    requires start < offset <= |rows| && columns != []
    ensures var end := BatchEnd(rows, t, start, offset, columns);
      end == |rows| || Joined(ColumnsOf(rows[end], t)) != Joined(columns) || end - start >= RowsPerBatch(|columns|)
    decreases |rows| - offset
  {
    if offset < |rows| && offset - start < RowsPerBatch(|columns|) && Joined(ColumnsOf(rows[offset], t)) == Joined(columns) {
      EndIsReached(rows, t, start, offset + 1, columns);
    }
  }

  lemma NoRoomForMore(count: nat, columnCount: nat)
    requires columnCount > 0 && RowsPerBatch(columnCount) <= count
    ensures (count + 1) * columnCount > MAX_BIND_PARAMETERS
  {
    var limit := MAX_BIND_PARAMETERS / columnCount;
    TimesAtMost(limit + 1, count + 1, columnCount);
    assert (limit + 1) * columnCount == limit * columnCount + columnCount;
  }

  /** Compared by their joined text, lists of names without NUL are equal exactly when they
      are the same list, or one is empty and the other holds a single empty name. */
  lemma {:induction false} JoinedDecides(a: seq<string>, b: seq<string>)
    requires NulFree(a) && NulFree(b)
    ensures Joined(a) == Joined(b) <==> a == b || (a == [] && b == [""]) || (a == [""] && b == [])
    decreases |a|
  {
    LongerHasNul(a);
    LongerHasNul(b);
    if Joined(a) == Joined(b) && |a| > 1 && |b| > 1 {
      SplitAtNul(a[0], b[0], Joined(a[1..]), Joined(b[1..]));
      assert NulFree(a[1..]) && NulFree(b[1..]);
      JoinedDecides(a[1..], b[1..]);
      assert a == [a[0]] + a[1..] && b == [b[0]] + b[1..];
    }
  }

  lemma LongerHasNul(columns: seq<string>)
    ensures |columns| > 1 ==> NUL in Joined(columns)
  {
    if |columns| > 1 {
      assert Joined(columns) == columns[0] + [NUL] + Joined(columns[1..]);
      assert Joined(columns)[|columns[0]|] == NUL;
    }
  }

  lemma SplitAtNul(a: string, b: string, restA: string, restB: string)
    requires NUL !in a && NUL !in b && a + [NUL] + restA == b + [NUL] + restB
    ensures a == b && restA == restB
  {
    var s := a + [NUL] + restA;
    assert s == b + [NUL] + restB;
    assert s[|a|] == NUL && s[|b|] == NUL;
    assert forall i :: 0 <= i < |a| ==> s[i] == a[i];
    assert forall i :: 0 <= i < |b| ==> s[i] == b[i];
    assert |a| == |b|;
    assert a == s[..|a|] == b;
    assert restA == s[|a| + 1..] == restB;
  }

  /** A name with a NUL in it looks like two names, whatever stands beside it. */
  lemma {:induction false} NulNamesCollide(before: seq<string>, a: string, b: string, after: seq<string>)
    ensures Joined(before + [a + [NUL] + b] + after) == Joined(before + [a, b] + after)
    ensures before + [a + [NUL] + b] + after != before + [a, b] + after
  {
    assert |before + [a + [NUL] + b] + after| != |before + [a, b] + after|;
    if before == [] {
      NulInFirst(a, b, after);
      assert before + [a + [NUL] + b] + after == [a + [NUL] + b] + after;
      assert before + [a, b] + after == [a, b] + after;
    } else {
      var rest := before[1..];
      NulNamesCollide(rest, a, b, after);
      assert before + [a + [NUL] + b] + after == [before[0]] + (rest + [a + [NUL] + b] + after);
      assert before + [a, b] + after == [before[0]] + (rest + [a, b] + after);
      JoinedCons(before[0], rest + [a + [NUL] + b] + after);
      JoinedCons(before[0], rest + [a, b] + after);
    }
  }

  lemma JoinedCons(name: string, rest: seq<string>)
    ensures Joined([name] + rest) == if rest == [] then name else name + [NUL] + Joined(rest)
  {
    assert ([name] + rest)[1..] == rest;
  }

  lemma NulInFirst(a: string, b: string, after: seq<string>)
    ensures Joined([a + [NUL] + b] + after) == Joined([a, b] + after)
  {
    JoinedCons(a + [NUL] + b, after);
    JoinedCons(b, after);
    JoinedCons(a, [b] + after);
    assert [a, b] + after == [a] + ([b] + after);
    if after == [] {
      assert a + [NUL] + b == (a + [NUL]) + b;
    } else {
      Regroup(a + [NUL], b, [NUL] + Joined(after));
      assert (a + [NUL] + b) + [NUL] + Joined(after) == (a + [NUL]) + (b + [NUL] + Joined(after));
    }
  }

  /** No column of the dump has a NUL in its name, or no name at all. */
  predicate RealNames(rows: seq<Row>) {
    forall i :: 0 <= i < |rows| ==> NulFree(rows[i].columns) && "" !in rows[i].columns
  }

  lemma {:induction false} KeepIsPart(columns: seq<string>, generated: set<string>)
    ensures forall c :: c in Keep(columns, generated) <==> c in columns && c !in generated
  {
    if columns != [] {
      KeepIsPart(columns[1..], generated);
    }
  }

  /** The columns that are kept stay in the order of the dump. */
  lemma {:induction false} KeepKeepsOrder(columns: seq<string>, generated: set<string>, i: nat, j: nat)
    requires i < j < |Keep(columns, generated)|
    ensures exists i', j' ::
      0 <= i' < j' < |columns| && columns[i'] == Keep(columns, generated)[i] && columns[j'] == Keep(columns, generated)[j]
  {
    var rest := columns[1..];
    if columns[0] in generated {
      KeepKeepsOrder(rest, generated, i, j);
      var i', j' :| 0 <= i' < j' < |rest| && rest[i'] == Keep(rest, generated)[i] && rest[j'] == Keep(rest, generated)[j];
      assert columns[i' + 1] == rest[i'] && columns[j' + 1] == rest[j'];
    } else if i > 0 {
      KeepKeepsOrder(rest, generated, i - 1, j - 1);
      var i', j' :| 0 <= i' < j' < |rest| && rest[i'] == Keep(rest, generated)[i - 1] && rest[j'] == Keep(rest, generated)[j - 1];
      assert columns[i' + 1] == rest[i'] && columns[j' + 1] == rest[j'];
    } else {
      KeepIsPart(rest, generated);
      var last := Keep(rest, generated)[j - 1];
      assert last in Keep(rest, generated) && last in rest;
      var j' :| 0 <= j' < |rest| && rest[j'] == last;
      assert columns[0] == Keep(columns, generated)[0] && columns[j' + 1] == last;
    }
  }

  lemma SameColumns(a: Row, b: Row, t: Table)
    requires NulFree(a.columns) && "" !in a.columns && NulFree(b.columns) && "" !in b.columns
    ensures Joined(ColumnsOf(a, t)) == Joined(ColumnsOf(b, t)) <==> ColumnsOf(a, t) == ColumnsOf(b, t)
  {
    var x, y := ColumnsOf(a, t), ColumnsOf(b, t);
    KeepIsPart(a.columns, t.generated);
    KeepIsPart(b.columns, t.generated);
    forall i | 0 <= i < |x| ensures NUL !in x[i] && x[i] != "" {
      assert x[i] in x;
    }
    forall i | 0 <= i < |y| ensures NUL !in y[i] && y[i] != "" {
      assert y[i] in y;
    }
    JoinedDecides(x, y);
  }

  // ------------------------------------------------------------------------
  // Nothing lost, nothing invented
  // ------------------------------------------------------------------------

  lemma InsertableCons(rows: seq<Row>, t: Table, offset: nat)
    requires offset < |rows|
    ensures rows[offset..] == [rows[offset]] + rows[offset + 1..]
    ensures Insertable(rows[offset..], t) ==
      if ColumnsOf(rows[offset], t) == [] then Insertable(rows[offset + 1..], t)
      else [rows[offset]] + Insertable(rows[offset + 1..], t)
  {
    assert rows[offset..][1..] == rows[offset + 1..];
  }

  lemma RangeCons(rows: seq<Row>, offset: nat, end: nat, rest: seq<Row>)
    requires offset < end <= |rows|
    ensures [rows[offset]] + (rows[offset + 1..end] + rest) == rows[offset..end] + rest
  {
    assert rows[offset..end] == [rows[offset]] + rows[offset + 1..end];
  }

  lemma {:induction false} InsertableRange(rows: seq<Row>, t: Table, offset: nat, end: nat)
    requires offset <= end <= |rows| && forall i :: offset <= i < end ==> ColumnsOf(rows[i], t) != []
    ensures Insertable(rows[offset..], t) == rows[offset..end] + Insertable(rows[end..], t)
    decreases end - offset
  {
    if offset < end {
      InsertableCons(rows, t, offset);
      InsertableRange(rows, t, offset + 1, end);
      RangeCons(rows, offset, end, Insertable(rows[end..], t));
    } else {
      assert rows[offset..end] == [];
    }
  }

  /** The batches of a table hold exactly its rows with at least one insertable column, in
      order. */
  lemma {:induction false} BatchesConcatenate(rows: seq<Row>, t: Table, offset: nat)
    requires offset <= |rows| && RealNames(rows)
    ensures AllRows(BatchesFrom(rows, t, offset)) == Insertable(rows[offset..], t)
    decreases |rows| - offset
  {
    if offset < |rows| {
      InsertableCons(rows, t, offset);
      var columns := ColumnsOf(rows[offset], t);
      if columns == [] {
        BatchesConcatenate(rows, t, offset + 1);
      } else {
        var end := BatchEnd(rows, t, offset, offset + 1, columns);
        EndKeepsColumns(rows, t, offset, offset + 1, columns);
        forall i | offset <= i < end ensures ColumnsOf(rows[i], t) != [] {
          SameColumns(rows[i], rows[offset], t);
        }
        InsertableRange(rows, t, offset, end);
        BatchesConcatenate(rows, t, end);
        FirstOfAll(Batch(columns, rows[offset..end]), BatchesFrom(rows, t, end));
      }
    }
  }

  lemma FirstOfAll(b: Batch, rest: seq<Batch>)
    ensures AllRows([b] + rest) == b.rows + AllRows(rest)
  {
    assert ([b] + rest)[1..] == rest;
  }

  /** Every row of a batch has the batch's column list. */
  lemma BatchesAreUniform(rows: seq<Row>, t: Table, k: nat, i: nat)
    requires RealNames(rows) && k < |BatchesFrom(rows, t, 0)| && i < |BatchesFrom(rows, t, 0)[k].rows|
    ensures ColumnsOf(BatchesFrom(rows, t, 0)[k].rows[i], t) == BatchesFrom(rows, t, 0)[k].columns
  {
    UniformFrom(rows, t, 0, k, i);
  }

  lemma UniformFirst(rows: seq<Row>, t: Table, offset: nat, end: nat, i: nat)
    requires RealNames(rows) && offset < |rows| && ColumnsOf(rows[offset], t) != []
    requires end == BatchEnd(rows, t, offset, offset + 1, ColumnsOf(rows[offset], t)) && i < end - offset
    ensures ColumnsOf(rows[offset..end][i], t) == ColumnsOf(rows[offset], t)
  {
    EndKeepsColumns(rows, t, offset, offset + 1, ColumnsOf(rows[offset], t));
    SameColumns(rows[offset + i], rows[offset], t);
  }

  lemma {:induction false} UniformFrom(rows: seq<Row>, t: Table, offset: nat, k: nat, i: nat)
    requires RealNames(rows) && offset <= |rows|
    requires k < |BatchesFrom(rows, t, offset)| && i < |BatchesFrom(rows, t, offset)[k].rows|
    ensures ColumnsOf(BatchesFrom(rows, t, offset)[k].rows[i], t) == BatchesFrom(rows, t, offset)[k].columns
    decreases |rows| - offset
  {
    var columns := ColumnsOf(rows[offset], t);
    if columns == [] {
      UniformFrom(rows, t, offset + 1, k, i);
    } else {
      var end := BatchEnd(rows, t, offset, offset + 1, columns);
      if k == 0 {
        UniformFirst(rows, t, offset, end, i);
      } else {
        UniformFrom(rows, t, end, k - 1, i);
      }
    }
  }

  // ------------------------------------------------------------------------
  // The statement of a batch
  // ------------------------------------------------------------------------

  function EncodeValue(row: Row, column: string, t: Table): Bound {
    if column !in row.values then Absent
    else
      var v := row.values[column];
      if v.Scalar? || (v.isArray && column in t.arrays) then Native(v) else JsonText(v.json)
  }

  function EncodeRow(row: Row, columns: seq<string>, t: Table): (r: seq<Bound>)
    ensures |r| == |columns|
  {
    seq(|columns|, c requires 0 <= c < |columns| => EncodeValue(row, columns[c], t))
  }

  function FlatValues(rows: seq<Row>, columns: seq<string>, t: Table): seq<Bound> {
    if rows == [] then [] else EncodeRow(rows[0], columns, t) + FlatValues(rows[1..], columns, t)
  }

  function Placeholders(rowCount: nat, columnCount: nat): (r: seq<seq<nat>>)
    ensures |r| == rowCount
    ensures forall i, c :: 0 <= i < rowCount && 0 <= c < columnCount ==> |r[i]| == columnCount && r[i][c] == i * columnCount + c + 1
    ensures forall i :: 0 <= i < rowCount ==> |r[i]| == columnCount
  {
    seq(rowCount, i requires 0 <= i < rowCount => seq(columnCount, c requires 0 <= c < columnCount => i * columnCount + c + 1))
  }

  function StatementOf(b: Batch, t: Table): Insert {
    Insert(t.name, b.columns, Placeholders(|b.rows|, |b.columns|), FlatValues(b.rows, b.columns, t))
  }

  lemma {:induction false} FlatLength(rows: seq<Row>, columns: seq<string>, t: Table)
    ensures |FlatValues(rows, columns, t)| == |rows| * |columns|
  {
    if rows != [] {
      FlatLength(rows[1..], columns, t);
      assert |rows| * |columns| == |columns| + |rows[1..]| * |columns|;
    }
  }

  lemma RowStart(i: nat, n: nat, c: nat, count: nat)
    requires i < count && c < n
    ensures 0 <= i * n + c < count * n
  {
    assert (i + 1) * n <= count * n;
    assert i * n + n == (i + 1) * n;
  }

  lemma {:induction false} FlatAt(rows: seq<Row>, columns: seq<string>, t: Table, i: nat, c: nat)
    requires i < |rows| && c < |columns|
    ensures 0 <= i * |columns| + c < |FlatValues(rows, columns, t)|
    ensures FlatValues(rows, columns, t)[i * |columns| + c] == EncodeValue(rows[i], columns[c], t)
    decreases |rows|
  {
    FlatLength(rows, columns, t);
    RowStart(i, |columns|, c, |rows|);
    if i > 0 {
      FlatAt(rows[1..], columns, t, i - 1, c);
      assert i * |columns| + c - |columns| == (i - 1) * |columns| + c;
    }
  }

  /** How the value of a row in a column is bound: not at all when the row lacks the column;
      as it is when it is a scalar, or an array in a column of an array type; and otherwise
      as its JSON text. */
  ghost predicate BoundAs(bound: Bound, row: Row, column: string, t: Table) {
    match bound
    case Absent => column !in row.values
    case Native(v) =>
      && column in row.values && row.values[column] == v
      && (v.Structure? ==> v.isArray && column in t.arrays)
    case JsonText(json) =>
      && column in row.values && row.values[column].Structure? && row.values[column].json == json
      && (row.values[column].isArray ==> column !in t.arrays)
  }

  /** Every placeholder names an existing parameter, no two the same, and the parameter it
      names binds the value that its row has in its column. */
  lemma PlaceholdersPairUp(b: Batch, t: Table, i: nat, c: nat)
    requires i < |b.rows| && c < |b.columns|
    ensures var s := StatementOf(b, t);
      && |s.values| == |b.rows| * |b.columns|
      && 1 <= s.placeholders[i][c] <= |s.values|
      && s.table == t.name && s.columns == b.columns
      && BoundAs(s.values[s.placeholders[i][c] - 1], b.rows[i], b.columns[c], t)
      && (forall i', c' :: 0 <= i' < |b.rows| && 0 <= c' < |b.columns| && s.placeholders[i'][c'] == s.placeholders[i][c] ==>
            i' == i && c' == c)
  {
    FlatLength(b.rows, b.columns, t);
    FlatAt(b.rows, b.columns, t, i, c);
    var s := StatementOf(b, t);
    forall i', c' | 0 <= i' < |b.rows| && 0 <= c' < |b.columns| && s.placeholders[i'][c'] == s.placeholders[i][c]
      ensures i' == i && c' == c
    {
      SamePlace(i, c, i', c', |b.columns|);
    }
  }

  lemma SamePlace(i: nat, c: nat, i': nat, c': nat, n: nat)
    requires c < n && c' < n
    ensures i * n + c == i' * n + c' ==> i == i' && c == c'
  {
    if i < i' {
      assert (i + 1) * n <= i' * n;
      assert (i + 1) * n == i * n + n;
    } else if i' < i {
      assert (i' + 1) * n <= i * n;
      assert (i' + 1) * n == i' * n + n;
    }
  }

  /** In a statement of a restored table every cell binds the value of a row of the dump that
      has the statement's columns, all its columns but the generated ones. */
  lemma CellsAreBound(rows: seq<Row>, t: Table, k: nat, i: nat, c: nat)
    requires RealNames(rows) && k < |BatchesFrom(rows, t, 0)|
    requires i < |BatchesFrom(rows, t, 0)[k].rows| && c < |BatchesFrom(rows, t, 0)[k].columns|
    ensures var b := BatchesFrom(rows, t, 0)[k]; var s := StatementOf(b, t); var row := b.rows[i];
      && s.table == t.name && 1 <= s.placeholders[i][c] <= |s.values|
      && BoundAs(s.values[s.placeholders[i][c] - 1], row, s.columns[c], t)
      && (forall name :: name in s.columns <==> name in row.columns && name !in t.generated)
  {
    PlaceholdersPairUp(BatchesFrom(rows, t, 0)[k], t, i, c);
    BatchesAreUniform(rows, t, k, i);
    KeepIsPart(BatchesFrom(rows, t, 0)[k].rows[i].columns, t.generated);
  }

  // ------------------------------------------------------------------------
  // The loops
  // ------------------------------------------------------------------------

  function StatementsOf(batches: seq<Batch>, t: Table): (r: seq<Insert>)
    ensures |r| == |batches|
  {
    seq(|batches|, i requires 0 <= i < |batches| => StatementOf(batches[i], t))
  }

  lemma BatchDone(rows: seq<Row>, t: Table, done: seq<Batch>, start: nat, end: nat, b: Batch)
    requires start < |rows| && b.columns == ColumnsOf(rows[start], t) && b.columns != []
    requires end == BatchEnd(rows, t, start, start + 1, b.columns) && b.rows == rows[start..end]
    ensures (done + [b]) + BatchesFrom(rows, t, end) == done + BatchesFrom(rows, t, start)
    ensures StatementsOf(done + [b], t) == StatementsOf(done, t) + [StatementOf(b, t)]
    ensures |AllRows(done + [b])| == |AllRows(done)| + |b.rows|
  {
    assert BatchesFrom(rows, t, start) == [b] + BatchesFrom(rows, t, end);
    AllRowsSnoc(done, b);
  }

  /** Collects rows with the same column list, from a first one on, up to the budget. */
  method GatherBatch(rows: seq<Row>, t: Table, start: nat, columns: seq<string>) returns (batch: seq<Row>, offset: nat)
    requires start < |rows| && columns != []
    ensures start < offset <= |rows| && offset == BatchEnd(rows, t, start, start + 1, columns)
    ensures batch == rows[start..offset]
  {
    batch := [rows[start]];
    offset := start + 1;
    while offset < |rows| && |batch| < RowsPerBatch(|columns|)
      invariant start < offset <= |rows| && batch == rows[start..offset]
      invariant BatchEnd(rows, t, start, start + 1, columns) == BatchEnd(rows, t, start, offset, columns)
    {
      if Joined(ColumnsOf(rows[offset], t)) != Joined(columns) { break; }
      batch := batch + [rows[offset]];
      offset := offset + 1;
    }
  }

  /** Restores one table: the statements sent, and the number of rows counted. */
  method RestoreTable(rows: seq<Row>, t: Table) returns (sent: seq<Insert>, restoredRows: nat)
    ensures sent == StatementsOf(BatchesFrom(rows, t, 0), t)
    ensures restoredRows == |AllRows(BatchesFrom(rows, t, 0))|
    ensures RealNames(rows) ==> restoredRows == |Insertable(rows, t)|
  {
    sent, restoredRows := [], 0;
    var offset := 0;
    ghost var done: seq<Batch> := [];
    while offset < |rows|
      invariant offset <= |rows|
      invariant done + BatchesFrom(rows, t, offset) == BatchesFrom(rows, t, 0)
      invariant sent == StatementsOf(done, t) && restoredRows == |AllRows(done)|
    {
      var columns := ColumnsOf(rows[offset], t);
      if columns == [] {
        offset := offset + 1;
        continue;
      }
      ghost var start := offset;
      var batch;
      batch, offset := GatherBatch(rows, t, offset, columns);
      var next := Batch(columns, batch);
      BatchDone(rows, t, done, start, offset, next);
      sent := sent + [StatementOf(next, t)];
      restoredRows := restoredRows + |batch|;
      done := done + [next];
    }
    assert done == BatchesFrom(rows, t, 0);
    if RealNames(rows) {
      BatchesConcatenate(rows, t, 0);
      assert rows[0..] == rows;
    }
  }

  lemma {:induction false} AllRowsSnoc(batches: seq<Batch>, b: Batch)
    ensures AllRows(batches + [b]) == AllRows(batches) + b.rows
  {
    if batches == [] {
      assert [] + [b] == [b] && [b][1..] == [];
    } else {
      assert (batches + [b])[1..] == batches[1..] + [b];
      AllRowsSnoc(batches[1..], b);
    }
  }

  function CountInsertable(tables: seq<(seq<Row>, Table)>): nat {
    if tables == [] then 0
    else
      var last := tables[|tables| - 1];
      CountInsertable(tables[..|tables| - 1]) + |Insertable(last.0, last.1)|
  }

  /** The statements for several tables, one table after the other. */
  function AllStatements(tables: seq<(seq<Row>, Table)>): seq<Insert> {
    if tables == [] then []
    else
      var last := tables[|tables| - 1];
      AllStatements(tables[..|tables| - 1]) + StatementsOf(BatchesFrom(last.0, last.1, 0), last.1)
  }

  /** Restores every table of a dump in turn, each with its own statements; the rows counted
      are those with a column that may be inserted. */
  method RestoreAll(tables: seq<(seq<Row>, Table)>) returns (sent: seq<Insert>, restoredTables: nat, restoredRows: nat)
    ensures sent == AllStatements(tables)
    ensures restoredTables == |tables|
    ensures (forall i :: 0 <= i < |tables| ==> RealNames(tables[i].0)) ==> restoredRows == CountInsertable(tables)
  {
    sent, restoredRows := [], 0;
    for i := 0 to |tables|
      invariant sent == AllStatements(tables[..i])
      invariant (forall k :: 0 <= k < i ==> RealNames(tables[k].0)) ==> restoredRows == CountInsertable(tables[..i])
    {
      assert tables[..i + 1][..i] == tables[..i];
      var statements, count := RestoreTable(tables[i].0, tables[i].1);
      sent := sent + statements;
      restoredRows := restoredRows + count;
    }
    assert tables[..|tables|] == tables;
    restoredTables := |tables|;
  }
}
