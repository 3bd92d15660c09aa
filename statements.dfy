/**
 * What each statement the application issues does, stated against the table contents: a SELECT
 * returns exactly the matching rows in table order, a COUNT counts every row, an INSERT stores the
 * values given and the defaults for the rest or fails on the first constraint it breaks, and the
 * statements of the creation script create the tables they name.
 */
module StatementLaws {
  import opened Wrappers
  import opened Schema
  import opened Store
  import Lists
  import StoreLaws
  import Writes

  /** Every column a WHERE clause names belongs to the table. */
  predicate KnownConds(t: TableName, where: seq<Cond>) {
    forall i :: 0 <= i < |where| ==> where[i].column in ColumnNames(t)
  }

  /** A SELECT on an existing table fails exactly when its WHERE clause names an unknown column. */
  lemma SelectFails(db: Database, t: TableName, where: seq<Cond>)
    ensures t !in db.tables ==> Eval(db, Select(t, where)) == Err(NoSuchTable(t))
    ensures t in db.tables ==> (Eval(db, Select(t, where)).Err? <==> !KnownConds(t, where))
    ensures Eval(db, Select(t, where)).Err? ==> (Eval(db, Select(t, where)).error.NoSuchTable?
      || Eval(db, Select(t, where)).error.NoSuchColumn?)
  {
  }

  /** A SELECT returns exactly the rows that satisfy its WHERE clause, in the order of the table. */
  lemma SelectRows(db: Database, t: TableName, where: seq<Cond>)
    requires t in db.tables && KnownConds(t, where)
    ensures Eval(db, Select(t, where)).Ok? && Eval(db, Select(t, where)).value.Rows?
    ensures var rs := Eval(db, Select(t, where)).value.rows;
      && (forall r :: r in rs <==> r in db.tables[t].rows && Satisfies(r, where))
      && Lists.IsSubsequence(rs, db.tables[t].rows)
  {
    var rows := db.tables[t].rows;
    forall keep: Row -> bool ensures Lists.IsSubsequence(Lists.Filter(rows, keep), rows) {
      Lists.FilterIsSubsequence(rows, keep);
    }
  }

  /** `SELECT COUNT(*)` counts the rows `SELECT *` without a WHERE clause returns. */
  lemma CountIsSelectAll(db: Database, t: TableName)
    requires t in db.tables
    ensures Eval(db, Count(t)).Ok? && Eval(db, Select(t, [])).Ok?
    ensures Eval(db, Count(t)).value == Counted(|Eval(db, Select(t, [])).value.rows|)
  {
    var rows := db.tables[t].rows;
    forall keep: Row -> bool | forall r :: r in rows ==> keep(r) ensures Lists.Filter(rows, keep) == rows {
      Lists.FilterAll(rows, keep);
    }
    assert forall r :: Satisfies(r, []);
  }

  /** A row that breaks NOT NULL is reported as such, before any other constraint. */
  lemma NullReportedFirst(db: Database, t: TableName, r: Row)
    requires !NotNullHolds(t, r)
    ensures Violation(db, t, r).Some? && Violation(db, t, r).value.NotNullFailed?
  {
  }

  /** When the columns are right, an INSERT fails with the first constraint its row breaks. */
  lemma InsertRowRejects(db: Database, t: TableName, a: Assignments, clock: Clock, id: nat)
    requires t in db.tables && InsertError(t, a).None? && id == db.tables[t].lastId + 1
    requires Violation(db, t, NewRow(t, a, id, clock)).Some?
    ensures InsertRow(db, t, a, clock) == Err(Violation(db, t, NewRow(t, a, id, clock)).value)
  {
    StoreLaws.InsertRowChecks(db, t, a, clock);
  }

  /** The column list of an INSERT is accepted exactly when it names only columns of the table, and not the key. */
  lemma InsertColumnsAccepted(t: TableName, a: Assignments)
    ensures InsertError(t, a).None? <==> forall i :: 0 <= i < |a| ==> a[i].0 in ColumnNames(t) && a[i].0 != KeyOf(t)
  {
    KnownColumns(t, a);
    KeyNamed(t, a);
  }

  /** The first of the columns `cs` that `t` lacks is the one an INSERT is refused for. */
  lemma UnknownAt(t: TableName, cs: seq<ColumnName>, names: seq<ColumnName>, i: nat)
    requires ColumnNames(t) == names && i < |cs| && cs[i] !in names
    requires forall k :: 0 <= k < i ==> cs[k] in names
    ensures Unknown(t, cs) == Some(cs[i])
  {
    UnknownFromAt(t, cs, 0, i);
  }

  lemma {:induction false} UnknownFromAt(t: TableName, cs: seq<ColumnName>, j: nat, i: nat)
    requires j <= i < |cs| && cs[i] !in ColumnNames(t)
    requires forall k :: j <= k < i ==> cs[k] in ColumnNames(t)
    ensures UnknownFrom(t, cs, j) == Some(cs[i])
    decreases i - j
  {
    if j < i {
      UnknownFromAt(t, cs, j + 1, i);
    }
  }

  /** An INSERT whose columns are, in order, a run of the table's non-key columns is accepted. */
  lemma RunAccepted(t: TableName, a: Assignments, names: seq<ColumnName>, off: nat)
    requires ColumnNames(t) == names && off + |a| <= |names|
    requires forall i :: 0 <= i < |a| ==> a[i].0 == names[off + i] && a[i].0 != KeyOf(t)
    ensures InsertError(t, a).None?
  {
    InsertColumnsAccepted(t, a);
    forall i | 0 <= i < |a| ensures a[i].0 in ColumnNames(t) {
      assert names[off + i] == a[i].0;
    }
  }

  lemma KnownColumns(t: TableName, a: Assignments)
    ensures Unknown(t, Columns(a)).None? <==> forall i :: 0 <= i < |a| ==> a[i].0 in ColumnNames(t)
  {
    assert forall i :: 0 <= i < |a| ==> Columns(a)[i] == a[i].0;
  }

  lemma KeyNamed(t: TableName, a: Assignments)
    ensures KeyOf(t) in Columns(a) <==> exists i :: 0 <= i < |a| && a[i].0 == KeyOf(t)
  {
    if KeyOf(t) in Columns(a) {
      var i :| 0 <= i < |Columns(a)| && Columns(a)[i] == KeyOf(t);
      assert a[i].0 == KeyOf(t);
    }
  }

  /**
   * The row an INSERT adds holds the new key in the key column, the value the INSERT gives in each
   * column it names, and the column's default (NULL, the date or the date and time) in the rest.
   */
  lemma InsertStoresValues(db: Database, t: TableName, a: Assignments, clock: Clock, k: nat)
    requires InsertRow(db, t, a, clock).Ok? && k < |Def(t).columns|
    ensures t in db.tables
    ensures var before := db.tables[t];
      var after := InsertRow(db, t, a, clock).value.tables[t];
      var col := Def(t).columns[k];
      && |after.rows| == |before.rows| + 1
      && Get(after.rows[|before.rows|], col.name)
        == if col.primaryKey then Int(before.lastId + 1)
          else if col.name in Columns(a) then Lookup(a, col.name).value
          else DefaultOf(col.default, clock)
  {
    StoreLaws.InsertAppends(db, t, a, clock);
    StoreLaws.NewRowCell(t, a, db.tables[t].lastId + 1, clock, k);
  }

  /** Leaving out a NOT NULL column, or giving it NULL, makes an INSERT fail on a NOT NULL constraint. */
  lemma MissingRequiredFails(db: Database, t: TableName, a: Assignments, clock: Clock, k: nat)
    requires t in db.tables && InsertError(t, a).None?
    requires k < |Def(t).columns| && Def(t).columns[k].notNull
    requires Def(t).columns[k].name !in Columns(a) || Lookup(a, Def(t).columns[k].name) == Some(Null)
    ensures InsertRow(db, t, a, clock).Err? && InsertRow(db, t, a, clock).error.NotNullFailed?
  {
    var id := db.tables[t].lastId + 1;
    var r := NewRow(t, a, id, clock);
    NotNullHasNoDefault(t, k);
    StoreLaws.NewRowCell(t, a, id, clock, k);
    assert !NotNullHolds(t, r);
    NullReportedFirst(db, t, r);
    InsertRowRejects(db, t, a, clock, id);
  }

  /** A row holding a string its CHECK does not list breaks a constraint. */
  lemma CheckRejected(db: Database, t: TableName, r: Row, k: nat, s: string)
    requires k < |Def(t).columns| && Def(t).columns[k].allowed != []
    requires Get(r, Def(t).columns[k].name) == Str(s) && s !in Def(t).columns[k].allowed
    ensures Violation(db, t, r).Some?
    ensures Violation(db, t, r).value.NotNullFailed? || Violation(db, t, r).value.CheckFailed?
  {
    assert !Admits(Def(t).columns[k], Get(r, Def(t).columns[k].name));
  }

  /**
   * An INSERT that gives a column with a CHECK a string its list does not hold is refused; the one
   * such column is the target kind of an attachment, which admits `donnee`, `consultation` and
   * `examen`.
   */
  lemma CheckedValueFails(db: Database, t: TableName, a: Assignments, clock: Clock, k: nat, s: string)
    requires t in db.tables && InsertError(t, a).None?
    requires k < |Def(t).columns| && Def(t).columns[k].allowed != []
    requires Lookup(a, Def(t).columns[k].name) == Some(Str(s)) && s !in Def(t).columns[k].allowed
    ensures t == PiecesJointes && Def(t).columns[k].name == CibleType && s !in CibleTypes
    ensures InsertRow(db, t, a, clock).Err?
    ensures InsertRow(db, t, a, clock).error.NotNullFailed? || InsertRow(db, t, a, clock).error.CheckFailed?
  {
    CibleTypeCheck(t, k);
    KeyIsFirst(t);
    assert k != 0;
    CheckedInsertRejected(db, t, a, clock, k, s, db.tables[t].lastId + 1);
  }

  lemma CheckedInsertRejected(db: Database, t: TableName, a: Assignments, clock: Clock, k: nat, s: string, id: nat)
    requires t in db.tables && InsertError(t, a).None? && id == db.tables[t].lastId + 1
    requires k < |Def(t).columns| && Def(t).columns[k].allowed != [] && !Def(t).columns[k].primaryKey
    requires Lookup(a, Def(t).columns[k].name) == Some(Str(s)) && s !in Def(t).columns[k].allowed
    ensures InsertRow(db, t, a, clock).Err?
    ensures InsertRow(db, t, a, clock).error.NotNullFailed? || InsertRow(db, t, a, clock).error.CheckFailed?
  {
    StoreLaws.NewRowCell(t, a, id, clock, k);
    CheckRejected(db, t, NewRow(t, a, id, clock), k, s);
    InsertRowRejects(db, t, a, clock, id);
  }

  /** The INSERT gives a value other than NULL to every NOT NULL column. */
  predicate Complete(t: TableName, a: Assignments) {
    forall k :: 0 <= k < |Def(t).columns| && Def(t).columns[k].notNull ==>
      Def(t).columns[k].name in Columns(a) && Lookup(a, Def(t).columns[k].name).value != Null
  }

  /** The INSERT gives every foreign-key column the key of an existing parent row. */
  predicate ParentsExist(db: Database, t: TableName, a: Assignments) {
    forall k :: 0 <= k < |Def(t).foreignKeys| ==>
      var fk := Def(t).foreignKeys[k];
      fk.column in Columns(a) && HasRowWith(db, fk.parent, fk.parentColumn, Lookup(a, fk.column).value)
  }

  /** With two foreign keys, the INSERT references existing parents when each key's column does. */
  lemma TwoParentsExist(db: Database, t: TableName, a: Assignments, f: ForeignKey, g: ForeignKey, fv: Value, gv: Value)
    requires Def(t).foreignKeys == [f, g]
    requires Lookup(a, f.column) == Some(fv) && HasRowWith(db, f.parent, f.parentColumn, fv)
    requires Lookup(a, g.column) == Some(gv) && HasRowWith(db, g.parent, g.parentColumn, gv)
    ensures ParentsExist(db, t, a)
  {
    var fks := Def(t).foreignKeys;
    forall k | 0 <= k < |fks|
      ensures fks[k].column in Columns(a) && HasRowWith(db, fks[k].parent, fks[k].parentColumn, Lookup(a, fks[k].column).value)
    {
      var fk := if k == 0 then f else g;
      assert fks[k] == fk;
    }
  }

  lemma KeyOfInjective(t: TableName, u: TableName)
    requires t != u
    ensures KeyOf(t) != KeyOf(u)
  {
  }

  /** Only `pieces_jointes` has a CHECK constraint. */
  lemma NoCheckOutsideAttachments(t: TableName, k: nat)
    requires t != PiecesJointes && k < |Def(t).columns|
    ensures Def(t).columns[k].allowed == []
  {
    if Def(t).columns[k].allowed != [] {
      CibleTypeCheck(t, k);
      assert false;
    }
  }

  /** A foreign-key column of a fresh row holds the value the INSERT gives it. */
  lemma NewRowReference(t: TableName, a: Assignments, id: nat, clock: Clock, fk: ForeignKey)
    requires fk in Def(t).foreignKeys && fk.column in Columns(a)
    ensures Get(NewRow(t, a, id, clock), fk.column) == Lookup(a, fk.column).value
  {
    ForeignKeyTargetsFirst(t, fk);
    KeyOfInjective(fk.parent, t);
    KeyIsFirst(t);
    var j :| 0 <= j < |Def(t).columns| && Def(t).columns[j].name == fk.column;
    StoreLaws.NewRowCell(t, a, id, clock, j);
  }

  /**
   * An INSERT with distinct columns that gives each NOT NULL column of the table, at its place
   * `off` positions back, a value other than NULL fills every NOT NULL column.
   */
  lemma CompleteByRun(t: TableName, a: Assignments, cols: seq<Column>, off: nat)
    requires Def(t).columns == cols
    requires forall k :: 0 <= k < |cols| && cols[k].notNull ==>
      off <= k < off + |a| && a[k - off].0 == cols[k].name && a[k - off].1 != Null
    requires forall i, j :: 0 <= i < j < |a| ==> a[i].0 != a[j].0
    ensures Complete(t, a)
  {
    forall k | 0 <= k < |cols| && cols[k].notNull
      ensures cols[k].name in Columns(a) && Lookup(a, cols[k].name).value != Null
    {
      Writes.LookupAt(a, k - off);
    }
  }

  /** A fresh row built from a complete INSERT leaves no NOT NULL column NULL. */
  lemma CompleteRow(t: TableName, a: Assignments, id: nat, clock: Clock)
    requires Complete(t, a)
    ensures NotNullHolds(t, NewRow(t, a, id, clock))
  {
    forall k | 0 <= k < |Def(t).columns| && Def(t).columns[k].notNull
      ensures Get(NewRow(t, a, id, clock), Def(t).columns[k].name) != Null
    {
      NotNullHasNoDefault(t, k);
      StoreLaws.NewRowCell(t, a, id, clock, k);
    }
  }

  /** Outside `pieces_jointes` no row can break a CHECK. */
  lemma UncheckedRow(t: TableName, r: Row)
    requires t != PiecesJointes
    ensures ChecksHold(t, r)
  {
    forall k | 0 <= k < |Def(t).columns| ensures Admits(Def(t).columns[k], Get(r, Def(t).columns[k].name)) {
      NoCheckOutsideAttachments(t, k);
    }
  }

  /** A fresh row whose foreign keys the INSERT points at existing rows keeps its references. */
  lemma ReferencingRow(db: Database, t: TableName, a: Assignments, id: nat, clock: Clock)
    requires ParentsExist(db, t, a)
    ensures ReferencesHold(db, t, NewRow(t, a, id, clock))
  {
    forall k | 0 <= k < |Def(t).foreignKeys|
      ensures var fk := Def(t).foreignKeys[k];
        Get(NewRow(t, a, id, clock), fk.column) == Null
        || HasRowWith(db, fk.parent, fk.parentColumn, Get(NewRow(t, a, id, clock), fk.column))
    {
      NewRowReference(t, a, id, clock, Def(t).foreignKeys[k]);
    }
  }

  /** A row that breaks no constraint is appended. */
  lemma CheckedAccepted(db: Database, t: TableName, r: Row)
    requires t in db.tables && NotNullHolds(t, r) && ChecksHold(t, r)
    requires db.foreignKeys ==> ReferencesHold(db, t, r)
    ensures InsertChecked(db, t, r) == Ok(Appended(db, t, r))
  {
  }

  /**
   * Conversely to the rejections above, an INSERT into a table without a CHECK is accepted when it
   * names only columns of the table other than the key, fills every NOT NULL column and, with
   * enforcement on, points every foreign key at an existing row: the row is appended under the next key.
   */
  lemma InsertAccepted(db: Database, t: TableName, a: Assignments, clock: Clock)
    requires t in db.tables && t != PiecesJointes && InsertError(t, a).None? && Complete(t, a)
    requires db.foreignKeys ==> ParentsExist(db, t, a)
    ensures InsertRow(db, t, a, clock) == Ok(Appended(db, t, NewRow(t, a, db.tables[t].lastId + 1, clock)))
  {
    var r := NewRow(t, a, db.tables[t].lastId + 1, clock);
    StoreLaws.InsertRowChecks(db, t, a, clock);
    CompleteRow(t, a, db.tables[t].lastId + 1, clock);
    UncheckedRow(t, r);
    if db.foreignKeys {
      ReferencingRow(db, t, a, db.tables[t].lastId + 1, clock);
    }
    CheckedAccepted(db, t, r);
  }

  /**
   * An UPDATE is accepted when its columns exist, it leaves the key alone and no row it selects
   * would break a constraint once changed.
   */
  lemma UpdateAccepted(db: Database, t: TableName, sets: Assignments, where: seq<Cond>, clock: Clock)
    requires t in db.tables && Unknown(t, Columns(sets) + CondColumns(where)).None? && KeyOf(t) !in Columns(sets)
    requires forall i :: 0 <= i < |db.tables[t].rows| && Satisfies(db.tables[t].rows[i], where) ==>
      Violation(db, t, Overwrite(db.tables[t].rows[i], sets)).None?
    ensures Apply(db, Update(t, sets, where), clock) == Ok(Replaced(db, t, Updated(db.tables[t].rows, sets, where)))
  {
  }

  /** The rows a multi-row INSERT builds, the first one under key `id`. */
  function NewRows(t: TableName, rows: seq<Assignments>, id: nat, clock: Clock): (built: seq<Row>)
    ensures |built| == |rows|
    decreases |rows|
  {
    if rows == [] then [] else [NewRow(t, rows[0], id, clock)] + NewRows(t, rows[1..], id + 1, clock)
  }

  /** A multi-row INSERT builds its first row under `id` and the rest as from `id + 1`. */
  lemma NewRowsCons(t: TableName, rows: seq<Assignments>, id: nat, clock: Clock)
    requires rows != []
    ensures NewRows(t, rows, id, clock)[0] == NewRow(t, rows[0], id, clock)
    ensures NewRows(t, rows, id, clock)[1..] == NewRows(t, rows[1..], id + 1, clock)
  {
  }

  /** Row `i` of a multi-row INSERT is built from assignment `i` under key `id + i`. */
  lemma NewRowsAt(t: TableName, rows: seq<Assignments>, id: nat, clock: Clock, i: nat)
    requires i < |rows|
    ensures NewRows(t, rows, id, clock)[i] == NewRow(t, rows[i], id + i, clock)
  {
    NewRowsAtKey(t, rows, id, clock, i, id + i);
  }

  lemma {:induction false} NewRowsAtKey(t: TableName, rows: seq<Assignments>, id: nat, clock: Clock, i: nat, k: nat)
    requires i < |rows| && k == id + i
    ensures NewRows(t, rows, id, clock)[i] == NewRow(t, rows[i], k, clock)
    decreases i
  {
    NewRowsCons(t, rows, id, clock);
    if i > 0 {
      NewRowsAtKey(t, rows[1..], id + 1, clock, i - 1, k);
      assert rows[1..][i - 1] == rows[i];
      assert NewRows(t, rows, id, clock)[i] == NewRows(t, rows, id, clock)[1..][i - 1];
    }
  }

  /** The rows built from assignment `i` on are those a multi-row INSERT of the rest builds from key `id + i`. */
  lemma {:induction false} NewRowsDrop(t: TableName, rows: seq<Assignments>, id: nat, clock: Clock, i: nat, k: nat)
    requires i <= |rows| && k == id + i
    ensures NewRows(t, rows, id, clock)[i..] == NewRows(t, rows[i..], k, clock)
    decreases i
  {
    if i == 0 {
      assert rows[0..] == rows;
    } else {
      NewRowsCons(t, rows, id, clock);
      NewRowsDrop(t, rows[1..], id + 1, clock, i - 1, k);
      DropAfterTail(rows, i);
      DropAfterTail(NewRows(t, rows, id, clock), i);
    }
  }

  lemma DropAfterTail<T>(s: seq<T>, i: nat)
    requires 0 < i <= |s|
    ensures s[1..][i - 1..] == s[i..]
  {
  }

  /** Row `i` of a multi-row INSERT gets key `id + i`. */
  lemma NewRowsKeys(t: TableName, rows: seq<Assignments>, id: nat, clock: Clock, i: nat)
    requires i < |rows|
    ensures Get(NewRows(t, rows, id, clock)[i], KeyOf(t)) == Int(id + i)
  {
    NewRowsAt(t, rows, id, clock, i);
    StoreLaws.NewRowKey(t, rows[i], id + i, clock);
  }

  /** The table `t` after the rows `built` are added to it, the counter moving past them. */
  function Filled(db: Database, t: TableName, built: seq<Row>): Database
    requires t in db.tables
  {
    var tab := db.tables[t];
    db.(tables := db.tables[t := Table(tab.rows + built, tab.lastId + |built|)])
  }

  /** Adding a row to `t` leaves every other table, so every parent of `t`, as it was. */
  lemma ParentsStillExist(db: Database, t: TableName, r: Row, a: Assignments)
    requires t in db.tables && ParentsExist(db, t, a)
    ensures ParentsExist(Appended(db, t, r), t, a)
  {
    var after := Appended(db, t, r);
    forall k | 0 <= k < |Def(t).foreignKeys|
      ensures var fk := Def(t).foreignKeys[k];
        fk.column in Columns(a) && HasRowWith(after, fk.parent, fk.parentColumn, Lookup(a, fk.column).value)
    {
      var fk := Def(t).foreignKeys[k];
      ForeignKeyTargetsFirst(t, fk);
      assert after.tables[fk.parent] == db.tables[fk.parent];
    }
  }

  /** Adding one row and then some more is adding them all. */
  lemma FilledAfterFirst(db: Database, t: TableName, r: Row, rest: seq<Row>)
    requires t in db.tables
    ensures Filled(Appended(db, t, r), t, rest) == Filled(db, t, [r] + rest)
  {
    var tab := db.tables[t];
    assert tab.rows + ([r] + rest) == (tab.rows + [r]) + rest;
  }

  lemma NewRowsHead(t: TableName, rows: seq<Assignments>, id: nat, clock: Clock)
    requires rows != []
    ensures NewRows(t, rows, id, clock) == [NewRow(t, rows[0], id, clock)] + NewRows(t, rows[1..], id + 1, clock)
  {
  }

  /** Appending the first built row, then the others, is appending all the built rows. */
  lemma FilledStep(db: Database, t: TableName, rows: seq<Assignments>, clock: Clock)
    requires t in db.tables && rows != []
    ensures var next := Appended(db, t, NewRow(t, rows[0], db.tables[t].lastId + 1, clock));
      Filled(next, t, NewRows(t, rows[1..], next.tables[t].lastId + 1, clock))
        == Filled(db, t, NewRows(t, rows, db.tables[t].lastId + 1, clock))
  {
    NewRowsHead(t, rows, db.tables[t].lastId + 1, clock);
    FilledAfterFirst(db, t, NewRow(t, rows[0], db.tables[t].lastId + 1, clock),
      NewRows(t, rows[1..], db.tables[t].lastId + 1 + 1, clock));
  }

  /**
   * A multi-row INSERT that succeeds stores the rows it builds, in order, under the keys that follow
   * the counter, and changes no other table.
   */
  lemma {:induction false} InsertRowsStored(db: Database, t: TableName, rows: seq<Assignments>, clock: Clock)
    requires t in db.tables && InsertRows(db, t, rows, clock).Ok?
    ensures InsertRows(db, t, rows, clock).value == Filled(db, t, NewRows(t, rows, db.tables[t].lastId + 1, clock))
    decreases |rows|
  {
    if rows == [] {
      assert db.tables[t].rows + [] == db.tables[t].rows;
      assert db.tables[t := db.tables[t]] == db.tables;
    } else {
      StoreLaws.InsertRowShape(db, t, rows[0], clock);
      InsertRowsStored(InsertRow(db, t, rows[0], clock).value, t, rows[1..], clock);
      FilledStep(db, t, rows, clock);
    }
  }

  /** Every row of a multi-row INSERT names only non-key columns of `t` and fills its NOT NULL columns. */
  predicate AllComplete(t: TableName, rows: seq<Assignments>)
    decreases |rows|
  {
    rows == [] || (InsertError(t, rows[0]).None? && Complete(t, rows[0]) && AllComplete(t, rows[1..]))
  }

  /** Every row of a multi-row INSERT points its foreign keys at existing rows. */
  predicate AllParentsExist(db: Database, t: TableName, rows: seq<Assignments>)
    decreases |rows|
  {
    rows == [] || (ParentsExist(db, t, rows[0]) && AllParentsExist(db, t, rows[1..]))
  }

  lemma {:induction false} AllParentsStillExist(db: Database, t: TableName, r: Row, rows: seq<Assignments>)
    requires t in db.tables && AllParentsExist(db, t, rows)
    ensures AllParentsExist(Appended(db, t, r), t, rows)
    decreases |rows|
  {
    if rows != [] {
      ParentsStillExist(db, t, r, rows[0]);
      AllParentsStillExist(db, t, r, rows[1..]);
    }
  }

  /** A multi-row INSERT into a table without a CHECK succeeds when every row is accepted. */
  lemma {:induction false} InsertRowsSucceed(db: Database, t: TableName, rows: seq<Assignments>, clock: Clock)
    requires t in db.tables && t != PiecesJointes && AllComplete(t, rows)
    requires db.foreignKeys ==> AllParentsExist(db, t, rows)
    ensures InsertRows(db, t, rows, clock).Ok?
    decreases |rows|
  {
    if rows != [] {
      InsertAccepted(db, t, rows[0], clock);
      if db.foreignKeys {
        AllParentsStillExist(db, t, NewRow(t, rows[0], db.tables[t].lastId + 1, clock), rows[1..]);
      }
      InsertRowsSucceed(InsertRow(db, t, rows[0], clock).value, t, rows[1..], clock);
    }
  }

  /**
   * A multi-row INSERT all of whose rows are accepted stores them all, in order, under consecutive
   * keys, and changes no other table.
   */
  lemma InsertRowsAccepted(db: Database, t: TableName, rows: seq<Assignments>, clock: Clock)
    requires t in db.tables && t != PiecesJointes && AllComplete(t, rows)
    requires db.foreignKeys ==> AllParentsExist(db, t, rows)
    ensures InsertRows(db, t, rows, clock) == Ok(Filled(db, t, NewRows(t, rows, db.tables[t].lastId + 1, clock)))
  {
    InsertRowsSucceed(db, t, rows, clock);
    InsertRowsStored(db, t, rows, clock);
  }

  /** Running the PRAGMA turns enforcement on and changes nothing else. */
  lemma ExecPragma(db: Database)
    ensures Exec(db, Render(PragmaForeignKeysOn)) == Ok(db.(foreignKeys := true))
  {
    ParseRender(PragmaForeignKeysOn);
  }

  /** `CREATE TABLE IF NOT EXISTS` adds table `t`, empty, when it is missing, and otherwise changes nothing. */
  lemma ExecCreate(db: Database, t: TableName)
    ensures Exec(db, Render(CreateTable(t)))
      == Ok(if t in db.tables then db else db.(tables := db.tables[t := Table([], 0)]))
  {
    assert Script[Position(t)] == CreateTable(t);
    ParseRender(CreateTable(t));
  }

  /** Any other text is refused as a syntax error. */
  lemma ExecOther(db: Database, text: string)
    requires forall st :: st in Script ==> text != Render(st)
    ensures Exec(db, text) == Err(SyntaxError(text))
  {
  }
}
