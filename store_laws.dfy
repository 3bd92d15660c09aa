/**
 * What the store guarantees the application: AUTOINCREMENT keys stay fresh and ordered, every
 * command that succeeds with enforcement on keeps every foreign key pointing at a row, a delete by
 * key removes exactly that row and the rows that reference it, a SELECT returns exactly the
 * matching rows in table order, and the statements of the creation script create the tables.
 */
module StoreLaws {
  import opened Wrappers
  import opened Schema
  import opened Store
  import Lists

  // ----- Keys -----

  /** The number in a row's key column (0 when it holds none). */
  function KeyNumber(t: TableName, r: Row): int {
    var v := Get(r, KeyOf(t));
    if v.Int? then v.i else 0
  }

  predicate KeysIncreasing(t: TableName, rows: seq<Row>) {
    forall i, j :: 0 <= i < j < |rows| ==> KeyNumber(t, rows[i]) < KeyNumber(t, rows[j])
  }

  /** Every row has a positive integer key no larger than the counter; keys increase along the table. */
  predicate WellKeyed(t: TableName, tab: Table) {
    (forall i :: 0 <= i < |tab.rows| ==> Get(tab.rows[i], KeyOf(t)).Int? && 0 < KeyNumber(t, tab.rows[i]) <= tab.lastId)
    && KeysIncreasing(t, tab.rows)
  }

  predicate Keyed(db: Database) {
    forall t :: t in db.tables ==> WellKeyed(t, db.tables[t])
  }

  // ----- The shape of each command's result -----

  lemma InsertRowChecks(db: Database, t: TableName, a: Assignments, clock: Clock)
    requires t in db.tables && InsertError(t, a).None?
    ensures InsertRow(db, t, a, clock) == InsertChecked(db, t, NewRow(t, a, db.tables[t].lastId + 1, clock))
  {
    InsertRowNext(db, t, a, clock);
    InsertNextChecks(db, t, a, clock, db.tables[t].lastId + 1);
  }

  lemma InsertRowNext(db: Database, t: TableName, a: Assignments, clock: Clock)
    requires t in db.tables && InsertError(t, a).None?
    ensures InsertRow(db, t, a, clock) == InsertNext(db, t, a, clock)
  {
  }

  lemma InsertNextChecks(db: Database, t: TableName, a: Assignments, clock: Clock, id: nat)
    requires t in db.tables && id == db.tables[t].lastId + 1
    ensures InsertNext(db, t, a, clock) == InsertChecked(db, t, NewRow(t, a, id, clock))
  {
  }

  lemma InsertCheckedOk(db: Database, t: TableName, r: Row)
    requires t in db.tables && InsertChecked(db, t, r).Ok?
    ensures InsertChecked(db, t, r).value == Appended(db, t, r) && Violation(db, t, r).None?
  {
  }

  lemma InsertRowShape(db: Database, t: TableName, a: Assignments, clock: Clock)
    requires InsertRow(db, t, a, clock).Ok?
    ensures t in db.tables
    ensures InsertRow(db, t, a, clock).value == Appended(db, t, NewRow(t, a, db.tables[t].lastId + 1, clock))
    ensures Violation(db, t, NewRow(t, a, db.tables[t].lastId + 1, clock)).None?
  {
    InsertRowChecks(db, t, a, clock);
    InsertCheckedOk(db, t, NewRow(t, a, db.tables[t].lastId + 1, clock));
  }

  lemma UpdateRowsShape(db: Database, t: TableName, sets: Assignments, where: seq<Cond>)
    requires UpdateRows(db, t, sets, where).Ok?
    ensures t in db.tables && KeyOf(t) !in Columns(sets)
    ensures UpdateRows(db, t, sets, where).value == Replaced(db, t, Updated(db.tables[t].rows, sets, where))
    ensures UpdateViolation(db, t, db.tables[t].rows, sets, where).None?
  {
  }

  lemma DeleteRowsShape(db: Database, t: TableName, where: seq<Cond>)
    requires DeleteRows(db, t, where).Ok?
    ensures t in db.tables && DeleteRows(db, t, where).value == Deleted(db, t, where)
  {
  }

  /** A successful INSERT appends the row it builds to the table. */
  lemma InsertAppends(db: Database, t: TableName, a: Assignments, clock: Clock)
    requires InsertRow(db, t, a, clock).Ok?
    ensures t in db.tables
    ensures InsertRow(db, t, a, clock).value.tables[t].rows == db.tables[t].rows + [NewRow(t, a, db.tables[t].lastId + 1, clock)]
  {
    InsertRowShape(db, t, a, clock);
  }

  /** Cell `k` of a fresh row, when no later column repeats its name. */
  lemma {:induction false} BuildRowAt(cols: seq<Column>, a: Assignments, id: nat, clock: Clock, i: nat, k: nat)
    requires i <= k < |cols|
    requires forall j :: i <= j < k ==> cols[j].name != cols[k].name
    ensures Get(BuildRow(cols, a, id, clock, i), cols[k].name) == CellFor(cols[k], a, id, clock)
    decreases k - i
  {
    if i < k {
      BuildRowAt(cols, a, id, clock, i + 1, k);
    }
  }

  /**
   * Each column of a fresh row holds the new key if it is the key, the value the INSERT gives it
   * if it names it, and its default otherwise.
   */
  lemma NewRowCell(t: TableName, a: Assignments, id: nat, clock: Clock, k: nat)
    requires k < |Def(t).columns|
    ensures var col := Def(t).columns[k];
      Get(NewRow(t, a, id, clock), col.name)
        == if col.primaryKey then Int(id)
          else if col.name in Columns(a) then Lookup(a, col.name).value
          else DefaultOf(col.default, clock)
  {
    ColumnNamesDistinct(t);
    BuildRowAt(Def(t).columns, a, id, clock, 0, k);
  }

  /** The key column of a fresh row holds the new key. */
  lemma NewRowKey(t: TableName, a: Assignments, id: nat, clock: Clock)
    ensures Get(NewRow(t, a, id, clock), KeyOf(t)) == Int(id)
  {
    KeyIsFirst(t);
    NewRowCell(t, a, id, clock, 0);
  }

  /** Filtering the rows of a well-keyed table leaves it well keyed, whatever is kept. */
  lemma FilterKeepsKeyed(t: TableName, tab: Table)
    requires WellKeyed(t, tab)
    ensures forall keep: Row -> bool {:trigger Lists.Filter(tab.rows, keep)} ::
      WellKeyed(t, tab.(rows := Lists.Filter(tab.rows, keep)))
  {
    var key := (r: Row) => KeyNumber(t, r);
    assert Lists.Increasing(tab.rows, key);
    forall keep: Row -> bool ensures WellKeyed(t, tab.(rows := Lists.Filter(tab.rows, keep))) {
      Lists.FilterKeepsIncreasing(tab.rows, keep, key);
      var kept := Lists.Filter(tab.rows, keep);
      assert Lists.Increasing(kept, key);
      forall i | 0 <= i < |kept|
        ensures Get(kept[i], KeyOf(t)).Int? && 0 < KeyNumber(t, kept[i]) <= tab.lastId
      {
        assert kept[i] in tab.rows;
      }
    }
  }

  /** A fresh row's key is the counter plus one: larger than every key already in the table. */
  lemma InsertRowFresh(db: Database, t: TableName, a: Assignments, clock: Clock)
    requires Keyed(db) && InsertRow(db, t, a, clock).Ok?
    ensures var tab := db.tables[t];
      var after := InsertRow(db, t, a, clock).value.tables[t];
      && |after.rows| == |tab.rows| + 1 && after.rows[..|tab.rows|] == tab.rows
      && after.lastId == tab.lastId + 1
      && Get(after.rows[|tab.rows|], KeyOf(t)) == Int(tab.lastId + 1)
      && forall i :: 0 <= i < |tab.rows| ==> KeyNumber(t, tab.rows[i]) < tab.lastId + 1
  {
    InsertRowShape(db, t, a, clock);
    var tab := db.tables[t];
    var r := NewRow(t, a, tab.lastId + 1, clock);
    assert Appended(db, t, r).tables[t].rows == tab.rows + [r];
    NewRowKey(t, a, tab.lastId + 1, clock);
    assert WellKeyed(t, tab);
  }

  /** Appending a row under the next key keeps a table well keyed. */
  lemma AppendKeepsKeyed(t: TableName, tab: Table, r: Row)
    requires WellKeyed(t, tab) && Get(r, KeyOf(t)) == Int(tab.lastId + 1)
    ensures WellKeyed(t, Table(tab.rows + [r], tab.lastId + 1))
  {
    var rows := tab.rows + [r];
    forall i, j | 0 <= i < j < |rows| ensures KeyNumber(t, rows[i]) < KeyNumber(t, rows[j]) {
      if j < |tab.rows| {
        assert rows[i] == tab.rows[i] && rows[j] == tab.rows[j];
      } else {
        assert rows[i] == tab.rows[i];
      }
    }
  }

  /** An appended row is in its table, and no table is added or removed. */
  lemma AppendedHolds(db: Database, t: TableName, r: Row)
    requires t in db.tables
    ensures r in Appended(db, t, r).tables[t].rows && Appended(db, t, r).tables.Keys == db.tables.Keys
  {
    assert Appended(db, t, r).tables[t].rows == db.tables[t].rows + [r];
  }

  /** Appending, to a table of a well-keyed database, a row under the next key keeps the database well keyed. */
  lemma AppendedKeepsKeyed(db: Database, t: TableName, r: Row)
    requires Keyed(db) && t in db.tables && Get(r, KeyOf(t)) == Int(db.tables[t].lastId + 1)
    ensures Keyed(Appended(db, t, r))
  {
    AppendKeepsKeyed(t, db.tables[t], r);
  }

  lemma InsertRowKeepsKeyed(db: Database, t: TableName, a: Assignments, clock: Clock)
    requires Keyed(db) && InsertRow(db, t, a, clock).Ok?
    ensures Keyed(InsertRow(db, t, a, clock).value)
  {
    InsertRowShape(db, t, a, clock);
    var id := db.tables[t].lastId + 1;
    NewRowKey(t, a, id, clock);
    AppendedKeepsKeyed(db, t, NewRow(t, a, id, clock));
  }

  lemma {:induction false} InsertRowsKeepKeyed(db: Database, t: TableName, rows: seq<Assignments>, clock: Clock)
    requires Keyed(db) && InsertRows(db, t, rows, clock).Ok?
    ensures Keyed(InsertRows(db, t, rows, clock).value)
    decreases |rows|
  {
    if rows != [] {
      InsertRowKeepsKeyed(db, t, rows[0], clock);
      InsertRowsKeepKeyed(InsertRow(db, t, rows[0], clock).value, t, rows[1..], clock);
    }
  }

  /** An UPDATE never touches a key: the SET clause cannot name it. */
  lemma UpdateKeepsKeys(rows: seq<Row>, sets: Assignments, where: seq<Cond>, t: TableName)
    requires KeyOf(t) !in Columns(sets)
    ensures forall i :: 0 <= i < |rows| ==> Get(Updated(rows, sets, where)[i], KeyOf(t)) == Get(rows[i], KeyOf(t))
  {
  }

  lemma UpdateRowsKeepKeyed(db: Database, t: TableName, sets: Assignments, where: seq<Cond>)
    requires Keyed(db) && UpdateRows(db, t, sets, where).Ok?
    ensures Keyed(UpdateRows(db, t, sets, where).value)
  {
    UpdateRowsShape(db, t, sets, where);
    var tab := db.tables[t];
    UpdateKeepsKeys(tab.rows, sets, where, t);
    var u := Updated(tab.rows, sets, where);
    SameKeysKeyed(t, tab, u);
    ReplacedKeepsKeyed(db, t, u);
  }

  /** Rows carrying the same keys, position by position, keep a table well keyed. */
  lemma SameKeysKeyed(t: TableName, tab: Table, u: seq<Row>)
    requires WellKeyed(t, tab) && |u| == |tab.rows|
    requires forall i :: 0 <= i < |u| ==> Get(u[i], KeyOf(t)) == Get(tab.rows[i], KeyOf(t))
    ensures WellKeyed(t, tab.(rows := u))
  {
    assert forall i :: 0 <= i < |u| ==> KeyNumber(t, u[i]) == KeyNumber(t, tab.rows[i]);
  }

  /** Replacing the rows of one table by well-keyed rows keeps the file keyed. */
  lemma ReplacedKeepsKeyed(db: Database, t: TableName, u: seq<Row>)
    requires Keyed(db) && t in db.tables && WellKeyed(t, db.tables[t].(rows := u))
    ensures Keyed(Replaced(db, t, u))
  {
  }

  /** Every table stays well keyed through a delete: it only loses rows. */
  lemma AfterDeleteKeyed(db: Database, t: TableName, u: TableName, gone: seq<Row>, where: seq<Cond>)
    requires u in db.tables && WellKeyed(u, db.tables[u])
    ensures WellKeyed(u, AfterDelete(db, t, u, gone, where))
  {
    FilterKeepsKeyed(u, db.tables[u]);
  }

  lemma DeleteRowsKeepKeyed(db: Database, t: TableName, where: seq<Cond>)
    requires Keyed(db) && DeleteRows(db, t, where).Ok?
    ensures Keyed(DeleteRows(db, t, where).value)
  {
    DeleteRowsShape(db, t, where);
    var after := Deleted(db, t, where);
    var gone := Matching(db.tables[t].rows, where);
    forall u | u in after.tables ensures WellKeyed(u, after.tables[u]) {
      AfterDeleteKeyed(db, t, u, gone, where);
    }
  }

  /** Every command that succeeds keeps every table well keyed. */
  lemma ApplyKeepsKeyed(db: Database, cmd: Command, clock: Clock)
    requires Keyed(db) && Apply(db, cmd, clock).Ok?
    ensures Keyed(Apply(db, cmd, clock).value)
  {
    match cmd
    case Insert(t, rows) => InsertRowsKeepKeyed(db, t, rows, clock);
    case Update(t, sets, where) => UpdateRowsKeepKeyed(db, t, sets, where);
    case Delete(t, where) => DeleteRowsKeepKeyed(db, t, where);
  }

  // ----- Referential integrity -----

  /** Every non-NULL foreign-key value in the database names an existing parent row. */
  predicate Referential(db: Database) {
    forall u, i :: u in db.tables && 0 <= i < |db.tables[u].rows| ==> ReferencesHold(db, u, db.tables[u].rows[i])
  }

  /** Every key of `db` is still present in `db2`, table by table. */
  predicate KeysKept(db: Database, db2: Database) {
    forall t, i :: t in db.tables && 0 <= i < |db.tables[t].rows| ==> HasRowWith(db2, t, KeyOf(t), Get(db.tables[t].rows[i], KeyOf(t)))
  }

  /** References that hold stay true as long as no key disappears. */
  lemma ReferencesSurvive(db: Database, db2: Database, u: TableName, r: Row)
    requires KeysKept(db, db2) && ReferencesHold(db, u, r)
    ensures ReferencesHold(db2, u, r)
  {
    forall k | 0 <= k < |Def(u).foreignKeys|
      ensures Get(r, Def(u).foreignKeys[k].column) == Null
        || HasRowWith(db2, Def(u).foreignKeys[k].parent, Def(u).foreignKeys[k].parentColumn, Get(r, Def(u).foreignKeys[k].column))
    {
      var fk := Def(u).foreignKeys[k];
      ForeignKeyTargetsFirst(u, fk);
      if Get(r, fk.column) != Null {
        var i :| 0 <= i < |db.tables[fk.parent].rows| && Get(db.tables[fk.parent].rows[i], fk.parentColumn) == Get(r, fk.column);
      }
    }
  }

  /** Appending a row whose references hold keeps the database referentially sound. */
  lemma AppendKeepsReferential(db: Database, t: TableName, r: Row)
    requires Referential(db) && t in db.tables && ReferencesHold(db, t, r)
    ensures Referential(Appended(db, t, r))
  {
    var after := Appended(db, t, r);
    var n := |db.tables[t].rows|;
    assert KeysKept(db, after) by {
      forall u, i | u in db.tables && 0 <= i < |db.tables[u].rows|
        ensures HasRowWith(after, u, KeyOf(u), Get(db.tables[u].rows[i], KeyOf(u)))
      {
        assert after.tables[u].rows[i] == db.tables[u].rows[i];
      }
    }
    forall u, i | u in after.tables && 0 <= i < |after.tables[u].rows|
      ensures ReferencesHold(after, u, after.tables[u].rows[i])
    {
      if u != t || i < n {
        assert after.tables[u].rows[i] == db.tables[u].rows[i];
      }
      ReferencesSurvive(db, after, u, after.tables[u].rows[i]);
    }
  }

  lemma InsertRowKeepsReferential(db: Database, t: TableName, a: Assignments, clock: Clock)
    requires db.foreignKeys && Referential(db) && InsertRow(db, t, a, clock).Ok?
    ensures Referential(InsertRow(db, t, a, clock).value)
  {
    InsertRowShape(db, t, a, clock);
    AppendKeepsReferential(db, t, NewRow(t, a, db.tables[t].lastId + 1, clock));
  }

  lemma {:induction false} InsertRowsKeepReferential(db: Database, t: TableName, rows: seq<Assignments>, clock: Clock)
    requires db.foreignKeys && Referential(db) && InsertRows(db, t, rows, clock).Ok?
    ensures Referential(InsertRows(db, t, rows, clock).value)
    decreases |rows|
  {
    if rows != [] {
      InsertRowKeepsReferential(db, t, rows[0], clock);
      InsertRowsKeepReferential(InsertRow(db, t, rows[0], clock).value, t, rows[1..], clock);
    }
  }

  /** Replacing a table's rows, keys in place and references holding, keeps the database sound. */
  lemma ReplaceKeepsReferential(db: Database, t: TableName, rows: seq<Row>)
    requires Referential(db) && t in db.tables && |rows| == |db.tables[t].rows|
    requires forall i :: 0 <= i < |rows| ==> Get(rows[i], KeyOf(t)) == Get(db.tables[t].rows[i], KeyOf(t))
    requires forall i :: 0 <= i < |rows| ==> ReferencesHold(db, t, rows[i])
    ensures Referential(Replaced(db, t, rows))
  {
    var after := Replaced(db, t, rows);
    assert KeysKept(db, after) by {
      forall v, i | v in db.tables && 0 <= i < |db.tables[v].rows|
        ensures HasRowWith(after, v, KeyOf(v), Get(db.tables[v].rows[i], KeyOf(v)))
      {
        assert Get(after.tables[v].rows[i], KeyOf(v)) == Get(db.tables[v].rows[i], KeyOf(v));
      }
    }
    forall v, i | v in after.tables && 0 <= i < |after.tables[v].rows|
      ensures ReferencesHold(after, v, after.tables[v].rows[i])
    {
      ReferencesSurvive(db, after, v, after.tables[v].rows[i]);
    }
  }

  lemma UpdateRowsKeepReferential(db: Database, t: TableName, sets: Assignments, where: seq<Cond>)
    requires db.foreignKeys && Referential(db) && UpdateRows(db, t, sets, where).Ok?
    ensures Referential(UpdateRows(db, t, sets, where).value)
  {
    UpdateRowsShape(db, t, sets, where);
    var rows := db.tables[t].rows;
    var u := Updated(rows, sets, where);
    UpdateKeepsKeys(rows, sets, where, t);
    forall i | 0 <= i < |u| ensures ReferencesHold(db, t, u[i]) {
      if Satisfies(rows[i], where) {
        assert Violation(db, t, Overwrite(rows[i], sets)).None?;
      }
    }
    ReplaceKeepsReferential(db, t, u);
  }

  /** With every foreign key cascading, no delete is ever refused for its dependents. */
  lemma NeverRestricted(db: Database, t: TableName, gone: seq<Row>)
    ensures !Restricted(db, t, gone)
  {
    forall u, i | u in db.tables && 0 <= i < |db.tables[u].rows|
      ensures !Orphaned(u, t, gone, db.tables[u].rows[i], NoAction)
    {
      forall k | 0 <= k < |Def(u).foreignKeys| ensures Def(u).foreignKeys[k].onDelete == Cascade {
        AllForeignKeysCascade(u, Def(u).foreignKeys[k]);
      }
    }
  }

  /** A table with no foreign key into `t` loses nothing to a cascade from `t`. */
  lemma SurvivorsAll(u: TableName, t: TableName, gone: seq<Row>, rows: seq<Row>)
    requires forall k :: 0 <= k < |Def(u).foreignKeys| ==> Def(u).foreignKeys[k].parent != t
    ensures Survivors(u, t, gone, rows) == rows
  {
    var keep := (r: Row) => !Orphaned(u, t, gone, r, Cascade);
    forall r | r in rows ensures keep(r) {
      NotOrphaned(u, t, gone, r);
    }
    Lists.FilterAll(rows, keep);
  }

  lemma NotOrphaned(u: TableName, t: TableName, gone: seq<Row>, r: Row)
    requires forall k :: 0 <= k < |Def(u).foreignKeys| ==> Def(u).foreignKeys[k].parent != t
    ensures !Orphaned(u, t, gone, r, Cascade)
  {
  }

  /** A delete only ever removes rows. */
  lemma DeletedRowsWereThere(db: Database, t: TableName, where: seq<Cond>, u: TableName, x: Row)
    requires t in db.tables && u in db.tables && x in Deleted(db, t, where).tables[u].rows
    ensures x in db.tables[u].rows
  {
    assert Deleted(db, t, where).tables[u] == AfterDelete(db, t, u, Matching(db.tables[t].rows, where), where);
  }

  /** A parent row in the table deleted from survives while a row of another table still references it. */
  lemma ReferencedParentSurvives(db: Database, t: TableName, where: seq<Cond>, u: TableName, x: Row, k: nat, parent: Row)
    requires db.foreignKeys && t in db.tables && u in db.tables && u != t
    requires k < |Def(u).foreignKeys| && Def(u).foreignKeys[k].parent == t
    requires Def(u).foreignKeys[k].onDelete == Cascade
    requires x in Deleted(db, t, where).tables[u].rows && parent in db.tables[t].rows
    requires Get(x, Def(u).foreignKeys[k].column) != Null
    requires Get(parent, Def(u).foreignKeys[k].parentColumn) == Get(x, Def(u).foreignKeys[k].column)
    ensures parent in Deleted(db, t, where).tables[t].rows
  {
    var gone := Matching(db.tables[t].rows, where);
    assert Deleted(db, t, where).tables[u] == AfterDelete(db, t, u, gone, where);
    assert Deleted(db, t, where).tables[t] == AfterDelete(db, t, t, gone, where);
    if Satisfies(parent, where) {
      // the parent would be among the deleted rows, and `x` would have gone with it
      assert false;
    }
  }

  /** The parent row a foreign key of a surviving row names is still there after the delete. */
  lemma ParentSurvives(db: Database, t: TableName, where: seq<Cond>, u: TableName, x: Row, k: nat, parent: Row)
    requires db.foreignKeys && t in db.tables && u in db.tables && k < |Def(u).foreignKeys|
    requires Def(u).foreignKeys[k].parent in db.tables && parent in db.tables[Def(u).foreignKeys[k].parent].rows
    requires x in Deleted(db, t, where).tables[u].rows
    requires Get(x, Def(u).foreignKeys[k].column) != Null
    requires Get(parent, Def(u).foreignKeys[k].parentColumn) == Get(x, Def(u).foreignKeys[k].column)
    ensures parent in Deleted(db, t, where).tables[Def(u).foreignKeys[k].parent].rows
  {
    var fk := Def(u).foreignKeys[k];
    ForeignKeyTargetsFirst(u, fk);
    AllForeignKeysCascade(u, fk);
    CascadeIsOneLevel(u, fk);
    if fk.parent == t {
      ReferencedParentSurvives(db, t, where, u, x, k, parent);
    } else {
      var gone := Matching(db.tables[t].rows, where);
      SurvivorsAll(fk.parent, t, gone, db.tables[fk.parent].rows);
      assert Deleted(db, t, where).tables[fk.parent] == AfterDelete(db, t, fk.parent, gone, where);
    }
  }

  /** The parent a surviving row references survives too. */
  lemma SurvivingReference(db: Database, t: TableName, where: seq<Cond>, u: TableName, x: Row, k: nat)
    requires db.foreignKeys && Referential(db) && t in db.tables && u in db.tables
    requires x in Deleted(db, t, where).tables[u].rows && k < |Def(u).foreignKeys|
    requires Get(x, Def(u).foreignKeys[k].column) != Null
    ensures HasRowWith(Deleted(db, t, where), Def(u).foreignKeys[k].parent, Def(u).foreignKeys[k].parentColumn,
      Get(x, Def(u).foreignKeys[k].column))
  {
    var after := Deleted(db, t, where);
    var fk := Def(u).foreignKeys[k];
    DeletedRowsWereThere(db, t, where, u, x);
    var n :| 0 <= n < |db.tables[u].rows| && db.tables[u].rows[n] == x;
    assert ReferencesHold(db, u, x);
    var p :| 0 <= p < |db.tables[fk.parent].rows| && Get(db.tables[fk.parent].rows[p], fk.parentColumn) == Get(x, fk.column);
    var parent := db.tables[fk.parent].rows[p];
    ParentSurvives(db, t, where, u, x, k, parent);
    var q :| 0 <= q < |after.tables[fk.parent].rows| && after.tables[fk.parent].rows[q] == parent;
  }

  lemma DeleteRowsKeepReferential(db: Database, t: TableName, where: seq<Cond>)
    requires db.foreignKeys && Referential(db) && DeleteRows(db, t, where).Ok?
    ensures Referential(DeleteRows(db, t, where).value)
  {
    DeleteRowsShape(db, t, where);
    var after := Deleted(db, t, where);
    forall u, i | u in after.tables && 0 <= i < |after.tables[u].rows|
      ensures ReferencesHold(after, u, after.tables[u].rows[i])
    {
      var x := after.tables[u].rows[i];
      forall k | 0 <= k < |Def(u).foreignKeys| && Get(x, Def(u).foreignKeys[k].column) != Null
        ensures HasRowWith(after, Def(u).foreignKeys[k].parent, Def(u).foreignKeys[k].parentColumn, Get(x, Def(u).foreignKeys[k].column))
      {
        SurvivingReference(db, t, where, u, x, k);
      }
    }
  }

  /** Once enforcement is on, every command that succeeds keeps every foreign key pointing at a row. */
  lemma ApplyKeepsReferential(db: Database, cmd: Command, clock: Clock)
    requires db.foreignKeys && Referential(db) && Apply(db, cmd, clock).Ok?
    ensures Referential(Apply(db, cmd, clock).value)
  {
    match cmd
    case Insert(t, rows) => InsertRowsKeepReferential(db, t, rows, clock);
    case Update(t, sets, where) => UpdateRowsKeepReferential(db, t, sets, where);
    case Delete(t, where) => DeleteRowsKeepReferential(db, t, where);
  }
}
