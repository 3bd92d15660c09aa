/**
 * The part of SQLite the application relies on, over the tables of the schema: rows as maps from
 * column to value; AUTOINCREMENT keys; NOT NULL, CHECK and foreign-key constraints, the last
 * enforced only once `PRAGMA foreign_keys = ON` has run on the connection; ON DELETE CASCADE;
 * and the statements the application issues, as structured commands and queries. The creation
 * script is the one statement kind that arrives as text.
 */
module Store {
  import opened Wrappers
  import opened Schema
  import Lists

  /** A stored value. */
  datatype Value = Null | Int(i: int) | Str(s: string)

  /** A row: the value of each column it has; a missing column reads as NULL. */
  type Row = map<ColumnName, Value>

  function Get(r: Row, c: ColumnName): Value {
    if c in r then r[c] else Null
  }

  /** What `date('now')` and `datetime('now')` give at the time of a statement. */
  datatype Clock = Clock(date: string, dateTime: string)

  /** A table's rows in insertion order, and the largest key AUTOINCREMENT has handed out. */
  datatype Table = Table(rows: seq<Row>, lastId: nat)

  /** The database file's tables, and whether this connection enforces foreign keys. */
  datatype Database = Database(tables: map<TableName, Table>, foreignKeys: bool)

  datatype SqlError =
    | NoSuchTable(table: TableName)
    | NoSuchColumn(table: TableName, column: ColumnName)
    | KeyAssigned(table: TableName)
    | NotNullFailed(table: TableName, column: ColumnName)
    | CheckFailed(table: TableName, column: ColumnName)
    | ForeignKeyFailed(table: TableName)
    | SyntaxError(text: string)

  /** The `column = ?` pairs of an INSERT's column list or an UPDATE's SET clause. */
  type Assignments = seq<(ColumnName, Value)>

  /** `column = value` in a WHERE clause; a WHERE clause is the conjunction of its conditions. */
  datatype Cond = Eq(column: ColumnName, value: Value)

  datatype Command =
    | Insert(table: TableName, rows: seq<Assignments>)
    | Update(table: TableName, sets: Assignments, where: seq<Cond>)
    | Delete(table: TableName, where: seq<Cond>)

  datatype Query = Select(table: TableName, where: seq<Cond>) | Count(table: TableName)

  /** `SELECT *` gives rows, `SELECT COUNT(*) as c` one number. */
  datatype Answer = Rows(rows: seq<Row>) | Counted(count: nat)

  // ----- Columns named by a statement -----

  function Columns(a: Assignments): (cs: seq<ColumnName>)
    ensures |cs| == |a| && forall i :: 0 <= i < |a| ==> cs[i] == a[i].0
  {
    seq(|a|, i requires 0 <= i < |a| => a[i].0)
  }

  function CondColumns(w: seq<Cond>): (cs: seq<ColumnName>)
    ensures |cs| == |w| && forall i :: 0 <= i < |w| ==> cs[i] == w[i].column
  {
    seq(|w|, i requires 0 <= i < |w| => w[i].column)
  }

  /** The first of `cs`, from position `i` on, that table `t` does not have. */
  function UnknownFrom(t: TableName, cs: seq<ColumnName>, i: nat): (u: Option<ColumnName>)
    requires i <= |cs|
    ensures u.None? <==> forall k :: i <= k < |cs| ==> cs[k] in ColumnNames(t)
    ensures u.Some? ==> u.value in cs && u.value !in ColumnNames(t)
    decreases |cs| - i
  {
    if i == |cs| then None
    else if cs[i] !in ColumnNames(t) then Some(cs[i])
    else UnknownFrom(t, cs, i + 1)
  }

  function Unknown(t: TableName, cs: seq<ColumnName>): (u: Option<ColumnName>)
    ensures u.None? <==> forall k :: 0 <= k < |cs| ==> cs[k] in ColumnNames(t)
    ensures u.Some? ==> u.value in cs && u.value !in ColumnNames(t)
  {
    UnknownFrom(t, cs, 0)
  }

  /** The value the first assignment to `c` gives, if any. */
  function Lookup(a: Assignments, c: ColumnName): (v: Option<Value>)
    ensures v.None? <==> c !in Columns(a)
    ensures v.Some? ==> (c, v.value) in a
  {
    if a == [] then None
    else if a[0].0 == c then Some(a[0].1)
    else
      assert Columns(a) == [a[0].0] + Columns(a[1..]);
      Lookup(a[1..], c)
  }

  // ----- Rows and constraints -----

  function DefaultOf(d: DefaultValue, clock: Clock): Value {
    match d
    case NoDefault => Null
    case CurrentDate => Str(clock.date)
    case CurrentDateTime => Str(clock.dateTime)
  }

  /** The value an INSERT stores in a column: the new key, the value given, or the default. */
  function CellFor(col: Column, a: Assignments, id: nat, clock: Clock): Value {
    if col.primaryKey then Int(id) else Lookup(a, col.name).GetOr(DefaultOf(col.default, clock))
  }

  /** The cells of columns `i` onwards of a fresh row. */
  function BuildRow(cols: seq<Column>, a: Assignments, id: nat, clock: Clock, i: nat): Row
    requires i <= |cols|
    decreases |cols| - i
  {
    if i == |cols| then map[]
    else BuildRow(cols, a, id, clock, i + 1)[cols[i].name := CellFor(cols[i], a, id, clock)]
  }

  /** The row an INSERT with key `id` builds. */
  function NewRow(t: TableName, a: Assignments, id: nat, clock: Clock): Row {
    BuildRow(Def(t).columns, a, id, clock, 0)
  }

  /** A CHECK (column IN (...)) admits NULL and the listed strings. */
  predicate Admits(col: Column, v: Value) {
    col.allowed == [] || v == Null || (v.Str? && v.s in col.allowed)
  }

  predicate NotNullHolds(t: TableName, r: Row) {
    forall k :: 0 <= k < |Def(t).columns| && Def(t).columns[k].notNull ==>
      Get(r, Def(t).columns[k].name) != Null
  }

  predicate ChecksHold(t: TableName, r: Row) {
    forall k :: 0 <= k < |Def(t).columns| ==> Admits(Def(t).columns[k], Get(r, Def(t).columns[k].name))
  }

  /** Table `t` has a row whose column `c` holds `v`. */
  predicate HasRowWith(db: Database, t: TableName, c: ColumnName, v: Value) {
    t in db.tables && exists i :: 0 <= i < |db.tables[t].rows| && Get(db.tables[t].rows[i], c) == v
  }

  /** Every non-NULL foreign-key value of `r` names an existing parent row. */
  predicate ReferencesHold(db: Database, t: TableName, r: Row) {
    forall k :: 0 <= k < |Def(t).foreignKeys| ==>
      var fk := Def(t).foreignKeys[k];
      Get(r, fk.column) == Null || HasRowWith(db, fk.parent, fk.parentColumn, Get(r, fk.column))
  }

  /** The first NOT NULL column, from position `i` on, that `r` leaves NULL. */
  function FirstNull(cols: seq<Column>, r: Row, i: nat): (c: Option<ColumnName>)
    requires i <= |cols|
    ensures c.None? <==> forall k :: i <= k < |cols| && cols[k].notNull ==> Get(r, cols[k].name) != Null
    decreases |cols| - i
  {
    if i == |cols| then None
    else if cols[i].notNull && Get(r, cols[i].name) == Null then Some(cols[i].name)
    else FirstNull(cols, r, i + 1)
  }

  /** The first column, from position `i` on, whose CHECK rejects `r`. */
  function FirstRejected(cols: seq<Column>, r: Row, i: nat): (c: Option<ColumnName>)
    requires i <= |cols|
    ensures c.None? <==> forall k :: i <= k < |cols| ==> Admits(cols[k], Get(r, cols[k].name))
    decreases |cols| - i
  {
    if i == |cols| then None
    else if !Admits(cols[i], Get(r, cols[i].name)) then Some(cols[i].name)
    else FirstRejected(cols, r, i + 1)
  }

  /**
   * The constraint a new or changed row breaks, checked as SQLite does: NOT NULL, then CHECK,
   * then (with enforcement on) foreign keys.
   */
  function Violation(db: Database, t: TableName, r: Row): (e: Option<SqlError>)
    ensures e.None? <==> NotNullHolds(t, r) && ChecksHold(t, r) && (db.foreignKeys ==> ReferencesHold(db, t, r))
  {
    match FirstNull(Def(t).columns, r, 0)
    case Some(c) => Some(NotNullFailed(t, c))
    case None =>
      match FirstRejected(Def(t).columns, r, 0)
      case Some(c) => Some(CheckFailed(t, c))
      case None => if db.foreignKeys && !ReferencesHold(db, t, r) then Some(ForeignKeyFailed(t)) else None
  }

  // ----- INSERT -----

  /** Whether the columns an INSERT names exist and leave the key to AUTOINCREMENT. */
  function InsertError(t: TableName, a: Assignments): Option<SqlError> {
    match Unknown(t, Columns(a))
    case Some(c) => Some(NoSuchColumn(t, c))
    case None => if KeyOf(t) in Columns(a) then Some(KeyAssigned(t)) else None
  }

  /** Table `t` with row `r` added at the end under the next key. */
  function Appended(db: Database, t: TableName, r: Row): Database
    requires t in db.tables
  {
    db.(tables := db.tables[t := Table(db.tables[t].rows + [r], db.tables[t].lastId + 1)])
  }

  /** Adding row `r` to table `t`, unless it breaks a constraint. */
  function InsertChecked(db: Database, t: TableName, r: Row): Result<Database, SqlError>
    requires t in db.tables
  {
    match Violation(db, t, r)
    case Some(e) => Err(e)
    case None => Ok(Appended(db, t, r))
  }

  /** One row of an INSERT: it gets the next key, and the key counter moves on. */
  function InsertRow(db: Database, t: TableName, a: Assignments, clock: Clock): Result<Database, SqlError> {
    if t !in db.tables then Err(NoSuchTable(t))
    else if InsertError(t, a).Some? then Err(InsertError(t, a).value)
    else InsertNext(db, t, a, clock)
  }

  /** The row an INSERT builds under the next key, added unless it breaks a constraint. */
  function InsertNext(db: Database, t: TableName, a: Assignments, clock: Clock): Result<Database, SqlError>
    requires t in db.tables
  {
    InsertChecked(db, t, NewRow(t, a, db.tables[t].lastId + 1, clock))
  }

  /** A multi-row INSERT: the rows in order; if one fails, the statement changes nothing. */
  function InsertRows(db: Database, t: TableName, rows: seq<Assignments>, clock: Clock): Result<Database, SqlError>
    decreases |rows|
  {
    if rows == [] then Ok(db)
    else
      match InsertRow(db, t, rows[0], clock)
      case Err(e) => Err(e)
      case Ok(next) => InsertRows(next, t, rows[1..], clock)
  }

  // ----- UPDATE -----

  predicate Satisfies(r: Row, where: seq<Cond>) {
    forall i :: 0 <= i < |where| ==> where[i].value != Null && Get(r, where[i].column) == where[i].value
  }

  /** `r` with the SET clause applied. */
  function Overwrite(r: Row, sets: Assignments): (o: Row)
    ensures forall c :: Get(o, c) == Lookup(sets, c).GetOr(Get(r, c))
    decreases |sets|
  {
    if sets == [] then r else Overwrite(r, sets[1..])[sets[0].0 := sets[0].1]
  }

  /** The rows an UPDATE leaves: the matching ones overwritten, the others as they were. */
  function Updated(rows: seq<Row>, sets: Assignments, where: seq<Cond>): (u: seq<Row>)
    ensures |u| == |rows|
    ensures forall i :: 0 <= i < |rows| ==> u[i] == if Satisfies(rows[i], where) then Overwrite(rows[i], sets) else rows[i]
  {
    seq(|rows|, i requires 0 <= i < |rows| => if Satisfies(rows[i], where) then Overwrite(rows[i], sets) else rows[i])
  }

  /** Row `r`, if the WHERE selects it, still satisfies the constraints once overwritten. */
  predicate StillAdmitted(db: Database, t: TableName, r: Row, sets: Assignments, where: seq<Cond>) {
    Satisfies(r, where) ==> Violation(db, t, Overwrite(r, sets)).None?
  }

  /** Every row the WHERE selects, once overwritten, still satisfies the constraints. */
  predicate AllAdmitted(db: Database, t: TableName, rows: seq<Row>, sets: Assignments, where: seq<Cond>)
    decreases |rows|
  {
    rows == [] || (StillAdmitted(db, t, rows[0], sets, where) && AllAdmitted(db, t, rows[1..], sets, where))
  }

  lemma {:induction false} AllAdmittedAt(db: Database, t: TableName, rows: seq<Row>, sets: Assignments, where: seq<Cond>)
    ensures AllAdmitted(db, t, rows, sets, where) <==> forall i :: 0 <= i < |rows| ==> StillAdmitted(db, t, rows[i], sets, where)
    decreases |rows|
  {
    if rows != [] {
      var rest := rows[1..];
      AllAdmittedAt(db, t, rest, sets, where);
      if AllAdmitted(db, t, rows, sets, where) {
        forall i | 0 <= i < |rows| ensures StillAdmitted(db, t, rows[i], sets, where) {
          if i > 0 {
            assert rows[i] == rest[i - 1];
          }
        }
      }
      if forall i :: 0 <= i < |rows| ==> StillAdmitted(db, t, rows[i], sets, where) {
        forall j | 0 <= j < |rest| ensures StillAdmitted(db, t, rest[j], sets, where) {
          assert rest[j] == rows[j + 1];
        }
      }
    }
  }

  /** The first constraint an overwritten row breaks. */
  function UpdateViolation(db: Database, t: TableName, rows: seq<Row>, sets: Assignments, where: seq<Cond>): (e: Option<SqlError>)
    ensures e.None? <==> AllAdmitted(db, t, rows, sets, where)
    ensures e.None? <==> forall i :: 0 <= i < |rows| && Satisfies(rows[i], where) ==> Violation(db, t, Overwrite(rows[i], sets)).None?
    decreases |rows|
  {
    AllAdmittedAt(db, t, rows, sets, where);
    if rows == [] then None
    else if Satisfies(rows[0], where) && Violation(db, t, Overwrite(rows[0], sets)).Some? then
      Violation(db, t, Overwrite(rows[0], sets))
    else
      UpdateViolation(db, t, rows[1..], sets, where)
  }

  /** Table `t` with its rows replaced. */
  function Replaced(db: Database, t: TableName, rows: seq<Row>): Database
    requires t in db.tables
  {
    db.(tables := db.tables[t := db.tables[t].(rows := rows)])
  }

  function UpdateRows(db: Database, t: TableName, sets: Assignments, where: seq<Cond>): Result<Database, SqlError> {
    if t !in db.tables then Err(NoSuchTable(t))
    else if Unknown(t, Columns(sets) + CondColumns(where)).Some? then
      Err(NoSuchColumn(t, Unknown(t, Columns(sets) + CondColumns(where)).value))
    else if KeyOf(t) in Columns(sets) then Err(KeyAssigned(t))
    else
      var rows := db.tables[t].rows;
      if UpdateViolation(db, t, rows, sets, where).Some? then Err(UpdateViolation(db, t, rows, sets, where).value)
      else Ok(Replaced(db, t, Updated(rows, sets, where)))
  }

  // ----- DELETE -----

  /** Row `r` of table `u` references, through a foreign key with `action`, one of the rows of `t` in `gone`. */
  predicate Orphaned(u: TableName, t: TableName, gone: seq<Row>, r: Row, action: OnDelete) {
    exists k :: 0 <= k < |Def(u).foreignKeys| && Def(u).foreignKeys[k].parent == t
      && Def(u).foreignKeys[k].onDelete == action && Get(r, Def(u).foreignKeys[k].column) != Null
      && exists j :: (0 <= j < |gone|
        && Get(gone[j], Def(u).foreignKeys[k].parentColumn) == Get(r, Def(u).foreignKeys[k].column))
  }

  /** Some row elsewhere references a deleted row through a foreign key without ON DELETE CASCADE. */
  predicate Restricted(db: Database, t: TableName, gone: seq<Row>) {
    exists u :: u in db.tables && exists i :: (0 <= i < |db.tables[u].rows|
      && Orphaned(u, t, gone, db.tables[u].rows[i], NoAction))
  }

  /** The rows a WHERE clause selects, in table order. */
  function Matching(rows: seq<Row>, where: seq<Cond>): (kept: seq<Row>)
    ensures forall r :: r in kept <==> r in rows && Satisfies(r, where)
  {
    Lists.Filter(rows, (r: Row) => Satisfies(r, where))
  }

  /** The rows a DELETE leaves in its own table. */
  function Remaining(rows: seq<Row>, where: seq<Cond>): (kept: seq<Row>)
    ensures forall r :: r in kept <==> r in rows && !Satisfies(r, where)
  {
    Lists.Filter(rows, (r: Row) => !Satisfies(r, where))
  }

  /** The rows of `u` that no cascading foreign key ties to a deleted row of `t`. */
  function Survivors(u: TableName, t: TableName, gone: seq<Row>, rows: seq<Row>): (kept: seq<Row>)
    ensures forall r :: r in kept <==> r in rows && !Orphaned(u, t, gone, r, Cascade)
  {
    Lists.Filter(rows, (r: Row) => !Orphaned(u, t, gone, r, Cascade))
  }

  /** Table `u` once the rows `gone` of `t` are deleted and, with enforcement on, their dependents cascaded. */
  function AfterDelete(db: Database, t: TableName, u: TableName, gone: seq<Row>, where: seq<Cond>): Table
    requires u in db.tables
  {
    var tab := db.tables[u];
    if u == t then tab.(rows := Remaining(tab.rows, where))
    else if db.foreignKeys then tab.(rows := Survivors(u, t, gone, tab.rows))
    else tab
  }

  /** Every table once the rows of `t` matching `where` are deleted, with their dependents. */
  function Deleted(db: Database, t: TableName, where: seq<Cond>): Database
    requires t in db.tables
  {
    var gone := Matching(db.tables[t].rows, where);
    db.(tables := map u | u in db.tables :: AfterDelete(db, t, u, gone, where))
  }

  function DeleteRows(db: Database, t: TableName, where: seq<Cond>): Result<Database, SqlError> {
    if t !in db.tables then Err(NoSuchTable(t))
    else if Unknown(t, CondColumns(where)).Some? then Err(NoSuchColumn(t, Unknown(t, CondColumns(where)).value))
    else if db.foreignKeys && Restricted(db, t, Matching(db.tables[t].rows, where)) then Err(ForeignKeyFailed(t))
    else Ok(Deleted(db, t, where))
  }

  // ----- Statements -----

  /** `runAsync`: the database after a command, or the error SQLite raises. */
  function Apply(db: Database, cmd: Command, clock: Clock): Result<Database, SqlError> {
    match cmd
    case Insert(t, rows) => InsertRows(db, t, rows, clock)
    case Update(t, sets, where) => UpdateRows(db, t, sets, where)
    case Delete(t, where) => DeleteRows(db, t, where)
  }

  /** `getAllAsync`: the rows a query selects, in table order, or its count. */
  function Eval(db: Database, q: Query): Result<Answer, SqlError> {
    match q
    case Select(t, where) =>
      if t !in db.tables then Err(NoSuchTable(t))
      else if Unknown(t, CondColumns(where)).Some? then Err(NoSuchColumn(t, Unknown(t, CondColumns(where)).value))
      else Ok(Rows(Matching(db.tables[t].rows, where)))
    case Count(t) =>
      if t !in db.tables then Err(NoSuchTable(t)) else Ok(Counted(|db.tables[t].rows|))
  }

  /**
   * `execAsync` of one statement of the creation script: the PRAGMA turns enforcement on, a
   * CREATE TABLE IF NOT EXISTS adds the table, empty, when it is missing; any other text is refused.
   */
  function Exec(db: Database, text: string): Result<Database, SqlError> {
    match Parse(text)
    case None => Err(SyntaxError(text))
    case Some(PragmaForeignKeysOn) => Ok(db.(foreignKeys := true))
    case Some(CreateTable(t)) =>
      if t in db.tables then Ok(db) else Ok(db.(tables := db.tables[t := Table([], 0)]))
  }
}
