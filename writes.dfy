/**
 * What the forms of the screens share: how a typed text becomes a stored value, the check on a
 * picked id, and what a successful UPDATE by key or single-row INSERT does to the tables.
 */
module Writes {
  import opened Wrappers
  import opened Schema
  import opened Store
  import JsText
  import StoreLaws

  /** `s.trim() || null`: the trimmed text, or NULL when only white space was typed. */
  function TrimOrNull(s: string): (v: Value)
    ensures v == Null <==> JsText.AllSpace(s)
    ensures v != Null ==> v == Str(JsText.Trim(s)) && v.s != []
  {
    JsText.TrimEmptyIffAllSpace(s);
    if JsText.Trim(s) == [] then Null else Str(JsText.Trim(s))
  }

  /** `s || null`: the text as typed, or NULL for the empty text. */
  function OrNull(s: string): (v: Value)
    ensures v == Null <==> s == []
    ensures v != Null ==> v == Str(s)
  {
    if s == [] then Null else Str(s)
  }

  /** The non-blank text the required fields insist on, trimmed: `x.trim()` is truthy. */
  predicate Filled(s: string) {
    JsText.Trim(s) != []
  }

  lemma FilledIffNotBlank(s: string)
    ensures Filled(s) <==> !JsText.AllSpace(s)
  {
    JsText.TrimEmptyIffAllSpace(s);
  }

  /** A picked id as the pickers hold it: a number, or `null` before anything is picked. */
  type PickedId = Option<int>

  /** `!!id`: a picked id passes the guard unless it is `null` or `0`. */
  predicate Chosen(id: PickedId) {
    id.Some? && id.value != 0
  }

  /** The parameter the statement binds for a picked id. */
  function IdValue(id: PickedId): (v: Value)
    ensures v == Null <==> id.None?
    ensures id.Some? ==> v == Int(id.value)
  {
    match id
    case None => Null
    case Some(n) => Int(n)
  }

  /** `WHERE <key of t> = ?`, binding `v`. */
  function KeyIs(t: TableName, v: Value): seq<Cond> {
    [Eq(KeyOf(t), v)]
  }

  /** Row `r` holds key `v`, so `WHERE <key> = v` selects it (a NULL parameter selects nothing). */
  predicate HoldsKey(t: TableName, r: Row, v: Value) {
    v != Null && Get(r, KeyOf(t)) == v
  }

  /** The value a SET clause or an INSERT gives a column is that of the first assignment to it. */
  lemma {:induction false} LookupAt(a: Assignments, k: nat)
    requires k < |a| && forall j :: 0 <= j < k ==> a[j].0 != a[k].0
    ensures Lookup(a, a[k].0) == Some(a[k].1)
    decreases k
  {
    if k > 0 {
      assert a[1..][k - 1] == a[k];
      assert forall j :: 0 <= j < k - 1 ==> a[1..][j] == a[j + 1];
      LookupAt(a[1..], k - 1);
    }
  }

  /** The first assignment of a SET clause is applied last, over the others. */
  lemma OverwriteCons(r: Row, a: Assignments, c: ColumnName, v: Value, rest: Assignments)
    requires a == [(c, v)] + rest
    ensures Overwrite(r, a) == Overwrite(r, rest)[c := v]
  {
    assert a[0] == (c, v) && a[1..] == rest;
  }

  lemma KeyIsSelects(t: TableName, r: Row, v: Value)
    ensures Satisfies(r, KeyIs(t, v)) <==> HoldsKey(t, r, v)
  {
    assert KeyIs(t, v)[0] == Eq(KeyOf(t), v);
  }

  /**
   * An UPDATE of table `t` by key that succeeds rewrites exactly the rows holding that key, in
   * place, with its SET clause (`Overwrite`: the columns it sets change, no other); the table's
   * counter and every other table stay as they were.
   */
  lemma UpdateByKey(db: Database, t: TableName, sets: Assignments, v: Value)
    requires UpdateRows(db, t, sets, KeyIs(t, v)).Ok?
    ensures t in db.tables
    ensures var after := UpdateRows(db, t, sets, KeyIs(t, v)).value;
      var before := db.tables[t].rows;
      && after.tables.Keys == db.tables.Keys && after.foreignKeys == db.foreignKeys
      && (forall u :: u in db.tables && u != t ==> after.tables[u] == db.tables[u])
      && after.tables[t].lastId == db.tables[t].lastId
      && |after.tables[t].rows| == |before|
      && forall i :: 0 <= i < |before| ==>
        if HoldsKey(t, before[i], v) then after.tables[t].rows[i] == Overwrite(before[i], sets)
        else after.tables[t].rows[i] == before[i]
  {
    StoreLaws.UpdateRowsShape(db, t, sets, KeyIs(t, v));
    var before := db.tables[t].rows;
    forall i | 0 <= i < |before| ensures Satisfies(before[i], KeyIs(t, v)) <==> HoldsKey(t, before[i], v) {
      KeyIsSelects(t, before[i], v);
    }
  }

  /** A one-row INSERT is that row's insertion. */
  lemma SingleInsert(db: Database, t: TableName, a: Assignments, clock: Clock)
    ensures Apply(db, Insert(t, [a]), clock) == InsertRow(db, t, a, clock)
  {
    var rows := [a];
    assert rows[0] == a && rows[1..] == [];
    match InsertRow(db, t, a, clock) {
      case Err(e) =>
      case Ok(next) => assert InsertRows(next, t, rows[1..], clock) == Ok(next);
    }
  }

  /** The columns an INSERT or a SET clause names are pairwise different, as in every statement of the screens. */
  predicate DistinctColumns(a: Assignments) {
    forall i, j :: 0 <= i < j < |a| ==> a[i].0 != a[j].0
  }

  /** Row `r` holds the value `a` gives each column it names. */
  predicate HoldsAssigned(r: Row, a: Assignments) {
    forall k :: 0 <= k < |a| ==> Get(r, a[k].0) == a[k].1
  }

  /** A row an accepted INSERT builds holds the value the INSERT gives each column it names. */
  lemma NamedCells(t: TableName, a: Assignments, id: nat, clock: Clock)
    requires InsertError(t, a).None? && DistinctColumns(a)
    ensures forall k :: 0 <= k < |a| ==> Get(NewRow(t, a, id, clock), a[k].0) == a[k].1
  {
    forall k | 0 <= k < |a| ensures Get(NewRow(t, a, id, clock), a[k].0) == a[k].1 {
      var c := a[k].0;
      LookupAt(a, k);
      assert Unknown(t, Columns(a)).None?;
      assert Columns(a)[k] == c;
      assert c in ColumnNames(t);
      var n :| 0 <= n < |Def(t).columns| && Def(t).columns[n].name == c;
      KeyIsFirst(t);
      assert n != 0;
      StoreLaws.NewRowCell(t, a, id, clock, n);
    }
  }

  /** An INSERT that succeeds named only columns of the table, and not its key. */
  lemma InsertOkColumns(db: Database, t: TableName, a: Assignments, clock: Clock)
    requires InsertRow(db, t, a, clock).Ok?
    ensures t in db.tables && InsertError(t, a).None?
  {
  }

  /**
   * A one-row INSERT that succeeds appends one row to table `t` under the next key (`Appended`),
   * holding the value the INSERT gives each column it names; every other table stays as it was.
   */
  lemma InsertOne(db: Database, t: TableName, a: Assignments, clock: Clock)
    requires Apply(db, Insert(t, [a]), clock).Ok?
    ensures t in db.tables && InsertError(t, a).None?
    ensures var r := NewRow(t, a, db.tables[t].lastId + 1, clock);
      && Apply(db, Insert(t, [a]), clock).value == Appended(db, t, r)
      && Get(r, KeyOf(t)) == Int(db.tables[t].lastId + 1)
      && (DistinctColumns(a) ==> HoldsAssigned(r, a))
  {
    SingleInsert(db, t, a, clock);
    InsertOkColumns(db, t, a, clock);
    StoreLaws.InsertRowShape(db, t, a, clock);
    StoreLaws.NewRowKey(t, a, db.tables[t].lastId + 1, clock);
    if DistinctColumns(a) {
      NamedCells(t, a, db.tables[t].lastId + 1, clock);
    }
  }

  /** An accepted INSERT of one row with distinct columns appends a row under the next key holding its values. */
  lemma InsertedHolding(db: Database, t: TableName, a: Assignments, clock: Clock) returns (r: Row)
    requires Apply(db, Insert(t, [a]), clock).Ok? && DistinctColumns(a)
    ensures t in db.tables && Apply(db, Insert(t, [a]), clock).value == Appended(db, t, r)
    ensures Get(r, KeyOf(t)) == Int(db.tables[t].lastId + 1) && HoldsAssigned(r, a)
  {
    r := InsertedRow(db, Insert(t, [a]), t, a, clock);
  }

  /** The row a successful single-row INSERT `w` appends, named without its construction. */
  lemma InsertedRow(db: Database, w: Command, t: TableName, a: Assignments, clock: Clock) returns (r: Row)
    requires w == Insert(t, [a]) && Apply(db, w, clock).Ok?
    ensures t in db.tables
    ensures Apply(db, w, clock).value == Appended(db, t, r)
    ensures Get(r, KeyOf(t)) == Int(db.tables[t].lastId + 1)
    ensures DistinctColumns(a) ==> HoldsAssigned(r, a)
  {
    InsertOne(db, t, a, clock);
    r := NewRow(t, a, db.tables[t].lastId + 1, clock);
  }
}
