/**
 * Deleting one row by its key, as every screen does: the row goes, and with enforcement on so does
 * every row that references it, in the tables whose foreign keys point at its table; nothing
 * else changes.
 */
module Cascade {
  import opened Wrappers
  import opened Schema
  import opened Store
  import StoreLaws

  /** `WHERE <key> = ?`. */
  function ByKey(t: TableName, id: int): seq<Cond> {
    [Eq(KeyOf(t), Int(id))]
  }

  /** Some foreign key of table `u` from row `r` into table `t` holds `v`. */
  predicate RefersTo(u: TableName, t: TableName, r: Row, v: Value) {
    exists k :: 0 <= k < |Def(u).foreignKeys| && Def(u).foreignKeys[k].parent == t && Get(r, Def(u).foreignKeys[k].column) == v
  }

  /** The rows `WHERE <key> = id` selects are the rows holding that key. */
  lemma InGone(rows: seq<Row>, t: TableName, id: int, g: Row)
    ensures g in Matching(rows, ByKey(t, id)) <==> g in rows && Get(g, KeyOf(t)) == Int(id)
  {
    var w := ByKey(t, id);
    assert |w| == 1 && w[0] == Eq(KeyOf(t), Int(id));
    assert Satisfies(g, w) <==> Get(g, KeyOf(t)) == Int(id);
  }

  /** Every row the delete by key takes holds that key, so the key was there. */
  lemma GoneHoldsKey(db: Database, t: TableName, id: int, j: nat)
    requires t in db.tables && j < |Matching(db.tables[t].rows, ByKey(t, id))|
    ensures Get(Matching(db.tables[t].rows, ByKey(t, id))[j], KeyOf(t)) == Int(id)
    ensures HasRowWith(db, t, KeyOf(t), Int(id))
  {
    var rows := db.tables[t].rows;
    var g := Matching(rows, ByKey(t, id))[j];
    InGone(rows, t, id, g);
    var i :| 0 <= i < |rows| && rows[i] == g;
  }

  /** A row that goes with the deleted row references its key, and that key was there. */
  lemma OrphanedRefersTo(db: Database, t: TableName, id: int, u: TableName, r: Row)
    requires t in db.tables && Orphaned(u, t, Matching(db.tables[t].rows, ByKey(t, id)), r, Cascade)
    ensures RefersTo(u, t, r, Int(id)) && HasRowWith(db, t, KeyOf(t), Int(id))
  {
    var gone := Matching(db.tables[t].rows, ByKey(t, id));
    var fks := Def(u).foreignKeys;
    var k :| 0 <= k < |fks| && fks[k].parent == t && fks[k].onDelete == Cascade && Get(r, fks[k].column) != Null
      && exists j :: 0 <= j < |gone| && Get(gone[j], fks[k].parentColumn) == Get(r, fks[k].column);
    ForeignKeyTargetsFirst(u, fks[k]);
    var j :| 0 <= j < |gone| && Get(gone[j], fks[k].parentColumn) == Get(r, fks[k].column);
    GoneHoldsKey(db, t, id, j);
  }

  /** A row goes with the deleted rows when one cascading foreign key of its table links it to one of them. */
  lemma OrphanedThrough(u: TableName, t: TableName, gone: seq<Row>, r: Row, k: nat, j: nat)
    requires k < |Def(u).foreignKeys| && j < |gone|
    requires var fk := Def(u).foreignKeys[k];
      && fk.parent == t && fk.onDelete == Cascade && Get(r, fk.column) != Null
      && Get(gone[j], fk.parentColumn) == Get(r, fk.column)
    ensures Orphaned(u, t, gone, r, Cascade)
  {
  }

  /** When a row holds the key, the delete by that key takes a row holding it. */
  lemma KeyHolderGone(db: Database, t: TableName, id: int)
    requires t in db.tables && HasRowWith(db, t, KeyOf(t), Int(id))
    ensures var gone := Matching(db.tables[t].rows, ByKey(t, id));
      exists j :: 0 <= j < |gone| && Get(gone[j], KeyOf(t)) == Int(id)
  {
    var rows := db.tables[t].rows;
    var i :| 0 <= i < |rows| && Get(rows[i], KeyOf(t)) == Int(id);
    InGone(rows, t, id, rows[i]);
  }

  /** A row that references an existing key goes with the row that holds it. */
  lemma RefersToOrphaned(db: Database, t: TableName, id: int, u: TableName, r: Row)
    requires t in db.tables && RefersTo(u, t, r, Int(id)) && HasRowWith(db, t, KeyOf(t), Int(id))
    ensures Orphaned(u, t, Matching(db.tables[t].rows, ByKey(t, id)), r, Cascade)
  {
    var gone := Matching(db.tables[t].rows, ByKey(t, id));
    var fks := Def(u).foreignKeys;
    var k :| 0 <= k < |fks| && fks[k].parent == t && Get(r, fks[k].column) == Int(id);
    ForeignKeyTargetsFirst(u, fks[k]);
    AllForeignKeysCascade(u, fks[k]);
    KeyHolderGone(db, t, id);
    var j :| 0 <= j < |gone| && Get(gone[j], KeyOf(t)) == Int(id);
    OrphanedThrough(u, t, gone, r, k, j);
  }

  /**
   * With enforcement on, a delete by key always succeeds: it removes the rows with that key and,
   * from every other table, exactly the rows that reference it; key counters do not move.
   */
  lemma DeleteByKey(db: Database, t: TableName, id: int)
    requires db.foreignKeys && t in db.tables
    ensures DeleteRows(db, t, ByKey(t, id)).Ok?
    ensures var after := DeleteRows(db, t, ByKey(t, id)).value;
      && after.tables.Keys == db.tables.Keys && after.foreignKeys
      && (forall r :: r in after.tables[t].rows <==> r in db.tables[t].rows && Get(r, KeyOf(t)) != Int(id))
      && (forall u, r :: u in db.tables && u != t ==>
        (r in after.tables[u].rows <==> (r in db.tables[u].rows
          && !(RefersTo(u, t, r, Int(id)) && HasRowWith(db, t, KeyOf(t), Int(id))))))
      && forall u :: u in db.tables ==> after.tables[u].lastId == db.tables[u].lastId
  {
    KeyIsFirst(t);
    assert ColumnNames(t)[0] == KeyOf(t);
    StoreLaws.NeverRestricted(db, t, Matching(db.tables[t].rows, ByKey(t, id)));
    StoreLaws.DeleteRowsShape(db, t, ByKey(t, id));
    var after := Deleted(db, t, ByKey(t, id));
    forall u, r | u in db.tables && u != t
      ensures r in after.tables[u].rows <==> (r in db.tables[u].rows
        && !(RefersTo(u, t, r, Int(id)) && HasRowWith(db, t, KeyOf(t), Int(id))))
    {
      if Orphaned(u, t, Matching(db.tables[t].rows, ByKey(t, id)), r, Cascade) {
        OrphanedRefersTo(db, t, id, u, r);
      }
      if RefersTo(u, t, r, Int(id)) && HasRowWith(db, t, KeyOf(t), Int(id)) {
        RefersToOrphaned(db, t, id, u, r);
      }
    }
  }

  /** A table with no foreign key into `t` comes out of a delete from `t` unchanged. */
  lemma UnrelatedUnchanged(db: Database, t: TableName, where: seq<Cond>, u: TableName)
    requires t in db.tables && u in db.tables && u != t
    requires forall k :: 0 <= k < |Def(u).foreignKeys| ==> Def(u).foreignKeys[k].parent != t
    ensures Deleted(db, t, where).tables[u] == db.tables[u]
  {
    StoreLaws.SurvivorsAll(u, t, Matching(db.tables[t].rows, where), db.tables[u].rows);
  }

  /** Some foreign key of table `u` points at table `t`. */
  predicate References(u: TableName, t: TableName) {
    exists k :: 0 <= k < |Def(u).foreignKeys| && Def(u).foreignKeys[k].parent == t
  }

  /** Each foreign key column is named after the key it references. */
  lemma RefersToKey(u: TableName, t: TableName, r: Row, v: Value)
    ensures RefersTo(u, t, r, v) <==> References(u, t) && Get(r, KeyOf(t)) == v
  {
    if References(u, t) {
      var k :| 0 <= k < |Def(u).foreignKeys| && Def(u).foreignKeys[k].parent == t;
      ForeignKeyTargetsFirst(u, Def(u).foreignKeys[k]);
      if RefersTo(u, t, r, v) {
        var k' :| 0 <= k' < |Def(u).foreignKeys| && Def(u).foreignKeys[k'].parent == t && Get(r, Def(u).foreignKeys[k'].column) == v;
        ForeignKeyTargetsFirst(u, Def(u).foreignKeys[k']);
      }
    }
  }

  /** A fact table references exactly the patients and its own type table. */
  lemma FactReferences(u: TableName, typ: TableName)
    requires (u == DonneesSanitaires && typ == TypesDonnees) || (u == Consultations && typ == TypesConsultations)
      || (u == Examens && typ == TypesExamens)
    ensures forall t :: References(u, t) <==> t == Patients || t == typ
  {
    var fks := Def(u).foreignKeys;
    assert |fks| == 2 && fks[0].parent == Patients && fks[1].parent == typ;
  }

  /** The other tables reference none. */
  lemma OtherReferences(u: TableName)
    requires u != DonneesSanitaires && u != Consultations && u != Examens
    ensures forall t :: !References(u, t)
  {
    assert Def(u).foreignKeys == [];
  }

  /** Which tables reference which: the three fact tables point at patients and at their own type table. */
  lemma ReferencingTables(u: TableName)
    ensures References(u, Patients) <==> u == DonneesSanitaires || u == Consultations || u == Examens
    ensures References(u, TypesDonnees) <==> u == DonneesSanitaires
    ensures References(u, TypesConsultations) <==> u == Consultations
    ensures References(u, TypesExamens) <==> u == Examens
    ensures !References(u, DonneesSanitaires) && !References(u, Consultations) && !References(u, Examens)
    ensures !References(u, PiecesJointes)
  {
    if u == DonneesSanitaires {
      FactReferences(u, TypesDonnees);
    } else if u == Consultations {
      FactReferences(u, TypesConsultations);
    } else if u == Examens {
      FactReferences(u, TypesExamens);
    } else {
      OtherReferences(u);
    }
  }

  /** In a referentially sound database a stored row only ever references keys that exist. */
  lemma ReferencedKeyExists(db: Database, u: TableName, t: TableName, r: Row, v: Value)
    requires StoreLaws.Referential(db) && u in db.tables && r in db.tables[u].rows
    requires RefersTo(u, t, r, v) && v != Null
    ensures HasRowWith(db, t, KeyOf(t), v)
  {
    var i :| 0 <= i < |db.tables[u].rows| && db.tables[u].rows[i] == r;
    assert ReferencesHold(db, u, r);
    var k :| 0 <= k < |Def(u).foreignKeys| && Def(u).foreignKeys[k].parent == t && Get(r, Def(u).foreignKeys[k].column) == v;
    ForeignKeyTargetsFirst(u, Def(u).foreignKeys[k]);
  }

  /**
   * In a referentially sound database with enforcement on, deleting the row with key `id` from
   * `t` removes that row and, from each table with a foreign key into `t`, exactly the rows that
   * hold `id` in that column; every other table is unchanged.
   */
  lemma DeleteByKeyCascades(db: Database, t: TableName, id: int)
    requires db.foreignKeys && StoreLaws.Referential(db) && t in db.tables
    ensures DeleteRows(db, t, ByKey(t, id)).Ok?
    ensures var after := DeleteRows(db, t, ByKey(t, id)).value;
      && after.tables.Keys == db.tables.Keys
      && (forall r :: r in after.tables[t].rows <==> r in db.tables[t].rows && Get(r, KeyOf(t)) != Int(id))
      && (forall u, r :: u in db.tables && u != t && References(u, t) ==>
        (r in after.tables[u].rows <==> r in db.tables[u].rows && Get(r, KeyOf(t)) != Int(id)))
      && forall u :: u in db.tables && u != t && !References(u, t) ==> after.tables[u] == db.tables[u]
  {
    DeleteByKey(db, t, id);
    StoreLaws.DeleteRowsShape(db, t, ByKey(t, id));
    var after := DeleteRows(db, t, ByKey(t, id)).value;
    forall u, r | u in db.tables && u != t && References(u, t)
      ensures r in after.tables[u].rows <==> r in db.tables[u].rows && Get(r, KeyOf(t)) != Int(id)
    {
      RefersToKey(u, t, r, Int(id));
      if r in db.tables[u].rows && RefersTo(u, t, r, Int(id)) {
        ReferencedKeyExists(db, u, t, r, Int(id));
      }
    }
    forall u | u in db.tables && u != t && !References(u, t) ensures after.tables[u] == db.tables[u] {
      UnrelatedUnchanged(db, t, ByKey(t, id), u);
    }
  }

  /**
   * Deleting a patient removes their health data, consultations and examinations; attachments,
   * which carry no foreign key, stay behind, as do the type tables.
   */
  lemma DeletePatient(db: Database, id: int)
    requires db.foreignKeys && StoreLaws.Referential(db) && Patients in db.tables
    ensures DeleteRows(db, Patients, ByKey(Patients, id)).Ok?
    ensures var after := DeleteRows(db, Patients, ByKey(Patients, id)).value;
      && (forall r :: r in after.tables[Patients].rows <==> r in db.tables[Patients].rows && Get(r, PatientId) != Int(id))
      && (forall u, r :: u in db.tables && (u == DonneesSanitaires || u == Consultations || u == Examens) ==>
        (r in after.tables[u].rows <==> r in db.tables[u].rows && Get(r, PatientId) != Int(id)))
      && (PiecesJointes in db.tables ==> after.tables[PiecesJointes] == db.tables[PiecesJointes])
  {
    DeleteByKeyCascades(db, Patients, id);
    forall u | true ensures References(u, Patients) <==> u == DonneesSanitaires || u == Consultations || u == Examens {
      ReferencingTables(u);
    }
    ReferencingTables(PiecesJointes);
  }

  /** Deleting a health-data type removes exactly the health data of that type. */
  lemma DeleteDataType(db: Database, id: int)
    requires db.foreignKeys && StoreLaws.Referential(db) && TypesDonnees in db.tables
    ensures DeleteRows(db, TypesDonnees, ByKey(TypesDonnees, id)).Ok?
    ensures var after := DeleteRows(db, TypesDonnees, ByKey(TypesDonnees, id)).value;
      && (DonneesSanitaires in db.tables ==> forall r :: (r in after.tables[DonneesSanitaires].rows
        <==> r in db.tables[DonneesSanitaires].rows && Get(r, TypeDonneeId) != Int(id)))
      && forall u :: u in db.tables && u != TypesDonnees && u != DonneesSanitaires ==> after.tables[u] == db.tables[u]
  {
    DeleteByKeyCascades(db, TypesDonnees, id);
    forall u | true ensures References(u, TypesDonnees) <==> u == DonneesSanitaires {
      ReferencingTables(u);
    }
  }

  /** Deletes in the three fact tables and in attachments cascade nowhere. */
  lemma DeleteLeafRow(db: Database, t: TableName, id: int)
    requires db.foreignKeys && StoreLaws.Referential(db) && t in db.tables
    requires t == DonneesSanitaires || t == Consultations || t == Examens || t == PiecesJointes
    ensures DeleteRows(db, t, ByKey(t, id)).Ok?
    ensures var after := DeleteRows(db, t, ByKey(t, id)).value;
      && (forall r :: r in after.tables[t].rows <==> r in db.tables[t].rows && Get(r, KeyOf(t)) != Int(id))
      && forall u :: u in db.tables && u != t ==> after.tables[u] == db.tables[u]
  {
    DeleteByKeyCascades(db, t, id);
    forall u | true ensures !References(u, t) {
      ReferencingTables(u);
    }
  }
}
