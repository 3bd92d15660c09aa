/**
 * The settings screen: its four sections, the three lists of types it edits, the type form, and
 * deleting a type (which, under ON DELETE CASCADE, takes the entries of that type with it).
 */
module Parametres {
  import opened Wrappers
  import opened Schema
  import opened Store
  import opened DbState
  import opened DataAccess
  import opened Writes
  import JsText
  import Cascade
  import StatementLaws
  import StoreLaws

  // ----- Sections -----

  /** `SettingsSection`. */
  datatype Section = ThemeSection | DataTypes | ConsultationTypes | ExamTypes

  /** An entry of the `tables` object: the table to write and its id column, by their SQL names. */
  datatype Target = Target(table: string, idField: string)

  /** The `tables` object of `deleteType`, looked up by section; `theme` is not one of its keys. */
  function DeleteTargets(s: Section): Option<Target> {
    match s
    case DataTypes => Some(Target("types_donnees", "type_donnee_id"))
    case ConsultationTypes => Some(Target("types_consultations", "type_consultation_id"))
    case ExamTypes => Some(Target("types_examens", "type_examen_id"))
    case ThemeSection => None
  }

  /** The `tables` object of `TypeForm.handleSubmit`, written out a second time. */
  function FormTargets(s: Section): Option<Target> {
    match s
    case DataTypes => Some(Target("types_donnees", "type_donnee_id"))
    case ConsultationTypes => Some(Target("types_consultations", "type_consultation_id"))
    case ExamTypes => Some(Target("types_examens", "type_examen_id"))
    case ThemeSection => None
  }

  /** `getIdField`. */
  function IdField(s: Section): string {
    match s
    case DataTypes => "type_donnee_id"
    case ConsultationTypes => "type_consultation_id"
    case ExamTypes => "type_examen_id"
    case ThemeSection => "id"
  }

  /** The two copies of the map agree on every section. */
  lemma TargetMapsAgree(s: Section)
    ensures DeleteTargets(s) == FormTargets(s)
    ensures DeleteTargets(s).None? <==> s == ThemeSection
  {
  }

  /** `getIdField` names, for every type section, the id column of the map; only the theme section has none. */
  lemma IdFieldAgrees(s: Section)
    ensures s != ThemeSection ==> IdField(s) == FormTargets(s).value.idField == DeleteTargets(s).value.idField
    ensures s == ThemeSection ==> IdField(s) == "id" && FormTargets(s).None?
  {
  }

  /** The type table a section edits. */
  function TypeTable(s: Section): (t: Option<TableName>)
    ensures t.None? <==> s == ThemeSection
    ensures t.Some? ==> t.value == TypesDonnees || t.value == TypesConsultations || t.value == TypesExamens
  {
    match s
    case DataTypes => Some(TypesDonnees)
    case ConsultationTypes => Some(TypesConsultations)
    case ExamTypes => Some(TypesExamens)
    case ThemeSection => None
  }

  /** The map's names are those of the schema: each section's table, and that table's key as its id column. */
  lemma TargetsAreSchemaNames(s: Section)
    requires s != ThemeSection
    ensures SqlName(TypeTable(s).value) == FormTargets(s).value.table
    ensures ColumnSqlName(KeyOf(TypeTable(s).value)) == FormTargets(s).value.idField
  {
  }

  predicate IsTypeTable(t: TableName) {
    t == TypesDonnees || t == TypesConsultations || t == TypesExamens
  }

  /** The three type tables share one shape: key, required name, optional description, no reference. */
  lemma TypeTableShape(t: TableName)
    requires IsTypeTable(t)
    ensures Def(t).columns == TypeColumns(KeyOf(t)) && Def(t).foreignKeys == []
    ensures ColumnNames(t) == [KeyOf(t), NomType, Description]
    ensures KeyOf(t) != NomType && KeyOf(t) != Description
  {
  }

  /** The lists the screen holds, one per type table. */
  datatype TypeLists = TypeLists(donnees: seq<Row>, consultations: seq<Row>, examens: seq<Row>)

  /** `getCurrentTypes`: the list of the active section, none for the theme section. */
  function CurrentTypes(s: Section, lists: TypeLists): (types: seq<Row>)
    ensures s == DataTypes ==> types == lists.donnees
    ensures s == ConsultationTypes ==> types == lists.consultations
    ensures s == ExamTypes ==> types == lists.examens
    ensures s == ThemeSection ==> types == []
  {
    match s
    case DataTypes => lists.donnees
    case ConsultationTypes => lists.consultations
    case ExamTypes => lists.examens
    case ThemeSection => []
  }

  // ----- The type form -----

  /** The fields of `TypeForm`. */
  datatype TypeFields = TypeFields(nomType: string, description: string)

  /** The two columns the form writes: the trimmed name, and the trimmed description or NULL. */
  function TypeValues(f: TypeFields): Assignments {
    [(NomType, Str(JsText.Trim(f.nomType))), (Description, TrimOrNull(f.description))]
  }

  /**
   * `TypeForm.handleSubmit`: nothing while the name is blank, nor outside the three type sections
   * (the lookup in the map finds nothing and the destructuring throws); otherwise the UPDATE of the
   * type being edited, selected by its id column, or the INSERT of a new type.
   */
  function TypeWrite(s: Section, editing: Option<Row>, f: TypeFields): (w: Option<Command>)
    ensures w.None? <==> JsText.AllSpace(f.nomType) || s == ThemeSection
    ensures w.Some? && editing.Some? ==> var t := TypeTable(s).value;
      w.value == Update(t, TypeValues(f), KeyIs(t, Get(editing.value, KeyOf(t))))
    ensures w.Some? && editing.None? ==> w.value == Insert(TypeTable(s).value, [TypeValues(f)])
  {
    FilledIffNotBlank(f.nomType);
    if !Filled(f.nomType) || TypeTable(s).None? then None
    else
      var t := TypeTable(s).value;
      if editing.Some? then Some(Update(t, TypeValues(f), KeyIs(t, Get(editing.value, KeyOf(t)))))
      else Some(Insert(t, [TypeValues(f)]))
  }

  /** Row `r` with a new name and description. */
  function TypeEdited(r: Row, nom: Value, description: Value): Row {
    r[Description := description][NomType := nom]
  }

  /** The SET clause of the form changes the name and the description of a row and nothing else. */
  lemma TypeSetClause(r: Row, nom: Value, description: Value)
    ensures Overwrite(r, [(NomType, nom), (Description, description)]) == TypeEdited(r, nom, description)
  {
    var a2: Assignments := [(Description, description)];
    var a1 := [(NomType, nom)] + a2;
    OverwriteCons(r, a2, Description, description, []);
    OverwriteCons(r, a1, NomType, nom, a2);
  }

  lemma TypeEditedCells(t: TableName, r: Row, nom: Value, description: Value)
    requires IsTypeTable(t)
    ensures var o := TypeEdited(r, nom, description);
      Get(o, NomType) == nom && Get(o, Description) == description && Get(o, KeyOf(t)) == Get(r, KeyOf(t))
  {
  }

  /**
   * A saved edit rewrites only the type holding the edited id, in place, with the trimmed name and
   * the description or NULL, and keeps its id; every other type and every other table stays as it was.
   */
  lemma TypeEditSaved(db: Database, s: Section, editing: Row, f: TypeFields, clock: Clock)
    requires TypeWrite(s, Some(editing), f).Some? && Apply(db, TypeWrite(s, Some(editing), f).value, clock).Ok?
    ensures TypeTable(s).value in db.tables
    ensures var t := TypeTable(s).value;
      var v := Get(editing, KeyOf(t));
      var before := db.tables[t].rows;
      var after := Apply(db, TypeWrite(s, Some(editing), f).value, clock).value;
      && (forall u :: u in db.tables && u != t ==> u in after.tables && after.tables[u] == db.tables[u])
      && t in after.tables && |after.tables[t].rows| == |before|
      && forall i :: 0 <= i < |before| ==>
        if HoldsKey(t, before[i], v) then
          && Get(after.tables[t].rows[i], NomType) == Str(JsText.Trim(f.nomType))
          && Get(after.tables[t].rows[i], Description) == TrimOrNull(f.description)
          && Get(after.tables[t].rows[i], KeyOf(t)) == v
        else after.tables[t].rows[i] == before[i]
  {
    var t := TypeTable(s).value;
    var v := Get(editing, KeyOf(t));
    UpdateByKey(db, t, TypeValues(f), v);
    var before := db.tables[t].rows;
    forall i | 0 <= i < |before| && HoldsKey(t, before[i], v)
      ensures var o := Overwrite(before[i], TypeValues(f));
        Get(o, NomType) == Str(JsText.Trim(f.nomType)) && Get(o, Description) == TrimOrNull(f.description)
        && Get(o, KeyOf(t)) == v
    {
      TypeSetClause(before[i], Str(JsText.Trim(f.nomType)), TrimOrNull(f.description));
      TypeEditedCells(t, before[i], Str(JsText.Trim(f.nomType)), TrimOrNull(f.description));
    }
  }

  /** A type row with a name meets every constraint of its table. */
  lemma TypeRowAccepted(db: Database, t: TableName, r: Row)
    requires IsTypeTable(t) && Get(r, NomType) != Null
    ensures Violation(db, t, r).None?
  {
    TypeRowNotNull(t, r);
    StatementLaws.UncheckedRow(t, r);
  }

  /** Of a type table's columns only the name is NOT NULL. */
  lemma TypeRowNotNull(t: TableName, r: Row)
    requires IsTypeTable(t) && Get(r, NomType) != Null
    ensures NotNullHolds(t, r)
  {
    TypeTableShape(t);
    var cols := Def(t).columns;
    forall k | 0 <= k < |cols| && cols[k].notNull ensures Get(r, cols[k].name) != Null {
      assert k == 1;
    }
  }

  /** The INSERT and the SET clause name the name and description columns, never the key. */
  lemma TypeColumnsKnown(t: TableName, nom: Value, description: Value, v: Value)
    requires IsTypeTable(t)
    ensures var a := [(NomType, nom), (Description, description)];
      && Unknown(t, Columns(a) + CondColumns(KeyIs(t, v))).None? && KeyOf(t) !in Columns(a)
      && InsertError(t, a).None? && DistinctColumns(a)
  {
    var a := [(NomType, nom), (Description, description)];
    TypeTableShape(t);
    assert Columns(a) == [NomType, Description];
    assert Columns(a) + CondColumns(KeyIs(t, v)) == [NomType, Description, KeyOf(t)];
  }

  /** It fills the one NOT NULL column of a type table. */
  lemma TypeInsertComplete(t: TableName, nom: Value, description: Value)
    requires IsTypeTable(t) && nom != Null
    ensures StatementLaws.Complete(t, [(NomType, nom), (Description, description)])
  {
    var a := [(NomType, nom), (Description, description)];
    TypeTableShape(t);
    var cols := Def(t).columns;
    forall k | 0 <= k < |cols| && cols[k].notNull
      ensures cols[k].name in Columns(a) && Lookup(a, cols[k].name).value != Null
    {
      assert k == 1;
      assert Columns(a)[0] == cols[k].name == a[0].0;
      LookupAt(a, 0);
    }
  }

  /** The row a type INSERT builds holds the name and the description it gives. */
  lemma TypeInsertedRow(t: TableName, r: Row, a: Assignments, nom: Value, description: Value)
    requires IsTypeTable(t) && a == [(NomType, nom), (Description, description)]
    requires DistinctColumns(a) ==> HoldsAssigned(r, a)
    ensures Get(r, NomType) == nom && Get(r, Description) == description
  {
    TypeColumnsKnown(t, nom, description, Null);
    assert a[0] == (NomType, nom) && a[1] == (Description, description);
  }

  /** A type INSERT that succeeds appends the row it describes under the next id. */
  lemma TypeInserted(db: Database, t: TableName, a: Assignments, nom: Value, description: Value, clock: Clock)
    requires IsTypeTable(t) && a == [(NomType, nom), (Description, description)]
    requires Apply(db, Insert(t, [a]), clock).Ok?
    ensures t in db.tables
    ensures exists r ::
      && Apply(db, Insert(t, [a]), clock).value == Appended(db, t, r)
      && Get(r, NomType) == nom && Get(r, Description) == description
      && Get(r, KeyOf(t)) == Int(db.tables[t].lastId + 1)
  {
    InsertOne(db, t, a, clock);
    var r := NewRow(t, a, db.tables[t].lastId + 1, clock);
    TypeInsertedRow(t, r, a, nom, description);
  }

  /**
   * A saved new type is one row added at the end of table `t`, the section's, under the next id,
   * with the trimmed name and the description or NULL.
   */
  lemma TypeCreated(db: Database, s: Section, t: TableName, f: TypeFields, clock: Clock)
    requires TypeTable(s) == Some(t)
    requires TypeWrite(s, None, f).Some? && Apply(db, TypeWrite(s, None, f).value, clock).Ok?
    ensures t in db.tables
    ensures exists r ::
      && Apply(db, TypeWrite(s, None, f).value, clock).value == Appended(db, t, r)
      && Get(r, NomType) == Str(JsText.Trim(f.nomType)) && Get(r, Description) == TrimOrNull(f.description)
      && Get(r, KeyOf(t)) == Int(db.tables[t].lastId + 1)
  {
    assert TypeWrite(s, None, f).value == Insert(t, [TypeValues(f)]);
    TypeInserted(db, t, TypeValues(f), Str(JsText.Trim(f.nomType)), TrimOrNull(f.description), clock);
  }

  /** An UPDATE of a type table by id with a name given is never refused on a file that has the table. */
  lemma TypeUpdateAccepted(db: Database, t: TableName, a: Assignments, nom: Value, description: Value, v: Value)
    requires IsTypeTable(t) && t in db.tables && nom != Null && a == [(NomType, nom), (Description, description)]
    ensures UpdateRows(db, t, a, KeyIs(t, v)).Ok?
  {
    var rows := db.tables[t].rows;
    TypeColumnsKnown(t, nom, description, v);
    forall i | 0 <= i < |rows| && Satisfies(rows[i], KeyIs(t, v))
      ensures Violation(db, t, Overwrite(rows[i], a)).None?
    {
      TypeSetClause(rows[i], nom, description);
      TypeEditedCells(t, rows[i], nom, description);
      TypeRowAccepted(db, t, TypeEdited(rows[i], nom, description));
    }
  }

  /** An INSERT into a type table with a name given is never refused on a file that has the table. */
  lemma TypeInsertAccepted(db: Database, t: TableName, a: Assignments, nom: Value, description: Value, clock: Clock)
    requires IsTypeTable(t) && t in db.tables && nom != Null && a == [(NomType, nom), (Description, description)]
    ensures Apply(db, Insert(t, [a]), clock).Ok?
  {
    SingleInsert(db, t, a, clock);
    TypeColumnsKnown(t, nom, description, Null);
    TypeInsertComplete(t, nom, description);
    TypeTableShape(t);
    StatementLaws.InsertAccepted(db, t, a, clock);
  }

  /** With a name given, saving a type, new or edited, is never refused on a file that has its table. */
  lemma TypeSaveAccepted(db: Database, s: Section, editing: Option<Row>, f: TypeFields, clock: Clock)
    requires TypeWrite(s, editing, f).Some? && TypeTable(s).value in db.tables
    ensures Apply(db, TypeWrite(s, editing, f).value, clock).Ok?
  {
    var t := TypeTable(s).value;
    var w := TypeWrite(s, editing, f).value;
    if editing.Some? {
      var v := Get(editing.value, KeyOf(t));
      assert w == Update(t, TypeValues(f), KeyIs(t, v));
      TypeUpdateAccepted(db, t, TypeValues(f), Str(JsText.Trim(f.nomType)), TrimOrNull(f.description), v);
    } else {
      assert w == Insert(t, [TypeValues(f)]);
      TypeInsertAccepted(db, t, TypeValues(f), Str(JsText.Trim(f.nomType)), TrimOrNull(f.description), clock);
    }
  }

  // ----- Deleting a type -----

  /** `DELETE FROM <table> WHERE <idField> = ?` for the section; nothing for the theme section. */
  function DeleteTypeCommand(s: Section, id: int): (cmd: Option<Command>)
    ensures cmd.None? <==> s == ThemeSection
    ensures cmd.Some? ==> cmd.value == Delete(TypeTable(s).value, Cascade.ByKey(TypeTable(s).value, id))
  {
    match TypeTable(s)
    case None => None
    case Some(t) => Some(Delete(t, Cascade.ByKey(t, id)))
  }

  /** The entry table whose rows reference the types of table `t`. */
  function FactTableOf(t: TableName): TableName
    requires IsTypeTable(t)
  {
    if t == TypesDonnees then DonneesSanitaires else if t == TypesConsultations then Consultations else Examens
  }

  /**
   * With enforcement on, in a file whose references hold, deleting a type removes it and exactly
   * the entries of that type from the table that references it; every other table stays as it was.
   */
  lemma TypeRowsDeleted(db: Database, t: TableName, id: int)
    requires IsTypeTable(t) && db.foreignKeys && StoreLaws.Referential(db) && t in db.tables
    ensures DeleteRows(db, t, Cascade.ByKey(t, id)).Ok?
    ensures var f := FactTableOf(t);
      var after := DeleteRows(db, t, Cascade.ByKey(t, id)).value;
      && after.tables.Keys == db.tables.Keys
      && (forall r :: r in after.tables[t].rows <==> r in db.tables[t].rows && Get(r, KeyOf(t)) != Int(id))
      && (f in db.tables ==>
        forall r :: r in after.tables[f].rows <==> r in db.tables[f].rows && Get(r, KeyOf(t)) != Int(id))
      && forall u :: u in db.tables && u != t && u != f ==> after.tables[u] == db.tables[u]
  {
    Cascade.DeleteByKeyCascades(db, t, id);
    forall u | true ensures Cascade.References(u, t) <==> u == FactTableOf(t) {
      Cascade.ReferencingTables(u);
    }
  }

  /**
   * On a ready layer over a file whose references hold, deleting a type succeeds: the foreign keys
   * cascade, so it is never refused as "in use". It removes the type, and exactly the entries of
   * that type from the table of its section; every other table stays as it was.
   */
  lemma TypeDeleted(l: Layer, s: Section, id: int, env: Env)
    requires s != ThemeSection
    requires Between(l) && l.state == Ready && l.data.foreignKeys && StoreLaws.Referential(l.data)
    requires TypeTable(s).value in l.data.tables
    ensures Ran(l, DeleteTypeCommand(s, id).value, env).1.Pass?
    ensures var t := TypeTable(s).value;
      var f := FactTableOf(t);
      var after := Ran(l, DeleteTypeCommand(s, id).value, env).0.data;
      && after.tables.Keys == l.data.tables.Keys
      && (forall r :: r in after.tables[t].rows <==> r in l.data.tables[t].rows && Get(r, KeyOf(t)) != Int(id))
      && (f in l.data.tables ==>
        forall r :: r in after.tables[f].rows <==> r in l.data.tables[f].rows && Get(r, KeyOf(t)) != Int(id))
      && forall u :: u in l.data.tables && u != t && u != f ==> after.tables[u] == l.data.tables[u]
  {
    var t := TypeTable(s).value;
    assert DeleteTypeCommand(s, id).value == Delete(t, Cascade.ByKey(t, id));
    TypeRowsDeleted(l.data, t, id);
    DeleteRan(l, t, Cascade.ByKey(t, id), env);
  }

  // ----- Loading -----

  /** `SELECT * FROM <table>`. */
  function AllOf(t: TableName): Query {
    Select(t, [])
  }

  /**
   * `loadTypes`, with the three queries of its `Promise.all` run one after the other: the layer
   * after them, and the three lists when every query answered.
   */
  function TypesLoaded(l: Layer, env: Env): (p: (Layer, Option<TypeLists>))
    requires Between(l)
    ensures Between(p.0)
  {
    var (l1, d) := Queried(l, AllOf(TypesDonnees), env);
    var (l2, c) := Queried(l1, AllOf(TypesConsultations), env);
    var (l3, e) := Queried(l2, AllOf(TypesExamens), env);
    if RowsOf(d).Some? && RowsOf(c).Some? && RowsOf(e).Some? then
      (l3, Some(TypeLists(RowsOf(d).value, RowsOf(c).value, RowsOf(e).value)))
    else (l3, None)
  }

  lemma QueriedAll(l: Layer, t: TableName, env: Env)
    requires Between(l) && IsTypeTable(t) && RowsOf(Queried(l, AllOf(t), env).1).Some?
    ensures var (l1, a) := Queried(l, AllOf(t), env);
      && l1 == Ensured(l, env).0 && l1.state == Ready && t in l1.data.tables
      && forall r :: r in RowsOf(a).value <==> r in l1.data.tables[t].rows
  {
    var (l1, a) := Queried(l, AllOf(t), env);
    QueriedAfterInit(l, AllOf(t), env);
    EnsuredPasses(l, env);
    AllRowsAnswered(l1.data, t, a);
  }

  /** Once `ensureInitialized` settles ready, a query is answered on the layer's database. */
  lemma EnsuredPasses(l: Layer, env: Env)
    requires Between(l)
    ensures forall q :: Ensured(l, env).0.state == Ready ==> Queried(l, q, env).1 == Answered(Ensured(l, env).0.data, q)
  {
  }

  /** The answer to `SELECT *` without WHERE, when it holds rows, holds those of the table. */
  lemma AllRowsAnswered(db: Database, t: TableName, a: Result<Answer, DbError>)
    requires a == Answered(db, AllOf(t)) && RowsOf(a).Some?
    ensures t in db.tables && forall r :: r in RowsOf(a).value <==> r in db.tables[t].rows
  {
    StatementLaws.SelectRows(db, t, []);
  }

  /** When the three queries answer, the lists hold exactly the rows of the three type tables. */
  lemma LoadedTypes(l: Layer, env: Env)
    requires Between(l) && TypesLoaded(l, env).1.Some?
    ensures var (l3, lists) := TypesLoaded(l, env);
      && l3 == Ensured(l, env).0 && l3.state == Ready
      && TypesDonnees in l3.data.tables && TypesConsultations in l3.data.tables && TypesExamens in l3.data.tables
      && (forall r :: r in lists.value.donnees <==> r in l3.data.tables[TypesDonnees].rows)
      && (forall r :: r in lists.value.consultations <==> r in l3.data.tables[TypesConsultations].rows)
      && (forall r :: r in lists.value.examens <==> r in l3.data.tables[TypesExamens].rows)
  {
    var l1 := Queried(l, AllOf(TypesDonnees), env).0;
    var l2 := Queried(l1, AllOf(TypesConsultations), env).0;
    QueriedAll(l, TypesDonnees, env);
    QueriedAll(l1, TypesConsultations, env);
    QueriedAll(l2, TypesExamens, env);
    EnsuredCases(l1, env);
    EnsuredCases(l2, env);
  }

  // ----- The screen -----

  class ParametresScreen {
    const db: DataLayer
    var activeSection: Section
    var lists: TypeLists
    var showForm: bool
    /** `editingType`: the type being edited, if any. */
    var editingType: Option<Row>

    predicate Valid()
      reads this, db
    {
      db.Valid()
    }

    constructor(layer: DataLayer)
      requires layer.Valid()
      ensures Valid() && db == layer && activeSection == ThemeSection && lists == TypeLists([], [], [])
      ensures !showForm && editingType.None?
    {
      db := layer;
      activeSection := ThemeSection;
      lists := TypeLists([], [], []);
      showForm := false;
      editingType := None;
    }

    /** `loadTypes`: the three lists, or, when a query throws, the lists as they were. */
    method LoadTypes(env: Env)
      requires Valid()
      modifies this, db
      ensures Valid()
      ensures var (l, loaded) := TypesLoaded(old(db.Snapshot()), env);
        db.Snapshot() == l && lists == (if loaded.Some? then loaded.value else old(lists))
      ensures activeSection == old(activeSection) && showForm == old(showForm) && editingType == old(editingType)
    {
      var d := db.Query(AllOf(TypesDonnees), env);
      var c := db.Query(AllOf(TypesConsultations), env);
      var e := db.Query(AllOf(TypesExamens), env);
      if RowsOf(d).Some? && RowsOf(c).Some? && RowsOf(e).Some? {
        lists := TypeLists(RowsOf(d).value, RowsOf(c).value, RowsOf(e).value);
      }
    }

    /** A menu entry: the section changes, and the form closes and forgets the type it edited. */
    method SelectSection(s: Section)
      modifies this
      ensures activeSection == s && !showForm && editingType.None? && lists == old(lists)
    {
      activeSection := s;
      showForm := false;
      editingType := None;
    }

    /** The add button. */
    method OpenForm()
      modifies this
      ensures showForm && editingType == old(editingType) && activeSection == old(activeSection) && lists == old(lists)
    {
      showForm := true;
    }

    /** The edit button of a type card. */
    method StartEdit(item: Row)
      modifies this
      ensures showForm && editingType == Some(item) && activeSection == old(activeSection) && lists == old(lists)
    {
      editingType := Some(item);
      showForm := true;
    }

    method CancelForm()
      modifies this
      ensures !showForm && editingType.None? && activeSection == old(activeSection) && lists == old(lists)
    {
      showForm := false;
      editingType := None;
    }

    /** `deleteType`: once confirmed, the DELETE of the section's table by id, then a reload. */
    method DeleteType(s: Section, id: int, confirmed: bool, env: Env)
      requires Valid()
      modifies this, db
      ensures Valid()
      ensures !confirmed || s == ThemeSection ==> db.Snapshot() == old(db.Snapshot()) && lists == old(lists)
      ensures confirmed && s != ThemeSection ==>
        var (l1, r) := Ran(old(db.Snapshot()), DeleteTypeCommand(s, id).value, env);
        if r.Fail? then db.Snapshot() == l1 && lists == old(lists)
        else
          var (l2, loaded) := TypesLoaded(l1, env);
          db.Snapshot() == l2 && lists == (if loaded.Some? then loaded.value else old(lists))
      ensures activeSection == old(activeSection) && showForm == old(showForm) && editingType == old(editingType)
    {
      var cmd := DeleteTypeCommand(s, id);
      if confirmed && cmd.Some? {
        var r := db.Run(cmd.value, env);
        if r.Pass? {
          LoadTypes(env);
        }
      }
    }

    /** The type form submitted in the active section: on success it closes and the lists reload. */
    method SubmitType(f: TypeFields, env: Env)
      requires Valid()
      modifies this, db
      ensures Valid()
      ensures var w := TypeWrite(old(activeSection), old(editingType), f);
        && (w.None? ==> db.Snapshot() == old(db.Snapshot()) && showForm == old(showForm) && editingType == old(editingType))
        && (w.Some? ==>
          var (l1, r) := Ran(old(db.Snapshot()), w.value, env);
          if r.Fail? then db.Snapshot() == l1 && showForm == old(showForm) && editingType == old(editingType) && lists == old(lists)
          else
            var (l2, loaded) := TypesLoaded(l1, env);
            && db.Snapshot() == l2 && !showForm && editingType.None?
            && lists == (if loaded.Some? then loaded.value else old(lists)))
      ensures activeSection == old(activeSection)
    {
      Save(TypeWrite(activeSection, editingType, f), env);
    }

    /** A form's statement, if any, then on success closing the form and reloading. */
    method Save(w: Option<Command>, env: Env)
      requires Valid()
      modifies this, db
      ensures Valid()
      ensures w.None? ==> db.Snapshot() == old(db.Snapshot()) && showForm == old(showForm) && editingType == old(editingType)
      ensures w.Some? ==>
        var (l1, r) := Ran(old(db.Snapshot()), w.value, env);
        if r.Fail? then db.Snapshot() == l1 && showForm == old(showForm) && editingType == old(editingType) && lists == old(lists)
        else
          var (l2, loaded) := TypesLoaded(l1, env);
          && db.Snapshot() == l2 && !showForm && editingType.None?
          && lists == (if loaded.Some? then loaded.value else old(lists))
      ensures activeSection == old(activeSection)
    {
      if w.Some? {
        var r := db.Run(w.value, env);
        if r.Pass? {
          showForm := false;
          editingType := None;
          LoadTypes(env);
        }
      }
    }
  }
}
