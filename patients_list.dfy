/**
 * The patients list: the search filter over the loaded patients, deleting a patient (which
 * cascades to the patient's facts), and the form that adds a patient.
 */
module PatientsList {
  import opened Wrappers
  import opened Schema
  import opened Store
  import opened DbState
  import opened DataAccess
  import opened Writes
  import JsText
  import JS = JsValue
  import Lists
  import Cascade
  import StatementLaws
  import StoreLaws
  import PatientDetail

  // ----- The search filter -----

  /** A column value as a template literal writes it. */
  function Interpolated(v: Value): string {
    match v
    case Null => "null"
    case Int(n) => JS.IntToString(n)
    case Str(s) => s
  }

  /** The name test: the lowercased "nom prenom" contains the lowercased search text. */
  predicate NameMatches(r: Row, search: string) {
    JsText.Includes(JsText.ToLower(Interpolated(Get(r, Nom)) + " " + Interpolated(Get(r, Prenom))), JsText.ToLower(search))
  }

  /**
   * The phone test, `telephone?.includes(search)`, case-sensitive; a NULL phone gives `undefined`,
   * which fails the test.
   */
  predicate PhoneMatches(r: Row, search: string) {
    Get(r, Telephone).Str? && JsText.Includes(Get(r, Telephone).s, search)
  }

  /** The `filteredPatients` predicate. */
  predicate Matches(r: Row, search: string) {
    NameMatches(r, search) || PhoneMatches(r, search)
  }

  /** `filteredPatients`: the loaded patients the search keeps, in the order they were loaded. */
  function Filtered(patients: seq<Row>, search: string): (kept: seq<Row>)
    ensures forall r :: r in kept <==> r in patients && Matches(r, search)
    ensures Lists.IsSubsequence(kept, patients)
  {
    Lists.FilterIsSubsequence(patients, (r: Row) => Matches(r, search));
    Lists.Filter(patients, (r: Row) => Matches(r, search))
  }

  /** An empty search keeps every patient. */
  lemma EmptySearchKeepsAll(patients: seq<Row>)
    ensures Filtered(patients, []) == patients
  {
    forall r | r in patients ensures Matches(r, []) {
      assert JsText.ToLower([]) == [];
      JsText.IncludesEmpty(JsText.ToLower(Interpolated(Get(r, Nom)) + " " + Interpolated(Get(r, Prenom))));
    }
    Lists.FilterAll(patients, (r: Row) => Matches(r, []));
  }

  /** A patient without a phone is kept exactly when the name test passes. */
  lemma MissingPhoneNameOnly(r: Row, search: string)
    requires Get(r, Telephone) == Null
    ensures Matches(r, search) <==> NameMatches(r, search)
  {
  }

  /** The phone test does not fold case: a phone is found by its digits as typed. */
  lemma PhoneFound(r: Row, phone: string)
    requires Get(r, Telephone) == Str(phone)
    ensures Matches(r, phone)
  {
    assert JsText.OccursAt(phone, phone, 0);
  }

  /** A patient row whose name is `nom prenom` is found by the lowercased full name. */
  lemma NameFound(r: Row, nom: string, prenom: string)
    requires Get(r, Nom) == Str(nom) && Get(r, Prenom) == Str(prenom)
    ensures Matches(r, JsText.ToLower(nom + " " + prenom))
  {
    var full := JsText.ToLower(nom + " " + prenom);
    assert JsText.ToLower(full) == full;
    assert JsText.OccursAt(full, full, 0);
  }

  // ----- The add form -----

  /**
   * `PatientForm.handleSubmit`: nothing while a name is blank; otherwise the INSERT of the
   * trimmed names, the date, the sex or NULL when none was picked, and a blank address or phone
   * as NULL.
   */
  function PatientFormWrite(f: PatientDetail.PatientFields): (w: Option<Command>)
    ensures w.None? <==> JsText.AllSpace(f.nom) || JsText.AllSpace(f.prenom)
    ensures w.Some? ==> w.value == Insert(Patients, [PatientDetail.PatientValues(f, OrNull(f.sexe))])
  {
    FilledIffNotBlank(f.nom);
    FilledIffNotBlank(f.prenom);
    if !Filled(f.nom) || !Filled(f.prenom) then None
    else Some(Insert(Patients, [PatientDetail.PatientValues(f, OrNull(f.sexe))]))
  }

  /** The INSERT names six distinct columns... */
  lemma PatientInsertDistinct(nom: Value, prenom: Value, date: Value, sexe: Value, adresse: Value, telephone: Value)
    ensures DistinctColumns([(Nom, nom), (Prenom, prenom), (DateNaissance, date), (Sexe, sexe), (Adresse, adresse), (Telephone, telephone)])
  {
  }

  /** ... all of the patients table, and not the key. */
  lemma PatientInsertColumns(nom: Value, prenom: Value, date: Value, sexe: Value, adresse: Value, telephone: Value)
    ensures InsertError(Patients, [(Nom, nom), (Prenom, prenom), (DateNaissance, date), (Sexe, sexe), (Adresse, adresse), (Telephone, telephone)]).None?
  {
    var a := [(Nom, nom), (Prenom, prenom), (DateNaissance, date), (Sexe, sexe), (Adresse, adresse), (Telephone, telephone)];
    FormTablesColumnSets();
    assert Columns(a) == [Nom, Prenom, DateNaissance, Sexe, Adresse, Telephone];
  }

  /** It fills both NOT NULL columns when both names are given. */
  lemma PatientInsertComplete(nom: Value, prenom: Value, date: Value, sexe: Value, adresse: Value, telephone: Value)
    requires nom != Null && prenom != Null
    ensures StatementLaws.Complete(Patients, [(Nom, nom), (Prenom, prenom), (DateNaissance, date), (Sexe, sexe), (Adresse, adresse), (Telephone, telephone)])
  {
    var a := [(Nom, nom), (Prenom, prenom), (DateNaissance, date), (Sexe, sexe), (Adresse, adresse), (Telephone, telephone)];
    var cols := Def(Patients).columns;
    assert cols == PatientsColumns();
    forall k | 0 <= k < |cols| && cols[k].notNull
      ensures cols[k].name in Columns(a) && Lookup(a, cols[k].name).value != Null
    {
      assert 1 <= k <= 2;
      assert Columns(a)[k - 1] == cols[k].name == a[k - 1].0;
      LookupAt(a, k - 1);
    }
  }

  /** A row that holds what the INSERT of a patient gives each column. */
  lemma PatientInsertedRow(r: Row, a: Assignments, nom: Value, prenom: Value, date: Value, sexe: Value, adresse: Value, telephone: Value)
    requires a == [(Nom, nom), (Prenom, prenom), (DateNaissance, date), (Sexe, sexe), (Adresse, adresse), (Telephone, telephone)]
    requires DistinctColumns(a) ==> HoldsAssigned(r, a)
    ensures Get(r, Nom) == nom && Get(r, Prenom) == prenom && Get(r, DateNaissance) == date
      && Get(r, Sexe) == sexe && Get(r, Adresse) == adresse && Get(r, Telephone) == telephone
  {
    PatientInsertDistinct(nom, prenom, date, sexe, adresse, telephone);
    assert a[0] == (Nom, nom) && a[1] == (Prenom, prenom) && a[2] == (DateNaissance, date);
    assert a[3] == (Sexe, sexe) && a[4] == (Adresse, adresse) && a[5] == (Telephone, telephone);
  }

  /**
   * A saved new patient is one row added at the end of the table under the next key, holding the
   * trimmed names, the date, the sex (NULL when none was picked) and a blank address or phone as NULL.
   */
  lemma PatientAdded(db: Database, f: PatientDetail.PatientFields, clock: Clock)
    requires PatientFormWrite(f).Some? && Apply(db, PatientFormWrite(f).value, clock).Ok?
    ensures Patients in db.tables
    ensures exists r ::
      && Apply(db, PatientFormWrite(f).value, clock).value == Appended(db, Patients, r)
      && PatientDetail.HoldsPatient(r, f, OrNull(f.sexe))
      && Get(r, PatientId) == Int(db.tables[Patients].lastId + 1)
  {
    var a := PatientDetail.PatientValues(f, OrNull(f.sexe));
    InsertOne(db, Patients, a, clock);
    var r := NewRow(Patients, a, db.tables[Patients].lastId + 1, clock);
    PatientInsertedRow(r, a, Str(JsText.Trim(f.nom)), Str(JsText.Trim(f.prenom)), Str(f.dateNaissance),
      OrNull(f.sexe), TrimOrNull(f.adresse), TrimOrNull(f.telephone));
  }

  /** Once both names are filled, adding a patient is never refused on a file that has the table. */
  lemma PatientAddAccepted(db: Database, f: PatientDetail.PatientFields, clock: Clock)
    requires Patients in db.tables && PatientFormWrite(f).Some?
    ensures Apply(db, PatientFormWrite(f).value, clock).Ok?
  {
    var a := PatientDetail.PatientValues(f, OrNull(f.sexe));
    SingleInsert(db, Patients, a, clock);
    PatientInsertColumns(Str(JsText.Trim(f.nom)), Str(JsText.Trim(f.prenom)), Str(f.dateNaissance),
      OrNull(f.sexe), TrimOrNull(f.adresse), TrimOrNull(f.telephone));
    PatientInsertComplete(Str(JsText.Trim(f.nom)), Str(JsText.Trim(f.prenom)), Str(f.dateNaissance),
      OrNull(f.sexe), TrimOrNull(f.adresse), TrimOrNull(f.telephone));
    assert Def(Patients).foreignKeys == [];
    StatementLaws.InsertAccepted(db, Patients, a, clock);
  }

  // ----- Deleting a patient -----

  /** `DELETE FROM patients WHERE patient_id = ?`. */
  function DeletePatientCommand(id: int): Command {
    Delete(Patients, Cascade.ByKey(Patients, id))
  }

  /**
   * On a ready layer over a file whose references all hold, deleting a patient succeeds, removes
   * exactly the rows of that patient from the patients table and from the three fact tables, and
   * leaves the attachments as they were.
   */
  lemma DeletePatientRemoves(l: Layer, id: int, env: Env)
    requires Between(l) && l.state == Ready && l.data.foreignKeys && StoreLaws.Referential(l.data) && Patients in l.data.tables
    ensures Ran(l, DeletePatientCommand(id), env).1.Pass?
    ensures var after := Ran(l, DeletePatientCommand(id), env).0.data;
      && (forall r :: r in after.tables[Patients].rows <==> r in l.data.tables[Patients].rows && Get(r, PatientId) != Int(id))
      && (forall u, r :: u in l.data.tables && (u == DonneesSanitaires || u == Consultations || u == Examens) ==>
        (r in after.tables[u].rows <==> r in l.data.tables[u].rows && Get(r, PatientId) != Int(id)))
      && (PiecesJointes in l.data.tables ==> after.tables[PiecesJointes] == l.data.tables[PiecesJointes])
  {
    Cascade.DeletePatient(l.data, id);
    RanReady(l, DeletePatientCommand(id), env);
  }

  // ----- The screen -----

  /** `SELECT * FROM patients`. */
  const AllPatients: Query := Select(Patients, [])

  class PatientsListScreen {
    const db: DataLayer
    /** The loaded patients. */
    var patients: seq<Row>
    var searchText: string
    var showAddForm: bool

    predicate Valid()
      reads this, db
    {
      db.Valid()
    }

    constructor(layer: DataLayer)
      requires layer.Valid()
      ensures Valid() && db == layer && patients == [] && searchText == [] && !showAddForm
    {
      db := layer;
      patients := [];
      searchText := [];
      showAddForm := false;
    }

    /** What the list shows. */
    function Shown(): seq<Row>
      reads this
    {
      Filtered(patients, searchText)
    }

    /** `loadPatients`: the rows of the patients table, or, when the query throws, what was shown. */
    method LoadPatients(env: Env)
      requires Valid()
      modifies this, db
      ensures Valid()
      ensures var (l, a) := Queried(old(db.Snapshot()), AllPatients, env);
        db.Snapshot() == l && patients == (if a.Ok? && a.value.Rows? then a.value.rows else old(patients))
      ensures searchText == old(searchText) && showAddForm == old(showAddForm)
    {
      var a := db.Query(AllPatients, env);
      if a.Ok? && a.value.Rows? {
        patients := a.value.rows;
      }
    }

    method SetSearchText(text: string)
      modifies this
      ensures searchText == text && patients == old(patients) && showAddForm == old(showAddForm)
    {
      searchText := text;
    }

    /** `deletePatient`: once confirmed, the DELETE by key, then a reload; a failure shows an alert. */
    method DeletePatient(id: int, confirmed: bool, env: Env)
      requires Valid()
      modifies this, db
      ensures Valid()
      ensures !confirmed ==> db.Snapshot() == old(db.Snapshot()) && patients == old(patients)
      ensures confirmed ==>
        var (l1, r) := Ran(old(db.Snapshot()), DeletePatientCommand(id), env);
        if r.Fail? then db.Snapshot() == l1 && patients == old(patients)
        else
          var (l2, a) := Queried(l1, AllPatients, env);
          db.Snapshot() == l2 && patients == (if a.Ok? && a.value.Rows? then a.value.rows else old(patients))
      ensures searchText == old(searchText) && showAddForm == old(showAddForm)
    {
      if confirmed {
        var r := db.Run(DeletePatientCommand(id), env);
        if r.Pass? {
          LoadPatients(env);
        }
      }
    }

    /** `PatientForm` submitted: on success the form closes and the list reloads. */
    method SubmitPatient(f: PatientDetail.PatientFields, env: Env)
      requires Valid()
      modifies this, db
      ensures Valid()
      ensures PatientFormWrite(f).None? ==> db.Snapshot() == old(db.Snapshot()) && showAddForm == old(showAddForm)
      ensures PatientFormWrite(f).Some? ==>
        var (l1, r) := Ran(old(db.Snapshot()), PatientFormWrite(f).value, env);
        if r.Fail? then db.Snapshot() == l1 && showAddForm == old(showAddForm) && patients == old(patients)
        else
          var (l2, a) := Queried(l1, AllPatients, env);
          db.Snapshot() == l2 && !showAddForm && patients == (if a.Ok? && a.value.Rows? then a.value.rows else old(patients))
      ensures searchText == old(searchText)
    {
      Save(PatientFormWrite(f), env);
    }

    /** The form's statement, if any, then on success closing the form and reloading. */
    method Save(w: Option<Command>, env: Env)
      requires Valid()
      modifies this, db
      ensures Valid()
      ensures w.None? ==> db.Snapshot() == old(db.Snapshot()) && showAddForm == old(showAddForm)
      ensures w.Some? ==>
        var (l1, r) := Ran(old(db.Snapshot()), w.value, env);
        if r.Fail? then db.Snapshot() == l1 && showAddForm == old(showAddForm) && patients == old(patients)
        else
          var (l2, a) := Queried(l1, AllPatients, env);
          db.Snapshot() == l2 && !showAddForm && patients == (if a.Ok? && a.value.Rows? then a.value.rows else old(patients))
      ensures searchText == old(searchText)
    {
      if w.Some? {
        ghost var l0 := db.Snapshot();
        var r := db.Run(w.value, env);
        assert (db.Snapshot(), r) == Ran(l0, w.value, env);
        if r.Pass? {
          showAddForm := false;
          LoadPatients(env);
        }
      }
    }
  }
}
