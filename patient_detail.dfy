/**
 * The patient screen: the age shown in its header, its three lists of facts and their counters,
 * deleting one fact, and the four forms it opens (the patient's identity, a health datum, a
 * consultation, an examination), each of which writes one row and then reloads the lists.
 */
module PatientDetail {
  import opened Wrappers
  import opened Schema
  import opened Store
  import opened DbState
  import opened DataAccess
  import opened Writes
  import JsText
  import Cascade
  import StatementLaws
  import StoreLaws

  // ----- calculateAge -----

  /** A calendar date, as `getFullYear`, `getMonth` (shifted to 1-12) and `getDate` read it. */
  datatype Day = Day(year: int, month: int, day: int)

  /** `a` falls earlier in its year than `b` in its: an earlier month, or the same month and an earlier day. */
  predicate EarlierInYear(a: Day, b: Day) {
    a.month < b.month || (a.month == b.month && a.day < b.day)
  }

  /** `a` is on or before `b`, comparing years, then months, then days. */
  predicate NotAfter(a: Day, b: Day) {
    a.year < b.year || (a.year == b.year && (a.month < b.month || (a.month == b.month && a.day <= b.day)))
  }

  /** The `n`-th anniversary of `birth`. */
  function Anniversary(birth: Day, n: int): Day {
    Day(birth.year + n, birth.month, birth.day)
  }

  /**
   * `calculateAge(birthDate)` on the day `today`: 0 when no birth date is recorded; otherwise the
   * difference of the years, less one while this year's birthday is still to come. `birth` is the
   * date the recorded text denotes.
   */
  function CalculateAge(birthDate: string, birth: Day, today: Day): (age: int)
    ensures birthDate == [] ==> age == 0
    ensures birthDate != [] ==> today.year - birth.year - 1 <= age <= today.year - birth.year
  {
    if birthDate == [] then 0
    else
      var age := today.year - birth.year;
      var monthDiff := today.month - birth.month;
      if monthDiff < 0 || (monthDiff == 0 && today.day < birth.day) then age - 1 else age
  }

  /** On the birthday itself the age is exactly the difference of the years. */
  lemma AgeOnBirthday(birthDate: string, birth: Day, today: Day)
    requires birthDate != [] && today.month == birth.month && today.day == birth.day
    ensures CalculateAge(birthDate, birth, today) == today.year - birth.year
  {
  }

  /** The age is the number of whole years lived: the last anniversary is not after today, the next one is. */
  lemma AgeIsCompletedYears(birthDate: string, birth: Day, today: Day)
    requires birthDate != []
    ensures var age := CalculateAge(birthDate, birth, today);
      NotAfter(Anniversary(birth, age), today) && !NotAfter(Anniversary(birth, age + 1), today)
  {
  }

  /** Whole years lived is well defined: only one count has its anniversary behind and the next ahead. */
  lemma CompletedYearsUnique(birth: Day, today: Day, n: int, m: int)
    requires NotAfter(Anniversary(birth, n), today) && !NotAfter(Anniversary(birth, n + 1), today)
    requires NotAfter(Anniversary(birth, m), today) && !NotAfter(Anniversary(birth, m + 1), today)
    ensures n == m
  {
  }

  /** So the age is the one count of whole years lived. */
  lemma AgeIsTheCompletedYears(birthDate: string, birth: Day, today: Day, n: int)
    requires birthDate != []
    requires NotAfter(Anniversary(birth, n), today) && !NotAfter(Anniversary(birth, n + 1), today)
    ensures CalculateAge(birthDate, birth, today) == n
  {
    AgeIsCompletedYears(birthDate, birth, today);
    CompletedYearsUnique(birth, today, n, CalculateAge(birthDate, birth, today));
  }

  // ----- The patient's identity -----

  /** The fields of the patient forms: the typed texts and the picked birth date, formatted. */
  datatype PatientFields = PatientFields(
    nom: string, prenom: string, dateNaissance: string, sexe: string, adresse: string, telephone: string)

  /** What a saved patients row holds: trimmed names, the date, `sexe`, a blank address or phone as NULL. */
  predicate HoldsPatient(r: Row, f: PatientFields, sexe: Value) {
    && Get(r, Nom) == Str(JsText.Trim(f.nom)) && Get(r, Prenom) == Str(JsText.Trim(f.prenom))
    && Get(r, DateNaissance) == Str(f.dateNaissance) && Get(r, Sexe) == sexe
    && Get(r, Adresse) == TrimOrNull(f.adresse) && Get(r, Telephone) == TrimOrNull(f.telephone)
  }

  /** The columns the patient forms write, with `sexe` bound as the form binds it. */
  function PatientValues(f: PatientFields, sexe: Value): Assignments {
    [(Nom, Str(JsText.Trim(f.nom))), (Prenom, Str(JsText.Trim(f.prenom))), (DateNaissance, Str(f.dateNaissance)),
     (Sexe, sexe), (Adresse, TrimOrNull(f.adresse)), (Telephone, TrimOrNull(f.telephone))]
  }

  /** `EditPatientForm.handleSubmit`: nothing while a name is blank, else the UPDATE of this patient. */
  function EditPatientWrite(patient: Row, f: PatientFields): (w: Option<Command>)
    ensures w.None? <==> JsText.AllSpace(f.nom) || JsText.AllSpace(f.prenom)
    ensures w.Some? ==> w.value.Update? && w.value.table == Patients && w.value.where == KeyIs(Patients, Get(patient, PatientId))
  {
    FilledIffNotBlank(f.nom);
    FilledIffNotBlank(f.prenom);
    if !Filled(f.nom) || !Filled(f.prenom) then None
    else Some(Update(Patients, PatientValues(f, Str(f.sexe)), KeyIs(Patients, Get(patient, PatientId))))
  }

  /** Row `r` with the six columns of the patient forms set to the given values. */
  function PatientEdited(r: Row, nom: Value, prenom: Value, date: Value, sexe: Value, adresse: Value, telephone: Value): Row {
    r[Telephone := telephone][Adresse := adresse][Sexe := sexe][DateNaissance := date][Prenom := prenom][Nom := nom]
  }

  /** The SET clause of the edit form changes its six columns of a row and no other. */
  lemma PatientSetClause(r: Row, nom: Value, prenom: Value, date: Value, sexe: Value, adresse: Value, telephone: Value)
    ensures Overwrite(r, [(Nom, nom), (Prenom, prenom), (DateNaissance, date), (Sexe, sexe), (Adresse, adresse), (Telephone, telephone)])
      == PatientEdited(r, nom, prenom, date, sexe, adresse, telephone)
  {
    var a6: Assignments := [(Telephone, telephone)];
    var a5 := [(Adresse, adresse)] + a6;
    var a4 := [(Sexe, sexe)] + a5;
    var a3 := [(DateNaissance, date)] + a4;
    var a2 := [(Prenom, prenom)] + a3;
    var a1 := [(Nom, nom)] + a2;
    OverwriteCons(r, a6, Telephone, telephone, []);
    OverwriteCons(r, a5, Adresse, adresse, a6);
    OverwriteCons(r, a4, Sexe, sexe, a5);
    OverwriteCons(r, a3, DateNaissance, date, a4);
    OverwriteCons(r, a2, Prenom, prenom, a3);
    OverwriteCons(r, a1, Nom, nom, a2);
    assert a1 == [(Nom, nom), (Prenom, prenom), (DateNaissance, date), (Sexe, sexe), (Adresse, adresse), (Telephone, telephone)];
  }

  /** What the rewritten row holds: the six values, and the key and timestamps it had. */
  lemma PatientEditedCells(r: Row, nom: Value, prenom: Value, date: Value, sexe: Value, adresse: Value, telephone: Value)
    ensures var o := PatientEdited(r, nom, prenom, date, sexe, adresse, telephone);
      && Get(o, Nom) == nom && Get(o, Prenom) == prenom && Get(o, DateNaissance) == date
      && Get(o, Sexe) == sexe && Get(o, Adresse) == adresse && Get(o, Telephone) == telephone
      && Get(o, PatientId) == Get(r, PatientId) && Get(o, CreatedAt) == Get(r, CreatedAt)
      && Get(o, UpdatedAt) == Get(r, UpdatedAt)
  {
  }

  /**
   * A saved edit rewrites only the row of that patient, in place: it then holds the trimmed names,
   * the sex as picked and a blank address or phone as NULL, and keeps its key and timestamps.
   * Every other patient and every other table is left as it was.
   */
  lemma EditPatientSaved(db: Database, patient: Row, f: PatientFields, clock: Clock)
    requires EditPatientWrite(patient, f).Some? && Apply(db, EditPatientWrite(patient, f).value, clock).Ok?
    ensures Patients in db.tables
    ensures var before := db.tables[Patients].rows;
      var after := Apply(db, EditPatientWrite(patient, f).value, clock).value;
      && (forall u :: u in db.tables && u != Patients ==> u in after.tables && after.tables[u] == db.tables[u])
      && Patients in after.tables && |after.tables[Patients].rows| == |before|
      && forall i :: 0 <= i < |before| ==>
        if HoldsKey(Patients, before[i], Get(patient, PatientId)) then
          && HoldsPatient(after.tables[Patients].rows[i], f, Str(f.sexe))
          && Get(after.tables[Patients].rows[i], PatientId) == Get(before[i], PatientId)
          && Get(after.tables[Patients].rows[i], CreatedAt) == Get(before[i], CreatedAt)
          && Get(after.tables[Patients].rows[i], UpdatedAt) == Get(before[i], UpdatedAt)
        else after.tables[Patients].rows[i] == before[i]
  {
    var sets := PatientValues(f, Str(f.sexe));
    var v := Get(patient, PatientId);
    UpdateByKey(db, Patients, sets, v);
    var before := db.tables[Patients].rows;
    forall i | 0 <= i < |before| && HoldsKey(Patients, before[i], v)
      ensures var o := Overwrite(before[i], sets);
        && HoldsPatient(o, f, Str(f.sexe)) && Get(o, PatientId) == Get(before[i], PatientId)
        && Get(o, CreatedAt) == Get(before[i], CreatedAt) && Get(o, UpdatedAt) == Get(before[i], UpdatedAt)
    {
      PatientSetClause(before[i], Str(JsText.Trim(f.nom)), Str(JsText.Trim(f.prenom)), Str(f.dateNaissance),
        Str(f.sexe), TrimOrNull(f.adresse), TrimOrNull(f.telephone));
      PatientEditedCells(before[i], Str(JsText.Trim(f.nom)), Str(JsText.Trim(f.prenom)), Str(f.dateNaissance),
        Str(f.sexe), TrimOrNull(f.adresse), TrimOrNull(f.telephone));
    }
  }

  /** A patient row with both names filled meets every constraint of its table. */
  lemma PatientRowAccepted(db: Database, r: Row)
    requires Get(r, Nom) != Null && Get(r, Prenom) != Null
    ensures Violation(db, Patients, r).None?
  {
  }

  /** So does every row the edit form rewrites with both names given. */
  lemma PatientEditedAccepted(db: Database, r: Row, nom: Value, prenom: Value, date: Value, sexe: Value, adresse: Value, telephone: Value)
    requires nom != Null && prenom != Null
    ensures Violation(db, Patients, PatientEdited(r, nom, prenom, date, sexe, adresse, telephone)).None?
  {
    PatientEditedCells(r, nom, prenom, date, sexe, adresse, telephone);
    PatientRowAccepted(db, PatientEdited(r, nom, prenom, date, sexe, adresse, telephone));
  }

  /** The edit form's SET clause and key condition name only columns of the patients table, not as keys. */
  lemma PatientSetColumns(nom: Value, prenom: Value, date: Value, sexe: Value, adresse: Value, telephone: Value, v: Value)
    ensures var sets := [(Nom, nom), (Prenom, prenom), (DateNaissance, date), (Sexe, sexe), (Adresse, adresse), (Telephone, telephone)];
      Unknown(Patients, Columns(sets) + CondColumns(KeyIs(Patients, v))).None? && PatientId !in Columns(sets)
  {
    var sets := [(Nom, nom), (Prenom, prenom), (DateNaissance, date), (Sexe, sexe), (Adresse, adresse), (Telephone, telephone)];
    FormTablesColumnSets();
    assert Columns(sets) + CondColumns(KeyIs(Patients, v)) == [Nom, Prenom, DateNaissance, Sexe, Adresse, Telephone, PatientId];
  }

  /** Once both names are filled, an edit is never refused on a file that has the patients table. */
  lemma EditPatientAccepted(db: Database, patient: Row, f: PatientFields, clock: Clock)
    requires Patients in db.tables && EditPatientWrite(patient, f).Some?
    ensures Apply(db, EditPatientWrite(patient, f).value, clock).Ok?
  {
    var sets := PatientValues(f, Str(f.sexe));
    var where := KeyIs(Patients, Get(patient, PatientId));
    var rows := db.tables[Patients].rows;
    PatientSetColumns(Str(JsText.Trim(f.nom)), Str(JsText.Trim(f.prenom)), Str(f.dateNaissance),
      Str(f.sexe), TrimOrNull(f.adresse), TrimOrNull(f.telephone), Get(patient, PatientId));
    forall i | 0 <= i < |rows| && Satisfies(rows[i], where)
      ensures Violation(db, Patients, Overwrite(rows[i], sets)).None?
    {
      PatientSetClause(rows[i], Str(JsText.Trim(f.nom)), Str(JsText.Trim(f.prenom)), Str(f.dateNaissance),
        Str(f.sexe), TrimOrNull(f.adresse), TrimOrNull(f.telephone));
      PatientEditedAccepted(db, rows[i], Str(JsText.Trim(f.nom)), Str(JsText.Trim(f.prenom)), Str(f.dateNaissance),
        Str(f.sexe), TrimOrNull(f.adresse), TrimOrNull(f.telephone));
    }
    StatementLaws.UpdateAccepted(db, Patients, sets, where, clock);
  }

  // ----- Health data -----

  /** The fields of `DonneeForm`: the picked type, the typed value and the picked date, formatted. */
  datatype DonneeFields = DonneeFields(typeId: PickedId, valeur: string, date: string)

  /** What a saved `donnees_sanitaires` row holds: the picked type, the trimmed value, the date. */
  predicate HoldsDonnee(r: Row, f: DonneeFields) {
    Get(r, TypeDonneeId) == IdValue(f.typeId) && Get(r, Valeur) == Str(JsText.Trim(f.valeur))
    && Get(r, DateEnregistrement) == Str(f.date)
  }

  /** The SET clause of an edit: the picked type, the trimmed value and the date. */
  function DonneeValues(f: DonneeFields): Assignments {
    [(TypeDonneeId, IdValue(f.typeId)), (Valeur, Str(JsText.Trim(f.valeur))), (DateEnregistrement, Str(f.date))]
  }

  /** The INSERT of a new datum: the same three columns, for patient `patientId`. */
  function DonneeInsert(patientId: Value, f: DonneeFields): Assignments {
    [(PatientId, patientId), (TypeDonneeId, IdValue(f.typeId)), (Valeur, Str(JsText.Trim(f.valeur))), (DateEnregistrement, Str(f.date))]
  }

  /**
   * `DonneeForm.handleSubmit`: nothing without a type (0 counts as none) or with a blank value;
   * otherwise the UPDATE of the datum being edited, or the INSERT of a new one for the patient.
   */
  function DonneeWrite(patientId: Value, editing: Option<Row>, f: DonneeFields): (w: Option<Command>)
    ensures w.None? <==> !Chosen(f.typeId) || JsText.AllSpace(f.valeur)
    ensures w.Some? && editing.Some? ==>
      w.value == Update(DonneesSanitaires, DonneeValues(f), KeyIs(DonneesSanitaires, Get(editing.value, DonneeId)))
    ensures w.Some? && editing.None? ==> w.value == Insert(DonneesSanitaires, [DonneeInsert(patientId, f)])
  {
    FilledIffNotBlank(f.valeur);
    if !Chosen(f.typeId) || !Filled(f.valeur) then None
    else
      match editing
      case Some(item) => Some(Update(DonneesSanitaires, DonneeValues(f), KeyIs(DonneesSanitaires, Get(item, DonneeId))))
      case None => Some(Insert(DonneesSanitaires, [DonneeInsert(patientId, f)]))
  }

  /** Row `r` with the three columns of an edited datum set to the given values. */
  function DonneeEdited(r: Row, typeId: Value, valeur: Value, date: Value): Row {
    r[DateEnregistrement := date][Valeur := valeur][TypeDonneeId := typeId]
  }

  /** The SET clause of the datum form changes its three columns of a row and no other. */
  lemma DonneeSetClause(r: Row, typeId: Value, valeur: Value, date: Value)
    ensures Overwrite(r, [(TypeDonneeId, typeId), (Valeur, valeur), (DateEnregistrement, date)])
      == DonneeEdited(r, typeId, valeur, date)
  {
    var a3: Assignments := [(DateEnregistrement, date)];
    var a2 := [(Valeur, valeur)] + a3;
    var a1 := [(TypeDonneeId, typeId)] + a2;
    OverwriteCons(r, a3, DateEnregistrement, date, []);
    OverwriteCons(r, a2, Valeur, valeur, a3);
    OverwriteCons(r, a1, TypeDonneeId, typeId, a2);
    assert a1 == [(TypeDonneeId, typeId), (Valeur, valeur), (DateEnregistrement, date)];
  }

  /** What the rewritten datum holds: the three values, and the key and patient it had. */
  lemma DonneeEditedCells(r: Row, typeId: Value, valeur: Value, date: Value)
    ensures var o := DonneeEdited(r, typeId, valeur, date);
      && Get(o, TypeDonneeId) == typeId && Get(o, Valeur) == valeur && Get(o, DateEnregistrement) == date
      && Get(o, DonneeId) == Get(r, DonneeId) && Get(o, PatientId) == Get(r, PatientId)
  {
  }

  /**
   * A saved edit rewrites only the datum being edited, in place; it keeps its key and its patient,
   * so an edit never moves a datum to another patient. Every other row and table stays as it was.
   */
  lemma DonneeEditSaved(db: Database, patientId: Value, item: Row, f: DonneeFields, clock: Clock)
    requires DonneeWrite(patientId, Some(item), f).Some?
    requires Apply(db, DonneeWrite(patientId, Some(item), f).value, clock).Ok?
    ensures DonneesSanitaires in db.tables
    ensures var before := db.tables[DonneesSanitaires].rows;
      var after := Apply(db, DonneeWrite(patientId, Some(item), f).value, clock).value;
      && (forall u :: u in db.tables && u != DonneesSanitaires ==> u in after.tables && after.tables[u] == db.tables[u])
      && DonneesSanitaires in after.tables && |after.tables[DonneesSanitaires].rows| == |before|
      && forall i :: 0 <= i < |before| ==>
        if HoldsKey(DonneesSanitaires, before[i], Get(item, DonneeId)) then
          && HoldsDonnee(after.tables[DonneesSanitaires].rows[i], f)
          && Get(after.tables[DonneesSanitaires].rows[i], DonneeId) == Get(before[i], DonneeId)
          && Get(after.tables[DonneesSanitaires].rows[i], PatientId) == Get(before[i], PatientId)
        else after.tables[DonneesSanitaires].rows[i] == before[i]
  {
    var sets := DonneeValues(f);
    var v := Get(item, DonneeId);
    UpdateByKey(db, DonneesSanitaires, sets, v);
    var before := db.tables[DonneesSanitaires].rows;
    forall i | 0 <= i < |before| && HoldsKey(DonneesSanitaires, before[i], v)
      ensures var o := Overwrite(before[i], sets);
        && HoldsDonnee(o, f) && Get(o, DonneeId) == Get(before[i], DonneeId) && Get(o, PatientId) == Get(before[i], PatientId)
    {
      DonneeSetClause(before[i], IdValue(f.typeId), Str(JsText.Trim(f.valeur)), Str(f.date));
      DonneeEditedCells(before[i], IdValue(f.typeId), Str(JsText.Trim(f.valeur)), Str(f.date));
    }
  }

  /** The INSERT of a datum names four distinct columns... */
  lemma DonneeInsertDistinct(p: Value, typeId: Value, valeur: Value, date: Value)
    ensures DistinctColumns([(PatientId, p), (TypeDonneeId, typeId), (Valeur, valeur), (DateEnregistrement, date)])
  {
  }

  /** ... all of its table, and not the key. */
  lemma DonneeInsertColumns(p: Value, typeId: Value, valeur: Value, date: Value)
    ensures InsertError(DonneesSanitaires, [(PatientId, p), (TypeDonneeId, typeId), (Valeur, valeur), (DateEnregistrement, date)]).None?
  {
    var a := [(PatientId, p), (TypeDonneeId, typeId), (Valeur, valeur), (DateEnregistrement, date)];
    FormTablesColumnSets();
    assert Columns(a) == [PatientId, TypeDonneeId, Valeur, DateEnregistrement];
  }

  /** It fills every NOT NULL column when the patient, the type and the value are given. */
  lemma DonneeInsertComplete(p: Value, typeId: Value, valeur: Value, date: Value)
    requires p != Null && typeId != Null && valeur != Null
    ensures StatementLaws.Complete(DonneesSanitaires, [(PatientId, p), (TypeDonneeId, typeId), (Valeur, valeur), (DateEnregistrement, date)])
  {
    var a := [(PatientId, p), (TypeDonneeId, typeId), (Valeur, valeur), (DateEnregistrement, date)];
    var cols := Def(DonneesSanitaires).columns;
    assert cols == DonneesColumns();
    forall k | 0 <= k < |cols| && cols[k].notNull
      ensures cols[k].name in Columns(a) && Lookup(a, cols[k].name).value != Null
    {
      assert 1 <= k <= 3;
      assert Columns(a)[k - 1] == cols[k].name == a[k - 1].0;
      LookupAt(a, k - 1);
    }
  }

  /** It references existing rows when the patient and the type exist. */
  /**
   * An INSERT into a fact table whose first two assignments give the patient and the type
   * references existing rows when that patient and that type exist.
   */
  lemma FactInsertParents(db: Database, t: TableName, typ: TableName, key: ColumnName, p: Value, typeId: Value, a: Assignments)
    requires (t == DonneesSanitaires && typ == TypesDonnees && key == TypeDonneeId)
      || (t == Consultations && typ == TypesConsultations && key == TypeConsultationId)
      || (t == Examens && typ == TypesExamens && key == TypeExamenId)
    requires |a| >= 2 && a[0] == (PatientId, p) && a[1] == (key, typeId)
    requires HasRowWith(db, Patients, PatientId, p) && HasRowWith(db, typ, key, typeId)
    ensures StatementLaws.ParentsExist(db, t, a)
  {
    FactForeignKeys(t, typ, key);
    LookupAt(a, 0);
    assert PatientId != key;
    LookupAt(a, 1);
    StatementLaws.TwoParentsExist(db, t, a, Cascading(PatientId, Patients), Cascading(key, typ), p, typeId);
  }

  lemma DonneeInsertParents(db: Database, p: Value, typeId: Value, valeur: Value, date: Value)
    requires HasRowWith(db, Patients, PatientId, p) && HasRowWith(db, TypesDonnees, TypeDonneeId, typeId)
    ensures StatementLaws.ParentsExist(db, DonneesSanitaires, [(PatientId, p), (TypeDonneeId, typeId), (Valeur, valeur), (DateEnregistrement, date)])
  {
    FactInsertParents(db, DonneesSanitaires, TypesDonnees, TypeDonneeId, p, typeId,
      [(PatientId, p), (TypeDonneeId, typeId), (Valeur, valeur), (DateEnregistrement, date)]);
  }

  /** A row that holds what the INSERT of a datum gives each column. */
  lemma DonneeInsertedRow(r: Row, a: Assignments, p: Value, typeId: Value, valeur: Value, date: Value)
    requires a == [(PatientId, p), (TypeDonneeId, typeId), (Valeur, valeur), (DateEnregistrement, date)]
    requires DistinctColumns(a) ==> HoldsAssigned(r, a)
    ensures Get(r, PatientId) == p && Get(r, TypeDonneeId) == typeId && Get(r, Valeur) == valeur
      && Get(r, DateEnregistrement) == date
  {
    DonneeInsertDistinct(p, typeId, valeur, date);
    assert a[0] == (PatientId, p) && a[1] == (TypeDonneeId, typeId);
    assert a[2] == (Valeur, valeur) && a[3] == (DateEnregistrement, date);
  }

  /**
   * A saved new datum is one row added at the end of the table under the next key (`Appended`),
   * for the form's patient, holding the picked type, the trimmed value and the date.
   */
  lemma DonneeCreated(db: Database, patientId: Value, f: DonneeFields, clock: Clock)
    requires DonneeWrite(patientId, None, f).Some?
    requires Apply(db, DonneeWrite(patientId, None, f).value, clock).Ok?
    ensures DonneesSanitaires in db.tables
    ensures exists r ::
      && Apply(db, DonneeWrite(patientId, None, f).value, clock).value == Appended(db, DonneesSanitaires, r)
      && HoldsDonnee(r, f) && Get(r, PatientId) == patientId
      && Get(r, DonneeId) == Int(db.tables[DonneesSanitaires].lastId + 1)
      && r in Apply(db, DonneeWrite(patientId, None, f).value, clock).value.tables[DonneesSanitaires].rows
  {
    var a := DonneeInsert(patientId, f);
    InsertOne(db, DonneesSanitaires, a, clock);
    var r := NewRow(DonneesSanitaires, a, db.tables[DonneesSanitaires].lastId + 1, clock);
    DonneeInsertedRow(r, a, patientId, IdValue(f.typeId), Str(JsText.Trim(f.valeur)), Str(f.date));
    StoreLaws.AppendedHolds(db, DonneesSanitaires, r);
  }

  /**
   * A new datum for an existing patient, of an existing type, is always accepted (with
   * enforcement off, whatever the ids).
   */
  lemma DonneeCreateAccepted(db: Database, patientId: Value, f: DonneeFields, clock: Clock)
    requires DonneesSanitaires in db.tables && DonneeWrite(patientId, None, f).Some? && patientId != Null
    requires db.foreignKeys ==>
      (HasRowWith(db, Patients, PatientId, patientId) && HasRowWith(db, TypesDonnees, TypeDonneeId, IdValue(f.typeId)))
    ensures Apply(db, DonneeWrite(patientId, None, f).value, clock).Ok?
  {
    var a := DonneeInsert(patientId, f);
    SingleInsert(db, DonneesSanitaires, a, clock);
    DonneeInsertColumns(patientId, IdValue(f.typeId), Str(JsText.Trim(f.valeur)), Str(f.date));
    DonneeInsertComplete(patientId, IdValue(f.typeId), Str(JsText.Trim(f.valeur)), Str(f.date));
    if db.foreignKeys {
      DonneeInsertParents(db, patientId, IdValue(f.typeId), Str(JsText.Trim(f.valeur)), Str(f.date));
    }
    StatementLaws.InsertAccepted(db, DonneesSanitaires, a, clock);
  }

  // ----- Consultations -----

  /** The fields of `ConsultationForm`: the picked type, the typed diagnosis and treatment, the date. */
  datatype ConsultationFields = ConsultationFields(typeId: PickedId, diagnostic: string, traitement: string, date: string)

  /** The SET clause of an edit: type, date, the trimmed diagnosis, the treatment or NULL. */
  function ConsultationValues(f: ConsultationFields): Assignments {
    [(TypeConsultationId, IdValue(f.typeId)), (DateConsultation, Str(f.date)),
     (Diagnostic, Str(JsText.Trim(f.diagnostic))), (Traitement, TrimOrNull(f.traitement))]
  }

  /** The INSERT of a new consultation: the same four columns, for patient `patientId`. */
  function ConsultationInsert(patientId: Value, f: ConsultationFields): Assignments {
    [(PatientId, patientId), (TypeConsultationId, IdValue(f.typeId)), (DateConsultation, Str(f.date)),
     (Diagnostic, Str(JsText.Trim(f.diagnostic))), (Traitement, TrimOrNull(f.traitement))]
  }

  /**
   * `ConsultationForm.handleSubmit`: nothing without a type (0 counts as none) or with a blank
   * diagnosis; otherwise the UPDATE of the consultation being edited, or the INSERT of a new one.
   */
  function ConsultationWrite(patientId: Value, editing: Option<Row>, f: ConsultationFields): (w: Option<Command>)
    ensures w.None? <==> !Chosen(f.typeId) || JsText.AllSpace(f.diagnostic)
    ensures w.Some? && editing.Some? ==>
      w.value == Update(Consultations, ConsultationValues(f), KeyIs(Consultations, Get(editing.value, ConsultationId)))
    ensures w.Some? && editing.None? ==> w.value == Insert(Consultations, [ConsultationInsert(patientId, f)])
  {
    FilledIffNotBlank(f.diagnostic);
    if !Chosen(f.typeId) || !Filled(f.diagnostic) then None
    else
      match editing
      case Some(item) => Some(Update(Consultations, ConsultationValues(f), KeyIs(Consultations, Get(item, ConsultationId))))
      case None => Some(Insert(Consultations, [ConsultationInsert(patientId, f)]))
  }

  /** The UPDATE of the form names `diagnostic`, which `consultations` does not declare, as its first unknown column. */
  lemma ConsultationSetUnknown(typeId: Value, date: Value, diagnostic: Value, traitement: Value, v: Value)
    ensures Unknown(Consultations, Columns([(TypeConsultationId, typeId), (DateConsultation, date), (Diagnostic, diagnostic), (Traitement, traitement)])
      + CondColumns(KeyIs(Consultations, v))) == Some(Diagnostic)
  {
    ConsultationsColumnSet();
    var sets := [(TypeConsultationId, typeId), (DateConsultation, date), (Diagnostic, diagnostic), (Traitement, traitement)];
    var cs := Columns(sets) + CondColumns(KeyIs(Consultations, v));
    assert Columns(sets) == [TypeConsultationId, DateConsultation, Diagnostic, Traitement];
    assert CondColumns(KeyIs(Consultations, v)) == [ConsultationId];
    StatementLaws.UnknownAt(Consultations, cs, [ConsultationId, PatientId, TypeConsultationId, DateConsultation, Notes], 2);
  }

  /** So does its INSERT. */
  lemma ConsultationInsertUnknown(p: Value, typeId: Value, date: Value, diagnostic: Value, traitement: Value)
    ensures InsertError(Consultations, [(PatientId, p), (TypeConsultationId, typeId), (DateConsultation, date), (Diagnostic, diagnostic), (Traitement, traitement)])
      == Some(NoSuchColumn(Consultations, Diagnostic))
  {
    var a := [(PatientId, p), (TypeConsultationId, typeId), (DateConsultation, date), (Diagnostic, diagnostic), (Traitement, traitement)];
    assert Columns(a) == [PatientId, TypeConsultationId, DateConsultation, Diagnostic, Traitement];
    ConsultationInsertColumnsUnknown();
  }

  /** The columns the consultation INSERT names: the first that `consultations` lacks is `diagnostic`. */
  lemma ConsultationInsertColumnsUnknown()
    ensures Unknown(Consultations, [PatientId, TypeConsultationId, DateConsultation, Diagnostic, Traitement]) == Some(Diagnostic)
  {
    ConsultationsColumnSet();
    StatementLaws.UnknownAt(Consultations, [PatientId, TypeConsultationId, DateConsultation, Diagnostic, Traitement],
      [ConsultationId, PatientId, TypeConsultationId, DateConsultation, Notes], 3);
  }

  /**
   * Against the schema as written, the consultation form can never save: whatever is typed, its
   * UPDATE and its INSERT are refused for the undeclared `diagnostic` column (or for a missing
   * table), and the file is left as it was.
   */
  lemma ConsultationRejected(db: Database, patientId: Value, editing: Option<Row>, f: ConsultationFields, clock: Clock)
    requires ConsultationWrite(patientId, editing, f).Some?
    ensures Apply(db, ConsultationWrite(patientId, editing, f).value, clock)
      == Err(if Consultations in db.tables then NoSuchColumn(Consultations, Diagnostic) else NoSuchTable(Consultations))
  {
    var w := ConsultationWrite(patientId, editing, f).value;
    if editing.Some? {
      ConsultationUpdateFails(db, w, IdValue(f.typeId), Str(f.date), Str(JsText.Trim(f.diagnostic)), TrimOrNull(f.traitement),
        Get(editing.value, ConsultationId), clock);
    } else {
      ConsultationInsertFails(db, w, patientId, IdValue(f.typeId), Str(f.date), Str(JsText.Trim(f.diagnostic)), TrimOrNull(f.traitement), clock);
    }
  }

  /** The UPDATE of a consultation fails on its first unknown column. */
  lemma ConsultationUpdateFails(db: Database, w: Command, typeId: Value, date: Value, diagnostic: Value, traitement: Value, v: Value, clock: Clock)
    requires w == Update(Consultations, [(TypeConsultationId, typeId), (DateConsultation, date), (Diagnostic, diagnostic), (Traitement, traitement)],
      KeyIs(Consultations, v))
    ensures Apply(db, w, clock) == Err(if Consultations in db.tables then NoSuchColumn(Consultations, Diagnostic) else NoSuchTable(Consultations))
  {
    ConsultationSetUnknown(typeId, date, diagnostic, traitement, v);
  }

  /** The INSERT of a consultation fails on its first unknown column. */
  lemma ConsultationInsertFails(db: Database, w: Command, p: Value, typeId: Value, date: Value, diagnostic: Value, traitement: Value, clock: Clock)
    requires w == Insert(Consultations, [[(PatientId, p), (TypeConsultationId, typeId), (DateConsultation, date), (Diagnostic, diagnostic), (Traitement, traitement)]])
    ensures Apply(db, w, clock) == Err(if Consultations in db.tables then NoSuchColumn(Consultations, Diagnostic) else NoSuchTable(Consultations))
  {
    ConsultationInsertUnknown(p, typeId, date, diagnostic, traitement);
    SingleInsert(db, Consultations, [(PatientId, p), (TypeConsultationId, typeId), (DateConsultation, date), (Diagnostic, diagnostic), (Traitement, traitement)], clock);
  }

  /**
   * So at the layer, a submitted consultation always fails (the form shows its error alert and
   * stays open), and the file holds no more than the initialisation of the call put there.
   */
  lemma ConsultationSubmitFails(l: Layer, patientId: Value, editing: Option<Row>, f: ConsultationFields, env: Env)
    requires Between(l) && ConsultationWrite(patientId, editing, f).Some?
    ensures Ran(l, ConsultationWrite(patientId, editing, f).value, env).1.Fail?
    ensures Ran(l, ConsultationWrite(patientId, editing, f).value, env).0 == Ensured(l, env).0
  {
    ConsultationRejected(Ensured(l, env).0.data, patientId, editing, f, env.clock);
  }

  // ----- Examinations -----

  /** The fields of `ExamenForm`: the picked type, the typed purpose, result and notes, the date. */
  datatype ExamenFields = ExamenFields(typeId: PickedId, objet: string, resultat: string, notes: string, date: string)

  /** What a saved `examens` row holds: the picked type, the date, blank texts as NULL. */
  predicate HoldsExamen(r: Row, f: ExamenFields) {
    && Get(r, TypeExamenId) == IdValue(f.typeId) && Get(r, ObjetExamen) == TrimOrNull(f.objet)
    && Get(r, DateExamen) == Str(f.date) && Get(r, Resultat) == TrimOrNull(f.resultat)
    && Get(r, Notes) == TrimOrNull(f.notes)
  }

  /** The SET clause of an edit. */
  function ExamenValues(f: ExamenFields): Assignments {
    [(TypeExamenId, IdValue(f.typeId)), (ObjetExamen, TrimOrNull(f.objet)), (DateExamen, Str(f.date)),
     (Resultat, TrimOrNull(f.resultat)), (Notes, TrimOrNull(f.notes))]
  }

  /** The INSERT of a new examination: the same five columns, for patient `patientId`. */
  function ExamenInsert(patientId: Value, f: ExamenFields): Assignments {
    [(PatientId, patientId), (TypeExamenId, IdValue(f.typeId)), (ObjetExamen, TrimOrNull(f.objet)), (DateExamen, Str(f.date)),
     (Resultat, TrimOrNull(f.resultat)), (Notes, TrimOrNull(f.notes))]
  }

  /**
   * `ExamenForm.handleSubmit`: nothing without a type (0 counts as none); every text is optional.
   * Otherwise the UPDATE of the examination being edited, or the INSERT of a new one.
   */
  function ExamenWrite(patientId: Value, editing: Option<Row>, f: ExamenFields): (w: Option<Command>)
    ensures w.None? <==> !Chosen(f.typeId)
    ensures w.Some? && editing.Some? ==>
      w.value == Update(Examens, ExamenValues(f), KeyIs(Examens, Get(editing.value, ExamenId)))
    ensures w.Some? && editing.None? ==> w.value == Insert(Examens, [ExamenInsert(patientId, f)])
  {
    if !Chosen(f.typeId) then None
    else
      match editing
      case Some(item) => Some(Update(Examens, ExamenValues(f), KeyIs(Examens, Get(item, ExamenId))))
      case None => Some(Insert(Examens, [ExamenInsert(patientId, f)]))
  }

  /** Row `r` with the five columns of an edited examination set to the given values. */
  function ExamenEdited(r: Row, typeId: Value, objet: Value, date: Value, resultat: Value, notes: Value): Row {
    r[Notes := notes][Resultat := resultat][DateExamen := date][ObjetExamen := objet][TypeExamenId := typeId]
  }

  /** The SET clause of the examination form changes its five columns of a row and no other. */
  lemma ExamenSetClause(r: Row, typeId: Value, objet: Value, date: Value, resultat: Value, notes: Value)
    ensures Overwrite(r, [(TypeExamenId, typeId), (ObjetExamen, objet), (DateExamen, date), (Resultat, resultat), (Notes, notes)])
      == ExamenEdited(r, typeId, objet, date, resultat, notes)
  {
    var a5: Assignments := [(Notes, notes)];
    var a4 := [(Resultat, resultat)] + a5;
    var a3 := [(DateExamen, date)] + a4;
    var a2 := [(ObjetExamen, objet)] + a3;
    var a1 := [(TypeExamenId, typeId)] + a2;
    OverwriteCons(r, a5, Notes, notes, []);
    OverwriteCons(r, a4, Resultat, resultat, a5);
    OverwriteCons(r, a3, DateExamen, date, a4);
    OverwriteCons(r, a2, ObjetExamen, objet, a3);
    OverwriteCons(r, a1, TypeExamenId, typeId, a2);
    assert a1 == [(TypeExamenId, typeId), (ObjetExamen, objet), (DateExamen, date), (Resultat, resultat), (Notes, notes)];
  }

  /** What the rewritten examination holds: the five values, and the key and patient it had. */
  lemma ExamenEditedCells(r: Row, typeId: Value, objet: Value, date: Value, resultat: Value, notes: Value)
    ensures var o := ExamenEdited(r, typeId, objet, date, resultat, notes);
      && Get(o, TypeExamenId) == typeId && Get(o, ObjetExamen) == objet && Get(o, DateExamen) == date
      && Get(o, Resultat) == resultat && Get(o, Notes) == notes
      && Get(o, ExamenId) == Get(r, ExamenId) && Get(o, PatientId) == Get(r, PatientId)
  {
  }

  /**
   * A saved edit rewrites only the examination being edited, in place; it keeps its key and its
   * patient. Every other row and table stays as it was.
   */
  lemma ExamenEditSaved(db: Database, patientId: Value, item: Row, f: ExamenFields, clock: Clock)
    requires ExamenWrite(patientId, Some(item), f).Some?
    requires Apply(db, ExamenWrite(patientId, Some(item), f).value, clock).Ok?
    ensures Examens in db.tables
    ensures var before := db.tables[Examens].rows;
      var after := Apply(db, ExamenWrite(patientId, Some(item), f).value, clock).value;
      && (forall u :: u in db.tables && u != Examens ==> u in after.tables && after.tables[u] == db.tables[u])
      && Examens in after.tables && |after.tables[Examens].rows| == |before|
      && forall i :: 0 <= i < |before| ==>
        if HoldsKey(Examens, before[i], Get(item, ExamenId)) then
          && HoldsExamen(after.tables[Examens].rows[i], f)
          && Get(after.tables[Examens].rows[i], ExamenId) == Get(before[i], ExamenId)
          && Get(after.tables[Examens].rows[i], PatientId) == Get(before[i], PatientId)
        else after.tables[Examens].rows[i] == before[i]
  {
    var sets := ExamenValues(f);
    var v := Get(item, ExamenId);
    UpdateByKey(db, Examens, sets, v);
    var before := db.tables[Examens].rows;
    forall i | 0 <= i < |before| && HoldsKey(Examens, before[i], v)
      ensures var o := Overwrite(before[i], sets);
        && HoldsExamen(o, f) && Get(o, ExamenId) == Get(before[i], ExamenId) && Get(o, PatientId) == Get(before[i], PatientId)
    {
      ExamenSetClause(before[i], IdValue(f.typeId), TrimOrNull(f.objet), Str(f.date), TrimOrNull(f.resultat), TrimOrNull(f.notes));
      ExamenEditedCells(before[i], IdValue(f.typeId), TrimOrNull(f.objet), Str(f.date), TrimOrNull(f.resultat), TrimOrNull(f.notes));
    }
  }

  /** The INSERT of an examination names six distinct columns... */
  lemma ExamenInsertDistinct(patientId: Value, f: ExamenFields)
    ensures DistinctColumns(ExamenInsert(patientId, f))
  {
    ExamenCellsDistinct(patientId, IdValue(f.typeId), TrimOrNull(f.objet), Str(f.date), TrimOrNull(f.resultat), TrimOrNull(f.notes));
  }

  lemma ExamenCellsDistinct(p: Value, typeId: Value, objet: Value, date: Value, resultat: Value, notes: Value)
    ensures DistinctColumns([(PatientId, p), (TypeExamenId, typeId), (ObjetExamen, objet), (DateExamen, date), (Resultat, resultat), (Notes, notes)])
  {
  }

  /** ... all of its table, and not the key. */
  lemma ExamenInsertColumns(p: Value, typeId: Value, objet: Value, date: Value, resultat: Value, notes: Value)
    ensures InsertError(Examens, [(PatientId, p), (TypeExamenId, typeId), (ObjetExamen, objet), (DateExamen, date), (Resultat, resultat), (Notes, notes)]).None?
  {
    var a := [(PatientId, p), (TypeExamenId, typeId), (ObjetExamen, objet), (DateExamen, date), (Resultat, resultat), (Notes, notes)];
    FormTablesColumnSets();
    assert Columns(a) == [PatientId, TypeExamenId, ObjetExamen, DateExamen, Resultat, Notes];
  }

  /** It fills both NOT NULL columns when the patient and the type are given. */
  lemma ExamenInsertComplete(p: Value, typeId: Value, objet: Value, date: Value, resultat: Value, notes: Value)
    requires p != Null && typeId != Null
    ensures StatementLaws.Complete(Examens, [(PatientId, p), (TypeExamenId, typeId), (ObjetExamen, objet), (DateExamen, date), (Resultat, resultat), (Notes, notes)])
  {
    var a := [(PatientId, p), (TypeExamenId, typeId), (ObjetExamen, objet), (DateExamen, date), (Resultat, resultat), (Notes, notes)];
    var cols := Def(Examens).columns;
    assert cols == ExamensColumns();
    forall k | 0 <= k < |cols| && cols[k].notNull
      ensures cols[k].name in Columns(a) && Lookup(a, cols[k].name).value != Null
    {
      assert 1 <= k <= 2;
      assert Columns(a)[k - 1] == cols[k].name == a[k - 1].0;
      LookupAt(a, k - 1);
    }
  }

  /** It references existing rows when the patient and the type exist. */
  lemma ExamenInsertParents(db: Database, p: Value, typeId: Value, objet: Value, date: Value, resultat: Value, notes: Value)
    requires HasRowWith(db, Patients, PatientId, p) && HasRowWith(db, TypesExamens, TypeExamenId, typeId)
    ensures StatementLaws.ParentsExist(db, Examens, [(PatientId, p), (TypeExamenId, typeId), (ObjetExamen, objet), (DateExamen, date), (Resultat, resultat), (Notes, notes)])
  {
    FactInsertParents(db, Examens, TypesExamens, TypeExamenId, p, typeId,
      [(PatientId, p), (TypeExamenId, typeId), (ObjetExamen, objet), (DateExamen, date), (Resultat, resultat), (Notes, notes)]);
  }

  /**
   * A saved new examination is one row added at the end of the table under the next key, for
   * the form's patient, holding the picked type, the date and the texts (blank ones as NULL).
   */
  lemma ExamenCreated(db: Database, patientId: Value, f: ExamenFields, clock: Clock)
    requires ExamenWrite(patientId, None, f).Some?
    requires Apply(db, ExamenWrite(patientId, None, f).value, clock).Ok?
    ensures Examens in db.tables
    ensures exists r ::
      && Apply(db, ExamenWrite(patientId, None, f).value, clock).value == Appended(db, Examens, r)
      && HoldsExamen(r, f) && Get(r, PatientId) == patientId
      && Get(r, ExamenId) == Int(db.tables[Examens].lastId + 1)
  {
    var r := ExamenAppended(db, ExamenInsert(patientId, f), patientId, f, clock);
  }

  /** The INSERT of a new examination appends, under the next key, a row holding the form's values. */
  lemma ExamenAppended(db: Database, a: Assignments, patientId: Value, f: ExamenFields, clock: Clock) returns (r: Row)
    requires a == ExamenInsert(patientId, f) && Apply(db, Insert(Examens, [a]), clock).Ok?
    ensures Examens in db.tables && Apply(db, Insert(Examens, [a]), clock).value == Appended(db, Examens, r)
    ensures HoldsExamen(r, f) && Get(r, PatientId) == patientId && Get(r, ExamenId) == Int(db.tables[Examens].lastId + 1)
  {
    ExamenInsertDistinct(patientId, f);
    r := InsertedHolding(db, Examens, a, clock);
    ExamenHeld(r, patientId, f);
    assert KeyOf(Examens) == ExamenId;
  }

  /** A row holding what the INSERT of an examination gives holds the form's values. */
  lemma ExamenHeld(r: Row, patientId: Value, f: ExamenFields)
    requires HoldsAssigned(r, ExamenInsert(patientId, f))
    ensures HoldsExamen(r, f) && Get(r, PatientId) == patientId
  {
    var a := ExamenInsert(patientId, f);
    assert Get(r, a[0].0) == a[0].1 && Get(r, a[1].0) == a[1].1 && Get(r, a[2].0) == a[2].1;
    assert Get(r, a[3].0) == a[3].1 && Get(r, a[4].0) == a[4].1 && Get(r, a[5].0) == a[5].1;
  }

  /**
   * A new examination for an existing patient, of an existing type, is always accepted (with
   * enforcement off, whatever the ids).
   */
  lemma ExamenCreateAccepted(db: Database, patientId: Value, f: ExamenFields, clock: Clock)
    requires Examens in db.tables && ExamenWrite(patientId, None, f).Some? && patientId != Null
    requires db.foreignKeys ==>
      (HasRowWith(db, Patients, PatientId, patientId) && HasRowWith(db, TypesExamens, TypeExamenId, IdValue(f.typeId)))
    ensures Apply(db, ExamenWrite(patientId, None, f).value, clock).Ok?
  {
    var a := ExamenInsert(patientId, f);
    SingleInsert(db, Examens, a, clock);
    ExamenInsertColumns(patientId, IdValue(f.typeId), TrimOrNull(f.objet), Str(f.date), TrimOrNull(f.resultat), TrimOrNull(f.notes));
    ExamenInsertComplete(patientId, IdValue(f.typeId), TrimOrNull(f.objet), Str(f.date), TrimOrNull(f.resultat), TrimOrNull(f.notes));
    if db.foreignKeys {
      ExamenInsertParents(db, patientId, IdValue(f.typeId), TrimOrNull(f.objet), Str(f.date), TrimOrNull(f.resultat), TrimOrNull(f.notes));
    }
    StatementLaws.InsertAccepted(db, Examens, a, clock);
  }

  // ----- The three lists and their counters -----

  /** `WHERE patient_id = ?`, binding the screen's patient. */
  function ForPatient(patientId: Value): seq<Cond> {
    [Eq(PatientId, patientId)]
  }

  /** Row `r` belongs to the screen's patient. */
  predicate OfPatient(r: Row, patientId: Value) {
    patientId != Null && Get(r, PatientId) == patientId
  }

  lemma ForPatientSelects(r: Row, patientId: Value)
    ensures Satisfies(r, ForPatient(patientId)) <==> OfPatient(r, patientId)
  {
    assert ForPatient(patientId)[0] == Eq(PatientId, patientId);
  }

  /** The lists the screen shows: the patient's health data, consultations and examinations. */
  datatype FactLists = FactLists(donnees: seq<Row>, consultations: seq<Row>, examens: seq<Row>)

  /** `patientStats`: the number of entries of each list. */
  datatype Stats = Stats(donnees: nat, consultations: nat, examens: nat)

  function StatsOf(lists: FactLists): Stats {
    Stats(|lists.donnees|, |lists.consultations|, |lists.examens|)
  }

  /**
   * `loadData`, with the three queries of its `Promise.all` run one after the other: the layer
   * after them, and the three lists when every query answered (`None` when one of them threw, in
   * which case the screen keeps what it showed).
   */
  function Loaded(l: Layer, patientId: Value, env: Env): (p: (Layer, Option<FactLists>))
    requires Between(l)
    ensures Between(p.0)
  {
    var (l1, d) := Queried(l, Select(DonneesSanitaires, ForPatient(patientId)), env);
    var (l2, c) := Queried(l1, Select(Consultations, ForPatient(patientId)), env);
    var (l3, e) := Queried(l2, Select(Examens, ForPatient(patientId)), env);
    if RowsOf(d).Some? && RowsOf(c).Some? && RowsOf(e).Some? then
      (l3, Some(FactLists(RowsOf(d).value, RowsOf(c).value, RowsOf(e).value)))
    else (l3, None)
  }

  /** `Loaded` follows its three queries, one after the other. */
  lemma LoadedSteps(l0: Layer, l1: Layer, l2: Layer, l3: Layer, patientId: Value, env: Env,
                    d: Result<Answer, DbError>, c: Result<Answer, DbError>, e: Result<Answer, DbError>)
    requires Between(l0) && Between(l1) && Between(l2)
    requires (l1, d) == Queried(l0, Select(DonneesSanitaires, ForPatient(patientId)), env)
    requires (l2, c) == Queried(l1, Select(Consultations, ForPatient(patientId)), env)
    requires (l3, e) == Queried(l2, Select(Examens, ForPatient(patientId)), env)
    ensures Loaded(l0, patientId, env) == (l3,
      if RowsOf(d).Some? && RowsOf(c).Some? && RowsOf(e).Some? then
        Some(FactLists(RowsOf(d).value, RowsOf(c).value, RowsOf(e).value))
      else None)
  {
  }

  /** A query of one fact table for the patient: exactly its rows of that patient, from a ready layer. */
  lemma QueriedForPatient(l: Layer, t: TableName, patientId: Value, env: Env)
    requires Between(l) && (t == DonneesSanitaires || t == Consultations || t == Examens)
    requires RowsOf(Queried(l, Select(t, ForPatient(patientId)), env).1).Some?
    ensures var (l1, a) := Queried(l, Select(t, ForPatient(patientId)), env);
      && l1 == Ensured(l, env).0 && l1.state == Ready && t in l1.data.tables
      && forall r :: r in RowsOf(a).value <==> r in l1.data.tables[t].rows && OfPatient(r, patientId)
  {
    QueriedAfterInit(l, Select(t, ForPatient(patientId)), env);
    var data := Ensured(l, env).0.data;
    FormTablesColumnSets();
    assert PatientId in ColumnNames(Consultations) by { ConsultationsColumnSet(); }
    StatementLaws.SelectRows(data, t, ForPatient(patientId));
    forall r ensures Satisfies(r, ForPatient(patientId)) <==> OfPatient(r, patientId) {
      ForPatientSelects(r, patientId);
    }
  }

  /**
   * What `loadData` shows: each list holds exactly the rows of its table that belong to the
   * patient, read from the initialised file, which the loading itself does not change.
   */
  lemma LoadedLists(l: Layer, patientId: Value, env: Env)
    requires Between(l) && Loaded(l, patientId, env).1.Some?
    ensures var (l3, lists) := Loaded(l, patientId, env);
      && l3 == Ensured(l, env).0 && l3.state == Ready
      && DonneesSanitaires in l3.data.tables && Consultations in l3.data.tables && Examens in l3.data.tables
      && (forall r :: r in lists.value.donnees <==> r in l3.data.tables[DonneesSanitaires].rows && OfPatient(r, patientId))
      && (forall r :: r in lists.value.consultations <==> r in l3.data.tables[Consultations].rows && OfPatient(r, patientId))
      && (forall r :: r in lists.value.examens <==> r in l3.data.tables[Examens].rows && OfPatient(r, patientId))
  {
    var l1 := Queried(l, Select(DonneesSanitaires, ForPatient(patientId)), env).0;
    var l2 := Queried(l1, Select(Consultations, ForPatient(patientId)), env).0;
    QueriedForPatient(l, DonneesSanitaires, patientId, env);
    QueriedForPatient(l1, Consultations, patientId, env);
    QueriedForPatient(l2, Examens, patientId, env);
    EnsuredCases(l1, env);
    EnsuredCases(l2, env);
  }

  /** On a ready layer whose file has the three fact tables, loading always succeeds. */
  lemma LoadedOnReady(l: Layer, patientId: Value, env: Env)
    requires Between(l) && l.state == Ready
    requires DonneesSanitaires in l.data.tables && Consultations in l.data.tables && Examens in l.data.tables
    ensures Loaded(l, patientId, env).1.Some? && Loaded(l, patientId, env).0 == l
  {
    FormTablesColumnSets();
    ConsultationsColumnSet();
    StatementLaws.SelectRows(l.data, DonneesSanitaires, ForPatient(patientId));
    StatementLaws.SelectRows(l.data, Consultations, ForPatient(patientId));
    StatementLaws.SelectRows(l.data, Examens, ForPatient(patientId));
  }

  /** While the cached init has failed, loading rethrows and the lists stay as they were. */
  lemma LoadedAfterFailure(l: Layer, patientId: Value, env: Env)
    requires Between(l) && l.state.Failed?
    ensures Loaded(l, patientId, env) == (l, None)
  {
    QueriedAfterInit(l, Select(DonneesSanitaires, ForPatient(patientId)), env);
    QueriedAfterInit(l, Select(Consultations, ForPatient(patientId)), env);
    QueriedAfterInit(l, Select(Examens, ForPatient(patientId)), env);
    assert RowsOf(Err(l.state.error)).None?;
  }

  // ----- The screen -----

  /** The three tabs, which are also the three kinds of entry a form edits. */
  datatype Tab = DonneesTab | ConsultationsTab | ExamensTab

  /** `editingItem`: the kind of entry being edited and the row the list showed for it. */
  datatype Editing = Editing(kind: Tab, data: Row)

  function TableOf(kind: Tab): TableName {
    match kind
    case DonneesTab => DonneesSanitaires
    case ConsultationsTab => Consultations
    case ExamensTab => Examens
  }

  /**
   * `deleteItem`'s statement on a ready layer over a file whose references hold: it succeeds,
   * removes exactly the entries of that tab's table holding the id, and, as nothing references a
   * fact, leaves every other table as it was.
   */
  lemma ItemDeleted(l: Layer, kind: Tab, id: int, env: Env)
    requires Between(l) && l.state == Ready && l.data.foreignKeys && StoreLaws.Referential(l.data)
    requires TableOf(kind) in l.data.tables
    ensures var cmd := Delete(TableOf(kind), Cascade.ByKey(TableOf(kind), id));
      && Ran(l, cmd, env).1.Pass?
      && Ran(l, cmd, env).0.data.tables.Keys == l.data.tables.Keys
      && (forall r :: r in Ran(l, cmd, env).0.data.tables[TableOf(kind)].rows <==>
        r in l.data.tables[TableOf(kind)].rows && Get(r, KeyOf(TableOf(kind))) != Int(id))
      && forall u :: u in l.data.tables && u != TableOf(kind) ==> Ran(l, cmd, env).0.data.tables[u] == l.data.tables[u]
  {
    var t := TableOf(kind);
    assert t == DonneesSanitaires || t == Consultations || t == Examens || t == PiecesJointes;
    DataAccess.LeafDeleteRan(l, t, id, env);
    Cascade.DeleteLeafRow(l.data, t, id);
  }

  /** The `editingItem` prop a form receives: the row, when the entry being edited is of its kind. */
  function EditedFor(editing: Option<Editing>, kind: Tab): (item: Option<Row>)
    ensures item.Some? <==> editing.Some? && editing.value.kind == kind
    ensures item.Some? ==> item.value == editing.value.data
  {
    if editing.Some? && editing.value.kind == kind then Some(editing.value.data) else None
  }

  /** A statement, then `loadData` when it passed: the layer after both, the outcome, the lists loaded. */
  function RanThenLoaded(l: Layer, cmd: Command, patientId: Value, env: Env): (p: (Layer, Outcome<DbError>, Option<FactLists>))
    requires Between(l)
    ensures Between(p.0)
    ensures p.1 == Ran(l, cmd, env).1
    ensures p.1.Fail? ==> p.0 == Ran(l, cmd, env).0 && p.2.None?
  {
    var (l1, r) := Ran(l, cmd, env);
    if r.Fail? then (l1, r, None)
    else
      var (l2, lists) := Loaded(l1, patientId, env);
      (l2, r, lists)
  }

  /**
   * A new datum saved from the screen shows up in its list once the lists reload: the list holds
   * a row of the patient with the picked type, the trimmed value and the date.
   */
  lemma CreatedDonneeListed(l: Layer, patientId: Value, f: DonneeFields, env: Env)
    requires Between(l) && l.state == Ready && patientId != Null && DonneeWrite(patientId, None, f).Some?
    requires Apply(l.data, DonneeWrite(patientId, None, f).value, env.clock).Ok?
    requires Consultations in l.data.tables && Examens in l.data.tables
    ensures var (l2, r, loaded) := RanThenLoaded(l, DonneeWrite(patientId, None, f).value, patientId, env);
      && r.Pass? && loaded.Some?
      && exists row :: row in loaded.value.donnees && HoldsDonnee(row, f) && OfPatient(row, patientId)
  {
    var w := DonneeWrite(patientId, None, f).value;
    PassedThenLoaded(l, w, patientId, env);
    DonneeCreated(l.data, patientId, f, env.clock);
    DonneeListedOnLoad(l.(data := Apply(l.data, w, env.clock).value), patientId, f, env);
  }

  /** A statement that succeeds on a ready layer is followed by a load of the lists from the changed data. */
  lemma PassedThenLoaded(l: Layer, cmd: Command, patientId: Value, env: Env)
    requires Between(l) && l.state == Ready && Apply(l.data, cmd, env.clock).Ok?
    ensures var l1 := l.(data := Apply(l.data, cmd, env.clock).value);
      && Between(l1) && l1.state == Ready
      && RanThenLoaded(l, cmd, patientId, env) == (Loaded(l1, patientId, env).0, Pass, Loaded(l1, patientId, env).1)
  {
    RanReady(l, cmd, env);
  }

  /** On a ready layer, loading the lists lists every stored datum of the patient. */
  lemma DonneeListedOnLoad(l: Layer, patientId: Value, f: DonneeFields, env: Env)
    requires Between(l) && l.state == Ready
    requires DonneesSanitaires in l.data.tables && Consultations in l.data.tables && Examens in l.data.tables
    requires exists row :: row in l.data.tables[DonneesSanitaires].rows && HoldsDonnee(row, f) && Get(row, PatientId) == patientId
    requires patientId != Null
    ensures Loaded(l, patientId, env).1.Some?
    ensures exists row :: row in Loaded(l, patientId, env).1.value.donnees && HoldsDonnee(row, f) && OfPatient(row, patientId)
  {
    var row :| row in l.data.tables[DonneesSanitaires].rows && HoldsDonnee(row, f) && Get(row, PatientId) == patientId;
    LoadedOnReady(l, patientId, env);
    LoadedLists(l, patientId, env);
    assert row in Loaded(l, patientId, env).1.value.donnees;
  }

  class PatientDetailScreen {
    /** The data-access layer the screen's queries and statements go through. */
    const db: DataLayer
    /** `patient.patient_id`, from the navigation parameters. */
    const patientId: Value
    var activeTab: Tab
    var lists: FactLists
    var stats: Stats
    var showForm: bool
    var editingItem: Option<Editing>
    var showEditPatient: bool

    /** The layer is between calls, and the counters always give the length of each list. */
    predicate Valid()
      reads this, db
    {
      db.Valid() && stats == StatsOf(lists)
    }

    /** The screen as first rendered, before `loadData` has answered. */
    constructor(layer: DataLayer, patient: Value)
      requires layer.Valid()
      ensures Valid() && db == layer && patientId == patient
      ensures activeTab == DonneesTab && lists == FactLists([], [], []) && !showForm && editingItem.None? && !showEditPatient
    {
      db := layer;
      patientId := patient;
      activeTab := DonneesTab;
      lists := FactLists([], [], []);
      stats := Stats(0, 0, 0);
      showForm := false;
      editingItem := None;
      showEditPatient := false;
    }

    /** `loadData`: the three lists and their counters, or, when a query throws, what was shown. */
    method LoadData(env: Env)
      requires Valid()
      modifies this, db
      ensures Valid()
      ensures var (l, loaded) := Loaded(old(db.Snapshot()), patientId, env);
        db.Snapshot() == l && lists == (if loaded.Some? then loaded.value else old(lists))
      ensures activeTab == old(activeTab) && showForm == old(showForm) && editingItem == old(editingItem)
      ensures showEditPatient == old(showEditPatient)
    {
      var loaded := LoadLists(env);
      ShowLoaded(loaded);
    }

    /** `setDonnees`, `setConsultations`, `setExamens` and `setPatientStats`, once all three queries answered. */
    method ShowLoaded(loaded: Option<FactLists>)
      requires stats == StatsOf(lists)
      modifies this
      ensures lists == (if loaded.Some? then loaded.value else old(lists)) && stats == StatsOf(lists)
      ensures activeTab == old(activeTab) && showForm == old(showForm) && editingItem == old(editingItem)
      ensures showEditPatient == old(showEditPatient)
    {
      if loaded.Some? {
        lists := loaded.value;
        stats := Stats(|lists.donnees|, |lists.consultations|, |lists.examens|);
      }
    }

    /** The three queries of `loadData`, and the lists when all three answered. */
    method LoadLists(env: Env) returns (loaded: Option<FactLists>)
      requires Valid()
      modifies db
      ensures Valid()
      ensures (db.Snapshot(), loaded) == Loaded(old(db.Snapshot()), patientId, env)
    {
      ghost var l0 := db.Snapshot();
      var d := db.Query(Select(DonneesSanitaires, ForPatient(patientId)), env);
      ghost var l1 := db.Snapshot();
      var c := db.Query(Select(Consultations, ForPatient(patientId)), env);
      ghost var l2 := db.Snapshot();
      var e := db.Query(Select(Examens, ForPatient(patientId)), env);
      LoadedSteps(l0, l1, l2, db.Snapshot(), patientId, env, d, c, e);
      if RowsOf(d).Some? && RowsOf(c).Some? && RowsOf(e).Some? {
        loaded := Some(FactLists(RowsOf(d).value, RowsOf(c).value, RowsOf(e).value));
      } else {
        loaded := None;
      }
    }

    method SelectTab(tab: Tab)
      modifies this
      ensures activeTab == tab && lists == old(lists) && stats == old(stats) && showForm == old(showForm)
      ensures editingItem == old(editingItem) && showEditPatient == old(showEditPatient)
    {
      activeTab := tab;
    }

    /** The pencil of an entry: the form opens on that entry. */
    method StartEdit(kind: Tab, item: Row)
      modifies this
      ensures editingItem == Some(Editing(kind, item)) && showForm
      ensures activeTab == old(activeTab) && lists == old(lists) && stats == old(stats) && showEditPatient == old(showEditPatient)
    {
      editingItem := Some(Editing(kind, item));
      showForm := true;
    }

    /** A form's cancel button. */
    method CancelForm()
      modifies this
      ensures !showForm && editingItem.None?
      ensures activeTab == old(activeTab) && lists == old(lists) && stats == old(stats) && showEditPatient == old(showEditPatient)
    {
      showForm := false;
      editingItem := None;
    }

    /**
     * `deleteItem`: once the alert is confirmed, the DELETE of that entry by key, then a reload;
     * cancelled, nothing happens, and a failed DELETE only shows an alert.
     */
    method DeleteItem(kind: Tab, id: int, confirmed: bool, env: Env)
      requires Valid()
      modifies this, db
      ensures Valid()
      ensures !confirmed ==> db.Snapshot() == old(db.Snapshot()) && lists == old(lists)
      ensures confirmed ==>
        var (l, r, loaded) := RanThenLoaded(old(db.Snapshot()), Delete(TableOf(kind), Cascade.ByKey(TableOf(kind), id)), patientId, env);
        db.Snapshot() == l && lists == (if loaded.Some? then loaded.value else old(lists))
      ensures activeTab == old(activeTab) && showForm == old(showForm) && editingItem == old(editingItem)
      ensures showEditPatient == old(showEditPatient)
    {
      if confirmed {
        var r := RunThenLoad(Delete(TableOf(kind), Cascade.ByKey(TableOf(kind), id)), env);
      }
    }

    /** A statement, then, when it passes, a reload of the lists. */
    method RunThenLoad(cmd: Command, env: Env) returns (r: Outcome<DbError>)
      requires Valid()
      modifies this, db
      ensures Valid()
      ensures var (l, ran, loaded) := RanThenLoaded(old(db.Snapshot()), cmd, patientId, env);
        db.Snapshot() == l && r == ran && lists == (if loaded.Some? then loaded.value else old(lists))
      ensures activeTab == old(activeTab) && showForm == old(showForm) && editingItem == old(editingItem)
      ensures showEditPatient == old(showEditPatient)
    {
      r := db.Run(cmd, env);
      if r.Pass? {
        LoadData(env);
      }
    }

    /**
     * A form's submit: nothing when its checks refuse the fields (an alert); otherwise its
     * statement, and when that passes the form closes and the lists reload. A failed statement
     * leaves the form open.
     */
    method Submit(w: Option<Command>, env: Env)
      requires Valid()
      modifies this, db
      ensures Valid()
      ensures w.None? ==>
        db.Snapshot() == old(db.Snapshot()) && lists == old(lists) && showForm == old(showForm) && editingItem == old(editingItem)
      ensures w.Some? ==>
        var (l, r, loaded) := RanThenLoaded(old(db.Snapshot()), w.value, patientId, env);
        && db.Snapshot() == l && lists == (if loaded.Some? then loaded.value else old(lists))
        && (if r.Pass? then !showForm && editingItem.None? else showForm == old(showForm) && editingItem == old(editingItem))
      ensures activeTab == old(activeTab) && showEditPatient == old(showEditPatient)
    {
      if w.Some? {
        var r := db.Run(w.value, env);
        if r.Pass? {
          showForm := false;
          editingItem := None;
          LoadData(env);
        }
      }
    }

    /** `DonneeForm` submitted with `f`, editing the datum the screen is editing, if any. */
    method SubmitDonnee(f: DonneeFields, env: Env)
      requires Valid()
      modifies this, db
      ensures Valid()
      ensures var w := DonneeWrite(patientId, EditedFor(old(editingItem), DonneesTab), f);
        w.Some? ==>
          var (l, r, loaded) := RanThenLoaded(old(db.Snapshot()), w.value, patientId, env);
          db.Snapshot() == l && lists == (if loaded.Some? then loaded.value else old(lists)) && (r.Pass? ==> !showForm)
      ensures DonneeWrite(patientId, EditedFor(old(editingItem), DonneesTab), f).None? ==>
        db.Snapshot() == old(db.Snapshot()) && showForm == old(showForm)
    {
      Submit(DonneeWrite(patientId, EditedFor(editingItem, DonneesTab), f), env);
    }

    /** `ConsultationForm` submitted with `f`. */
    method SubmitConsultation(f: ConsultationFields, env: Env)
      requires Valid()
      modifies this, db
      ensures Valid()
      ensures var w := ConsultationWrite(patientId, EditedFor(old(editingItem), ConsultationsTab), f);
        w.Some? ==>
          var (l, r, loaded) := RanThenLoaded(old(db.Snapshot()), w.value, patientId, env);
          db.Snapshot() == l && lists == (if loaded.Some? then loaded.value else old(lists)) && (r.Pass? ==> !showForm)
      ensures ConsultationWrite(patientId, EditedFor(old(editingItem), ConsultationsTab), f).None? ==>
        db.Snapshot() == old(db.Snapshot()) && showForm == old(showForm)
    {
      Submit(ConsultationWrite(patientId, EditedFor(editingItem, ConsultationsTab), f), env);
    }

    /** `ExamenForm` submitted with `f`. */
    method SubmitExamen(f: ExamenFields, env: Env)
      requires Valid()
      modifies this, db
      ensures Valid()
      ensures var w := ExamenWrite(patientId, EditedFor(old(editingItem), ExamensTab), f);
        w.Some? ==>
          var (l, r, loaded) := RanThenLoaded(old(db.Snapshot()), w.value, patientId, env);
          db.Snapshot() == l && lists == (if loaded.Some? then loaded.value else old(lists)) && (r.Pass? ==> !showForm)
      ensures ExamenWrite(patientId, EditedFor(old(editingItem), ExamensTab), f).None? ==>
        db.Snapshot() == old(db.Snapshot()) && showForm == old(showForm)
    {
      Submit(ExamenWrite(patientId, EditedFor(editingItem, ExamensTab), f), env);
    }

    /** The edit form's statement, if any: on success the form closes; the lists are not reloaded. */
    method SavePatient(w: Option<Command>, env: Env)
      requires Valid()
      modifies this, db
      ensures Valid()
      ensures w.None? ==> db.Snapshot() == old(db.Snapshot()) && showEditPatient == old(showEditPatient)
      ensures w.Some? ==>
        var (l, r) := Ran(old(db.Snapshot()), w.value, env);
        db.Snapshot() == l && showEditPatient == (if r.Pass? then false else old(showEditPatient))
      ensures lists == old(lists) && showForm == old(showForm) && editingItem == old(editingItem) && activeTab == old(activeTab)
    {
      if w.Some? {
        ghost var l0 := db.Snapshot();
        var r := db.Run(w.value, env);
        assert lists == old(lists) && showForm == old(showForm) && editingItem == old(editingItem) && activeTab == old(activeTab);
        assert (db.Snapshot(), r) == Ran(l0, w.value, env);
        if r.Pass? {
          showEditPatient := false;
        }
      }
    }

    /** `EditPatientForm` submitted with `f` for `patient`. */
    method SubmitPatientEdit(patient: Row, f: PatientFields, env: Env)
      requires Valid()
      modifies this, db
      ensures Valid()
      ensures EditPatientWrite(patient, f).None? ==> db.Snapshot() == old(db.Snapshot()) && showEditPatient == old(showEditPatient)
      ensures EditPatientWrite(patient, f).Some? ==>
        var (l, r) := Ran(old(db.Snapshot()), EditPatientWrite(patient, f).value, env);
        db.Snapshot() == l && showEditPatient == (if r.Pass? then false else old(showEditPatient))
      ensures lists == old(lists) && showForm == old(showForm) && editingItem == old(editingItem) && activeTab == old(activeTab)
    {
      SavePatient(EditPatientWrite(patient, f), env);
    }
  }
}
