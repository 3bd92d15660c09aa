/**
 * `seedDatabase`: the reference data and the example data the application stores on first start.
 * Each of the four reference tables gets its fixture rows when its count, read before any insert,
 * is 0; the example facts are inserted when `donnees_sanitaires` is empty. Every statement is its
 * own transaction, and the first error ends the seeding silently, keeping what was stored before it.
 */
module DbSeed {
  import opened Wrappers
  import opened Schema
  import opened Store
  import JS = JsValue
  import StoreLaws
  import StatementLaws

  // ----- Reading a count -----

  /** The `safeParseInt` of `seedDatabase`: `parseInt(String(value || '0'), 10)`, with `NaN` read as 0. */
  function SafeParseInt(v: JS.JsValue): int {
    match JS.ParseInt(JS.StringOf(if JS.Truthy(v) then v else JS.Str("0")))
    case None => 0
    case Some(n) => n
  }

  /** A number is read back unchanged, 0 included. */
  lemma SafeParseIntOfNumber(n: int)
    ensures SafeParseInt(JS.Num(n)) == n
  {
    JS.ParseIntOfString(n);
    if n == 0 {
      assert JS.IntToString(0) == "0";
    }
  }

  /** A missing value (`undefined`, `null`, `''`, `false`) counts as 0. */
  lemma SafeParseIntOfFalsy(v: JS.JsValue)
    requires !JS.Truthy(v)
    ensures SafeParseInt(v) == 0
  {
    SafeParseIntOfNumber(0);
    assert JS.IntToString(0) == "0";
  }

  /** A text with no leading digits (`NaN`) counts as 0. */
  lemma SafeParseIntOfNaN(s: string)
    requires JS.ParseInt(s).None?
    ensures SafeParseInt(JS.Str(s)) == 0
  {
    if s == [] {
      SafeParseIntOfFalsy(JS.Str(s));
    } else {
      assert JS.Truthy(JS.Str(s)) && JS.StringOf(JS.Str(s)) == s;
    }
  }

  /** `const [pc] = getAllAsync('SELECT COUNT(*) as c FROM t')`, then `safeParseInt(pc?.c)`. */
  function CountOf(db: Database, t: TableName): Result<int, SqlError> {
    match Eval(db, Count(t))
    case Err(e) => Err(e)
    case Ok(answer) => Ok(SafeParseInt(if answer.Counted? then JS.Num(answer.count) else JS.Undefined))
  }

  /** On an existing table the count read is its number of rows; on a missing one it is an error. */
  lemma CountOfTable(db: Database, t: TableName)
    ensures t in db.tables ==> CountOf(db, t) == Ok(|db.tables[t].rows|)
    ensures t !in db.tables ==> CountOf(db, t) == Err(NoSuchTable(t))
  {
    if t in db.tables {
      SafeParseIntOfNumber(|db.tables[t].rows|);
    }
  }

  // ----- The fixtures -----

  function Patient(nom: string, prenom: string, naissance: string, sexe: string, adresse: string, telephone: string): Assignments {
    [(Nom, Str(nom)), (Prenom, Str(prenom)), (DateNaissance, Str(naissance)), (Sexe, Str(sexe)),
     (Adresse, Str(adresse)), (Telephone, Str(telephone))]
  }

  const PatientRows: seq<Assignments> := [
    Patient("Dupont", "Marie", "1990-06-15", "F", "12 Rue des Fleurs, Paris", "0600000001"),
    Patient("Martin", "Jean", "1985-03-22", "M", "8 Avenue Victor Hugo, Lyon", "0600000002"),
    Patient("Bernard", "Luc", "1978-11-02", "M", "5 Boulevard Saint-Michel, Paris", "0600000003")]

  /** A row of one of the three type tables. */
  function TypeRow(nom: string, description: string): Assignments {
    [(NomType, Str(nom)), (Description, Str(description))]
  }

  const TypeDonneeRows: seq<Assignments> := [
    TypeRow("Groupe sanguin", "ABO et Rhésus"),
    TypeRow("Poids", "Poids en kilogrammes"),
    TypeRow("Taille", "Taille en centimètres")]

  const TypeConsultationRows: seq<Assignments> := [
    TypeRow("Généraliste", "Consultation de médecine générale"),
    TypeRow("Cardiologie", "Consultation de cardiologie")]

  const TypeExamenRows: seq<Assignments> := [
    TypeRow("Sanguin", "Bilan sanguin"),
    TypeRow("Radiographie", "Imagerie médicale")]

  function Donnee(patient: int, typ: int, valeur: string): Assignments {
    [(PatientId, Int(patient)), (TypeDonneeId, Int(typ)), (Valeur, Str(valeur))]
  }

  const DonneeRows: seq<Assignments> := [
    Donnee(1, 1, "A+"), Donnee(1, 2, "62"), Donnee(1, 3, "170"), Donnee(2, 1, "O-"), Donnee(2, 2, "80")]

  /** The example consultations name `diagnostic` and `traitement`, which the table does not declare. */
  function Visit(patient: int, typ: int, diagnostic: string, traitement: string): Assignments {
    [(PatientId, Int(patient)), (TypeConsultationId, Int(typ)), (Diagnostic, Str(diagnostic)),
     (Traitement, Str(traitement))]
  }

  const ConsultationRows: seq<Assignments> := [
    Visit(1, 1, "État de santé général satisfaisant", "Aucun traitement nécessaire"),
    Visit(2, 2, "Hypertension artérielle légère", "Ramipril 5mg 1x/jour, suivi dans 3 mois")]

  function Exam(patient: int, typ: int, resultat: string, notes: string): Assignments {
    [(PatientId, Int(patient)), (TypeExamenId, Int(typ)), (Resultat, Str(resultat)), (Notes, Str(notes))]
  }

  const ExamenRows: seq<Assignments> := [
    Exam(2, 1, "Cholestérol total 2.1 g/L", "Suivi conseillé"),
    Exam(1, 2, "Radio thoracique normale", "Aucun signe inquiétant")]

  // ----- Running the seed -----

  /** Where a run of statements got to: the database, and the error that stopped it, if any. */
  datatype Progress = Progress(db: Database, failure: Option<SqlError>)

  /** Statements run in order, each in its own transaction; the first error stops the run. */
  function RunAll(db: Database, cmds: seq<Command>, clock: Clock): Progress
    decreases |cmds|
  {
    if cmds == [] then Progress(db, None)
    else
      match Apply(db, cmds[0], clock)
      case Err(e) => Progress(db, Some(e))
      case Ok(next) => RunAll(next, cmds[1..], clock)
  }

  /** The four counts read before any insert. */
  datatype Counts = Counts(patients: int, typesDonnees: int, typesConsultations: int, typesExamens: int)

  function EntityCounts(db: Database): Result<Counts, SqlError> {
    match CountOf(db, Patients)
    case Err(e) => Err(e)
    case Ok(pc) =>
      match CountOf(db, TypesDonnees)
      case Err(e) => Err(e)
      case Ok(tdc) =>
        match CountOf(db, TypesConsultations)
        case Err(e) => Err(e)
        case Ok(tcc) =>
          match CountOf(db, TypesExamens)
          case Err(e) => Err(e)
          case Ok(tec) => Ok(Counts(pc, tdc, tcc, tec))
  }

  /** An INSERT of `rows` into `t` when the count read is 0, and nothing otherwise. */
  function InsertIfEmpty(count: int, t: TableName, rows: seq<Assignments>): seq<Command> {
    if count == 0 then [Insert(t, rows)] else []
  }

  /** The reference-data inserts the four counts call for, in source order. */
  function EntitySteps(c: Counts): seq<Command> {
    InsertIfEmpty(c.patients, Patients, PatientRows)
    + InsertIfEmpty(c.typesDonnees, TypesDonnees, TypeDonneeRows)
    + InsertIfEmpty(c.typesConsultations, TypesConsultations, TypeConsultationRows)
    + InsertIfEmpty(c.typesExamens, TypesExamens, TypeExamenRows)
  }

  /** The example-data inserts, run when `donnees_sanitaires` is empty. */
  const SampleSteps: seq<Command> := [
    Insert(DonneesSanitaires, DonneeRows), Insert(Consultations, ConsultationRows), Insert(Examens, ExamenRows)]

  /** The database after `seedDatabase`; seeding never fails, whatever error stops it. */
  function Seed(db: Database, clock: Clock): Database {
    match EntityCounts(db)
    case Err(_) => db
    case Ok(counts) =>
      var first := RunAll(db, EntitySteps(counts), clock);
      if first.failure.Some? then first.db
      else
        match CountOf(first.db, DonneesSanitaires)
        case Err(_) => first.db
        case Ok(dc) => if dc == 0 then RunAll(first.db, SampleSteps, clock).db else first.db
  }

  // ----- The fixtures against the schema -----

  /** The reference fixture of an entity table. */
  function Fixture(t: TableName): seq<Assignments> {
    match t
    case Patients => PatientRows
    case TypesDonnees => TypeDonneeRows
    case TypesConsultations => TypeConsultationRows
    case TypesExamens => TypeExamenRows
    case _ => []
  }

  /** The four tables whose rows the seed reads before any insert; none has a foreign key. */
  predicate IsEntity(t: TableName) {
    t == Patients || t == TypesDonnees || t == TypesConsultations || t == TypesExamens
  }

  /** A multi-row INSERT whose every row is complete. */
  lemma {:induction false} EachComplete(t: TableName, rows: seq<Assignments>)
    requires forall i :: 0 <= i < |rows| ==> InsertError(t, rows[i]).None? && StatementLaws.Complete(t, rows[i])
    ensures StatementLaws.AllComplete(t, rows)
    decreases |rows|
  {
    if rows != [] {
      assert forall i :: 0 <= i < |rows[1..]| ==> rows[1..][i] == rows[i + 1];
      EachComplete(t, rows[1..]);
    }
  }

  lemma PatientColumnsKnown(nom: string, prenom: string, naissance: string, sexe: string, adresse: string, telephone: string)
    ensures InsertError(Patients, Patient(nom, prenom, naissance, sexe, adresse, telephone)).None?
  {
    PatientsColumnSet();
    StatementLaws.RunAccepted(Patients, Patient(nom, prenom, naissance, sexe, adresse, telephone),
      [PatientId, Nom, Prenom, DateNaissance, Sexe, Adresse, Telephone, CreatedAt, UpdatedAt], 1);
  }

  lemma PatientComplete(nom: string, prenom: string, naissance: string, sexe: string, adresse: string, telephone: string)
    ensures InsertError(Patients, Patient(nom, prenom, naissance, sexe, adresse, telephone)).None?
    ensures StatementLaws.Complete(Patients, Patient(nom, prenom, naissance, sexe, adresse, telephone))
  {
    PatientColumnsKnown(nom, prenom, naissance, sexe, adresse, telephone);
    forall k | 0 <= k < |Def(Patients).columns| && Def(Patients).columns[k].notNull
      ensures Def(Patients).columns[k].name in Columns(Patient(nom, prenom, naissance, sexe, adresse, telephone))
      ensures Lookup(Patient(nom, prenom, naissance, sexe, adresse, telephone), Def(Patients).columns[k].name).value != Null
    {
      assert k == 1 || k == 2;
      assert Columns(Patient(nom, prenom, naissance, sexe, adresse, telephone))[k - 1] == Def(Patients).columns[k].name;
    }
  }

  lemma TypeRowComplete(t: TableName, nom: string, description: string)
    requires t == TypesDonnees || t == TypesConsultations || t == TypesExamens
    ensures InsertError(t, TypeRow(nom, description)).None?
    ensures StatementLaws.Complete(t, TypeRow(nom, description))
  {
    TypeRowColumnsKnown(t, nom, description);
    TypeRowFilled(t, nom, description);
  }

  lemma TypeRowColumnsKnown(t: TableName, nom: string, description: string)
    requires t == TypesDonnees || t == TypesConsultations || t == TypesExamens
    ensures InsertError(t, TypeRow(nom, description)).None?
  {
    assert ColumnNames(t) == [KeyOf(t), NomType, Description];
    StatementLaws.RunAccepted(t, TypeRow(nom, description), [KeyOf(t), NomType, Description], 1);
  }

  lemma TypeRowFilled(t: TableName, nom: string, description: string)
    requires t == TypesDonnees || t == TypesConsultations || t == TypesExamens
    ensures StatementLaws.Complete(t, TypeRow(nom, description))
  {
    assert Def(t).columns == TypeColumns(KeyOf(t));
    StatementLaws.CompleteByRun(t, TypeRow(nom, description), TypeColumns(KeyOf(t)), 1);
  }

  lemma DonneeComplete(patient: int, typ: int, valeur: string)
    ensures InsertError(DonneesSanitaires, Donnee(patient, typ, valeur)).None?
    ensures StatementLaws.Complete(DonneesSanitaires, Donnee(patient, typ, valeur))
  {
    DonneeColumnsKnown(patient, typ, valeur);
    DonneeFilled(patient, typ, valeur);
  }

  lemma DonneeColumnsKnown(patient: int, typ: int, valeur: string)
    ensures InsertError(DonneesSanitaires, Donnee(patient, typ, valeur)).None?
  {
    DonneesColumnSet();
    StatementLaws.RunAccepted(DonneesSanitaires, Donnee(patient, typ, valeur),
      [DonneeId, PatientId, TypeDonneeId, Valeur, DateEnregistrement], 1);
  }

  lemma DonneeFilled(patient: int, typ: int, valeur: string)
    ensures StatementLaws.Complete(DonneesSanitaires, Donnee(patient, typ, valeur))
  {
    StatementLaws.CompleteByRun(DonneesSanitaires, Donnee(patient, typ, valeur), DonneesColumns(), 1);
  }

  lemma PatientsFixture()
    ensures StatementLaws.AllComplete(Patients, PatientRows)
  {
    var rows := PatientRows;
    forall i | 0 <= i < |rows|
      ensures InsertError(Patients, rows[i]).None? && StatementLaws.Complete(Patients, rows[i])
    {
      if i == 0 {
        PatientComplete("Dupont", "Marie", "1990-06-15", "F", "12 Rue des Fleurs, Paris", "0600000001");
      } else if i == 1 {
        PatientComplete("Martin", "Jean", "1985-03-22", "M", "8 Avenue Victor Hugo, Lyon", "0600000002");
      } else {
        PatientComplete("Bernard", "Luc", "1978-11-02", "M", "5 Boulevard Saint-Michel, Paris", "0600000003");
      }
    }
    EachComplete(Patients, rows);
  }

  lemma TypesDonneesFixture()
    ensures StatementLaws.AllComplete(TypesDonnees, TypeDonneeRows)
  {
    var rows := TypeDonneeRows;
    forall i | 0 <= i < |rows|
      ensures InsertError(TypesDonnees, rows[i]).None? && StatementLaws.Complete(TypesDonnees, rows[i])
    {
      if i == 0 {
        TypeRowComplete(TypesDonnees, "Groupe sanguin", "ABO et Rhésus");
      } else if i == 1 {
        TypeRowComplete(TypesDonnees, "Poids", "Poids en kilogrammes");
      } else {
        TypeRowComplete(TypesDonnees, "Taille", "Taille en centimètres");
      }
    }
    EachComplete(TypesDonnees, rows);
  }

  lemma TypesConsultationsFixture()
    ensures StatementLaws.AllComplete(TypesConsultations, TypeConsultationRows)
  {
    var rows := TypeConsultationRows;
    forall i | 0 <= i < |rows|
      ensures InsertError(TypesConsultations, rows[i]).None? && StatementLaws.Complete(TypesConsultations, rows[i])
    {
      if i == 0 {
        TypeRowComplete(TypesConsultations, "Généraliste", "Consultation de médecine générale");
      } else {
        TypeRowComplete(TypesConsultations, "Cardiologie", "Consultation de cardiologie");
      }
    }
    EachComplete(TypesConsultations, rows);
  }

  lemma TypesExamensFixture()
    ensures StatementLaws.AllComplete(TypesExamens, TypeExamenRows)
  {
    var rows := TypeExamenRows;
    forall i | 0 <= i < |rows|
      ensures InsertError(TypesExamens, rows[i]).None? && StatementLaws.Complete(TypesExamens, rows[i])
    {
      if i == 0 {
        TypeRowComplete(TypesExamens, "Sanguin", "Bilan sanguin");
      } else {
        TypeRowComplete(TypesExamens, "Radiographie", "Imagerie médicale");
      }
    }
    EachComplete(TypesExamens, rows);
  }

  /** The database holds the four entity tables. */
  predicate HasEntityTables(db: Database) {
    Patients in db.tables && TypesDonnees in db.tables && TypesConsultations in db.tables && TypesExamens in db.tables
  }

  /** Every reference fixture row names only declared non-key columns and fills every NOT NULL one. */
  lemma FixturesComplete(t: TableName)
    requires IsEntity(t)
    ensures StatementLaws.AllComplete(t, Fixture(t))
  {
    match t
    case Patients => PatientsFixture();
    case TypesDonnees => TypesDonneesFixture();
    case TypesConsultations => TypesConsultationsFixture();
    case TypesExamens => TypesExamensFixture();
  }

  /** The example facts name declared non-key columns and fill the NOT NULL ones. */
  lemma DonneesComplete()
    ensures StatementLaws.AllComplete(DonneesSanitaires, DonneeRows)
  {
    var rows := DonneeRows;
    forall i | 0 <= i < |rows|
      ensures InsertError(DonneesSanitaires, rows[i]).None? && StatementLaws.Complete(DonneesSanitaires, rows[i])
    {
      if i == 0 {
        DonneeComplete(1, 1, "A+");
      } else if i == 1 {
        DonneeComplete(1, 2, "62");
      } else if i == 2 {
        DonneeComplete(1, 3, "170");
      } else if i == 3 {
        DonneeComplete(2, 1, "O-");
      } else {
        DonneeComplete(2, 2, "80");
      }
    }
    EachComplete(DonneesSanitaires, rows);
  }

  /** An example consultation names `diagnostic`, the first column the table lacks. */
  lemma VisitRejected(patient: int, typ: int, diagnostic: string, traitement: string)
    ensures InsertError(Consultations, Visit(patient, typ, diagnostic, traitement)) == Some(NoSuchColumn(Consultations, Diagnostic))
  {
    assert Columns(Visit(patient, typ, diagnostic, traitement)) == [PatientId, TypeConsultationId, Diagnostic, Traitement];
    VisitColumnsUnknown();
  }

  lemma VisitColumnsUnknown()
    ensures Unknown(Consultations, [PatientId, TypeConsultationId, Diagnostic, Traitement]) == Some(Diagnostic)
  {
    ConsultationsColumnSet();
    StatementLaws.UnknownAt(Consultations, [PatientId, TypeConsultationId, Diagnostic, Traitement],
      [ConsultationId, PatientId, TypeConsultationId, DateConsultation, Notes], 2);
  }

  /** The example consultations cannot be stored, so the seed stops before the example examinations. */
  lemma ConsultationsRejected(db: Database, clock: Clock)
    requires Consultations in db.tables
    ensures Apply(db, Insert(Consultations, ConsultationRows), clock) == Err(NoSuchColumn(Consultations, Diagnostic))
  {
    VisitRejected(1, 1, "État de santé général satisfaisant", "Aucun traitement nécessaire");
  }

  /** The example consultations are never stored, whatever the database. */
  lemma ConsultationsNeverStored(db: Database, clock: Clock)
    ensures Apply(db, Insert(Consultations, ConsultationRows), clock).Err?
  {
    if Consultations in db.tables {
      ConsultationsRejected(db, clock);
    }
  }

  // ----- Runs of INSERT statements -----

  /** Running two lists of statements is running the first and, if it did not fail, the second. */
  lemma {:induction false} RunAllAppend(db: Database, a: seq<Command>, b: seq<Command>, clock: Clock)
    ensures RunAll(db, a + b, clock)
      == if RunAll(db, a, clock).failure.Some? then RunAll(db, a, clock) else RunAll(RunAll(db, a, clock).db, b, clock)
    decreases |a|
  {
    if a == [] {
      assert a + b == b;
    } else {
      assert (a + b)[0] == a[0] && (a + b)[1..] == a[1..] + b;
      match Apply(db, a[0], clock) {
        case Err(e) =>
        case Ok(next) => RunAllAppend(next, a[1..], b, clock);
      }
    }
  }

  /** Statements that are all INSERTs of at least one row, as every statement of the seed is. */
  predicate Inserts(cmds: seq<Command>) {
    forall i :: 0 <= i < |cmds| ==> cmds[i].Insert? && cmds[i].rows != []
  }

  /** `d` is `db` with rows added at the end of some tables: same tables, same enforcement flag. */
  predicate Extends(db: Database, d: Database) {
    && d.foreignKeys == db.foreignKeys
    && (forall u :: u in d.tables <==> u in db.tables)
    && forall u :: u in db.tables ==> db.tables[u].rows <= d.tables[u].rows && db.tables[u].lastId <= d.tables[u].lastId
  }

  lemma ExtendsTrans(a: Database, b: Database, c: Database)
    requires Extends(a, b) && Extends(b, c)
    ensures Extends(a, c)
  {
    forall u | u in a.tables
      ensures a.tables[u].rows <= c.tables[u].rows
    {
      var x, y, z := a.tables[u].rows, b.tables[u].rows, c.tables[u].rows;
      assert x == y[..|x|] && y == z[..|y|];
      assert z[..|y|][..|x|] == z[..|x|];
    }
  }

  /** An INSERT of some rows that succeeds adds them, built in order, at the end of its table. */
  lemma InsertStored(db: Database, t: TableName, rows: seq<Assignments>, clock: Clock)
    requires rows != [] && Apply(db, Insert(t, rows), clock).Ok?
    ensures t in db.tables
    ensures Apply(db, Insert(t, rows), clock).value
      == StatementLaws.Filled(db, t, StatementLaws.NewRows(t, rows, db.tables[t].lastId + 1, clock))
  {
    StoreLaws.InsertRowShape(db, t, rows[0], clock);
    StatementLaws.InsertRowsStored(db, t, rows, clock);
  }

  lemma FilledExtends(db: Database, t: TableName, built: seq<Row>)
    requires t in db.tables
    ensures Extends(db, StatementLaws.Filled(db, t, built))
    ensures forall u :: u in db.tables && u != t ==> StatementLaws.Filled(db, t, built).tables[u] == db.tables[u]
  {
  }

  /** A run of INSERTs only ever adds rows, keeping every table and the enforcement flag. */
  lemma {:induction false} RunAllExtends(db: Database, cmds: seq<Command>, clock: Clock)
    requires Inserts(cmds)
    ensures Extends(db, RunAll(db, cmds, clock).db)
    decreases |cmds|
  {
    if cmds != [] {
      match Apply(db, cmds[0], clock) {
        case Err(e) =>
        case Ok(next) =>
          InsertExtends(db, cmds[0], clock);
          InsertsTail(cmds);
          RunAllExtends(next, cmds[1..], clock);
          ExtendsTrans(db, next, RunAll(next, cmds[1..], clock).db);
      }
    }
  }

  /** One INSERT that succeeds only adds rows. */
  lemma InsertExtends(db: Database, cmd: Command, clock: Clock)
    requires cmd.Insert? && cmd.rows != [] && Apply(db, cmd, clock).Ok?
    ensures Extends(db, Apply(db, cmd, clock).value)
  {
    assert cmd == Insert(cmd.table, cmd.rows);
    InsertStored(db, cmd.table, cmd.rows, clock);
    FilledExtends(db, cmd.table, StatementLaws.NewRows(cmd.table, cmd.rows, db.tables[cmd.table].lastId + 1, clock));
  }

  lemma InsertsTail(cmds: seq<Command>)
    requires Inserts(cmds) && cmds != []
    ensures Inserts(cmds[1..])
  {
    assert forall i :: 0 <= i < |cmds[1..]| ==> cmds[1..][i] == cmds[i + 1];
  }

  /** A run of INSERTs leaves every table it does not insert into as it was. */
  lemma {:induction false} RunAllLeaves(db: Database, cmds: seq<Command>, clock: Clock, u: TableName)
    requires Inserts(cmds) && u in db.tables
    requires forall i :: 0 <= i < |cmds| ==> cmds[i].table != u
    ensures u in RunAll(db, cmds, clock).db.tables && RunAll(db, cmds, clock).db.tables[u] == db.tables[u]
    decreases |cmds|
  {
    if cmds != [] {
      match Apply(db, cmds[0], clock) {
        case Err(e) =>
        case Ok(next) =>
          InsertStored(db, cmds[0].table, cmds[0].rows, clock);
          FilledExtends(db, cmds[0].table, StatementLaws.NewRows(cmds[0].table, cmds[0].rows, db.tables[cmds[0].table].lastId + 1, clock));
          assert forall i :: 0 <= i < |cmds[1..]| ==> cmds[1..][i] == cmds[i + 1];
          RunAllLeaves(next, cmds[1..], clock, u);
      }
    }
  }

  /** Every statement that succeeds keeps the keys of every table increasing: so does a run. */
  lemma {:induction false} RunAllKeyed(db: Database, cmds: seq<Command>, clock: Clock)
    requires StoreLaws.Keyed(db)
    ensures StoreLaws.Keyed(RunAll(db, cmds, clock).db)
    decreases |cmds|
  {
    if cmds != [] {
      match Apply(db, cmds[0], clock) {
        case Err(e) =>
        case Ok(next) =>
          StoreLaws.ApplyKeepsKeyed(db, cmds[0], clock);
          RunAllKeyed(next, cmds[1..], clock);
      }
    }
  }

  /** With enforcement on, every INSERT that succeeds keeps every reference valid: so does a run. */
  lemma {:induction false} RunAllReferential(db: Database, cmds: seq<Command>, clock: Clock)
    requires Inserts(cmds) && db.foreignKeys && StoreLaws.Referential(db)
    ensures StoreLaws.Referential(RunAll(db, cmds, clock).db)
    decreases |cmds|
  {
    if cmds != [] {
      match Apply(db, cmds[0], clock) {
        case Err(e) =>
        case Ok(next) =>
          StoreLaws.ApplyKeepsReferential(db, cmds[0], clock);
          InsertStored(db, cmds[0].table, cmds[0].rows, clock);
          assert forall i :: 0 <= i < |cmds[1..]| ==> cmds[1..][i] == cmds[i + 1];
          RunAllReferential(next, cmds[1..], clock);
      }
    }
  }

  // ----- The two phases of the seed -----

  /** A table as the first phase leaves it: with `rows` added when it was empty. */
  function FillIf(db: Database, t: TableName, rows: seq<Assignments>, empty: bool, clock: Clock): (d: Database)
    requires t in db.tables
    ensures HasEntityTables(db) ==> HasEntityTables(d)
  {
    if empty then StatementLaws.Filled(db, t, StatementLaws.NewRows(t, rows, db.tables[t].lastId + 1, clock))
    else db
  }

  /** Filling a table keeps the others as they were. */
  lemma FillIfFilled(db: Database, t: TableName, rows: seq<Assignments>, clock: Clock, id: nat)
    requires t in db.tables && id == db.tables[t].lastId + 1
    ensures FillIf(db, t, rows, true, clock) == StatementLaws.Filled(db, t, StatementLaws.NewRows(t, rows, id, clock))
  {
  }

  lemma FillIfLeaves(db: Database, t: TableName, rows: seq<Assignments>, empty: bool, clock: Clock, u: TableName)
    requires t in db.tables && u in db.tables && u != t
    ensures u in FillIf(db, t, rows, empty, clock).tables && FillIf(db, t, rows, empty, clock).tables[u] == db.tables[u]
  {
    if empty {
      FillIfFilled(db, t, rows, clock, db.tables[t].lastId + 1);
    }
  }

  /** What a fill leaves in its own table depends on that table alone. */
  lemma FillIfSameTable(db: Database, d: Database, t: TableName, rows: seq<Assignments>, empty: bool, clock: Clock)
    requires t in db.tables && t in d.tables && d.tables[t] == db.tables[t]
    ensures FillIf(d, t, rows, empty, clock).tables[t] == FillIf(db, t, rows, empty, clock).tables[t]
  {
    if empty {
      var id := db.tables[t].lastId + 1;
      var built := StatementLaws.NewRows(t, rows, id, clock);
      FillIfFilled(db, t, rows, clock, id);
      FillIfFilled(d, t, rows, clock, id);
      FilledOwn(db, t, built);
      FilledOwn(d, t, built);
    }
  }

  /** Filling `t` appends the built rows to it and moves its counter past them. */
  lemma FilledOwn(db: Database, t: TableName, built: seq<Row>)
    requires t in db.tables
    ensures StatementLaws.Filled(db, t, built).tables[t] == Table(db.tables[t].rows + built, db.tables[t].lastId + |built|)
  {
  }

  lemma FillIfExtends(db: Database, t: TableName, rows: seq<Assignments>, empty: bool, clock: Clock)
    requires t in db.tables
    ensures Extends(db, FillIf(db, t, rows, empty, clock))
  {
    if empty {
      FillIfFilled(db, t, rows, clock, db.tables[t].lastId + 1);
      FilledExtends(db, t, StatementLaws.NewRows(t, rows, db.tables[t].lastId + 1, clock));
    } else {
      assert FillIf(db, t, rows, empty, clock) == db;
    }
  }

  /** The database after the first phase, given the four counts read before it. */
  function EntitySeeded(db: Database, c: Counts, clock: Clock): Database
    requires HasEntityTables(db)
  {
    var d1 := FillIf(db, Patients, PatientRows, c.patients == 0, clock);
    var d2 := FillIf(d1, TypesDonnees, TypeDonneeRows, c.typesDonnees == 0, clock);
    var d3 := FillIf(d2, TypesConsultations, TypeConsultationRows, c.typesConsultations == 0, clock);
    FillIf(d3, TypesExamens, TypeExamenRows, c.typesExamens == 0, clock)
  }

  /** Entity tables have no foreign key, so nothing needs to exist before their rows go in. */
  lemma {:induction false} NoParentsNeeded(db: Database, t: TableName, rows: seq<Assignments>)
    requires IsEntity(t)
    ensures StatementLaws.AllParentsExist(db, t, rows)
    decreases |rows|
  {
    if rows != [] {
      NoParentsNeeded(db, t, rows[1..]);
    }
  }

  /** A run of one statement. */
  /** A run of one statement stops with its error, or ends on its result. */
  lemma RunSingle(db: Database, cmd: Command, clock: Clock)
    ensures Apply(db, cmd, clock).Err? ==> RunAll(db, [cmd], clock) == Progress(db, Some(Apply(db, cmd, clock).error))
    ensures Apply(db, cmd, clock).Ok? ==> RunAll(db, [cmd], clock) == Progress(Apply(db, cmd, clock).value, None)
  {
    assert [cmd][1..] == [];
  }

  lemma RunOne(db: Database, cmd: Command, clock: Clock, next: Database)
    requires Apply(db, cmd, clock) == Ok(next)
    ensures RunAll(db, [cmd], clock) == Progress(next, None)
  {
    assert [cmd][1..] == [];
  }

  /** An INSERT of complete rows into a table without foreign keys always succeeds. */
  lemma InsertEntity(db: Database, t: TableName, rows: seq<Assignments>, clock: Clock)
    requires IsEntity(t) && t in db.tables && StatementLaws.AllComplete(t, rows)
    ensures Apply(db, Insert(t, rows), clock)
      == Ok(StatementLaws.Filled(db, t, StatementLaws.NewRows(t, rows, db.tables[t].lastId + 1, clock)))
  {
    NoParentsNeeded(db, t, rows);
    StatementLaws.InsertRowsAccepted(db, t, rows, clock);
  }

  /** The conditional insert of an entity fixture adds it exactly when the count read was 0. */
  lemma InsertIfEmptyRuns(db: Database, count: int, t: TableName, rows: seq<Assignments>, clock: Clock)
    requires IsEntity(t) && t in db.tables && StatementLaws.AllComplete(t, rows)
    ensures RunAll(db, InsertIfEmpty(count, t, rows), clock) == Progress(FillIf(db, t, rows, count == 0, clock), None)
  {
    if count == 0 {
      InsertEntity(db, t, rows, clock);
      FillIfFilled(db, t, rows, clock, db.tables[t].lastId + 1);
      RunOne(db, Insert(t, rows), clock, FillIf(db, t, rows, true, clock));
    }
  }

  /** The first phase never fails once the four tables exist, and fills exactly the empty ones. */
  lemma EntityStepsRun(db: Database, c: Counts, clock: Clock)
    requires HasEntityTables(db)
    ensures RunAll(db, EntitySteps(c), clock) == Progress(EntitySeeded(db, c, clock), None)
  {
    var s1 := InsertIfEmpty(c.patients, Patients, PatientRows);
    var s2 := InsertIfEmpty(c.typesDonnees, TypesDonnees, TypeDonneeRows);
    var s3 := InsertIfEmpty(c.typesConsultations, TypesConsultations, TypeConsultationRows);
    var s4 := InsertIfEmpty(c.typesExamens, TypesExamens, TypeExamenRows);
    var d1 := FillIf(db, Patients, PatientRows, c.patients == 0, clock);
    var d2 := FillIf(d1, TypesDonnees, TypeDonneeRows, c.typesDonnees == 0, clock);
    var d3 := FillIf(d2, TypesConsultations, TypeConsultationRows, c.typesConsultations == 0, clock);
    PatientsFixture();
    TypesDonneesFixture();
    TypesConsultationsFixture();
    TypesExamensFixture();
    InsertIfEmptyRuns(db, c.patients, Patients, PatientRows, clock);
    InsertIfEmptyRuns(d1, c.typesDonnees, TypesDonnees, TypeDonneeRows, clock);
    InsertIfEmptyRuns(d2, c.typesConsultations, TypesConsultations, TypeConsultationRows, clock);
    InsertIfEmptyRuns(d3, c.typesExamens, TypesExamens, TypeExamenRows, clock);
    RunAllAppend(db, s1, s2, clock);
    RunAllAppend(db, s1 + s2, s3, clock);
    RunAllAppend(db, s1 + s2 + s3, s4, clock);
  }

  // The first phase table by table: each fill leaves the other tables as they were.

  function AfterPatients(db: Database, c: Counts, clock: Clock): Database
    requires HasEntityTables(db)
  {
    FillIf(db, Patients, PatientRows, c.patients == 0, clock)
  }

  function AfterTypesDonnees(db: Database, c: Counts, clock: Clock): Database
    requires HasEntityTables(db)
  {
    FillIf(AfterPatients(db, c, clock), TypesDonnees, TypeDonneeRows, c.typesDonnees == 0, clock)
  }

  function AfterTypesConsultations(db: Database, c: Counts, clock: Clock): Database
    requires HasEntityTables(db)
  {
    FillIf(AfterTypesDonnees(db, c, clock), TypesConsultations, TypeConsultationRows, c.typesConsultations == 0, clock)
  }

  lemma EntitySeededSteps(db: Database, c: Counts, clock: Clock)
    requires HasEntityTables(db)
    ensures EntitySeeded(db, c, clock)
      == FillIf(AfterTypesConsultations(db, c, clock), TypesExamens, TypeExamenRows, c.typesExamens == 0, clock)
  {
  }

  /** The first phase only adds rows. */
  lemma EntitySeededExtends(db: Database, c: Counts, clock: Clock)
    requires HasEntityTables(db)
    ensures Extends(db, EntitySeeded(db, c, clock))
  {
    EntitySeededSteps(db, c, clock);
    var d1, d2, d3 := AfterPatients(db, c, clock), AfterTypesDonnees(db, c, clock), AfterTypesConsultations(db, c, clock);
    FillIfExtends(db, Patients, PatientRows, c.patients == 0, clock);
    assert TypesDonnees in d1.tables;
    FillIfExtends(d1, TypesDonnees, TypeDonneeRows, c.typesDonnees == 0, clock);
    assert TypesConsultations in d2.tables;
    FillIfExtends(d2, TypesConsultations, TypeConsultationRows, c.typesConsultations == 0, clock);
    assert TypesExamens in d3.tables;
    FillIfExtends(d3, TypesExamens, TypeExamenRows, c.typesExamens == 0, clock);
    ExtendsChain(db, d1, d2, d3, EntitySeeded(db, c, clock));
  }

  lemma ExtendsChain(a: Database, b: Database, c: Database, d: Database, e: Database)
    requires Extends(a, b) && Extends(b, c) && Extends(c, d) && Extends(d, e)
    ensures Extends(a, e)
  {
    ExtendsTrans(a, b, c);
    ExtendsTrans(a, c, d);
    ExtendsTrans(a, d, e);
  }

  /** The first phase leaves every table other than the four entity tables as it was. */
  lemma EntitySeededLeaves(db: Database, c: Counts, clock: Clock, u: TableName)
    requires HasEntityTables(db) && u in db.tables && !IsEntity(u)
    ensures u in EntitySeeded(db, c, clock).tables && EntitySeeded(db, c, clock).tables[u] == db.tables[u]
  {
    EntitySeededSteps(db, c, clock);
    FillIfLeaves(db, Patients, PatientRows, c.patients == 0, clock, u);
    FillIfLeaves(AfterPatients(db, c, clock), TypesDonnees, TypeDonneeRows, c.typesDonnees == 0, clock, u);
    FillIfLeaves(AfterTypesDonnees(db, c, clock), TypesConsultations, TypeConsultationRows, c.typesConsultations == 0, clock, u);
    FillIfLeaves(AfterTypesConsultations(db, c, clock), TypesExamens, TypeExamenRows, c.typesExamens == 0, clock, u);
  }

  /** The first phase leaves an entity table with its fixture added exactly when its count was 0. */
  lemma EntitySeededAt(db: Database, c: Counts, clock: Clock, t: TableName)
    requires HasEntityTables(db) && IsEntity(t)
    ensures EntitySeeded(db, c, clock).tables[t] == FillIf(db, t, Fixture(t), CountFor(c, t) == 0, clock).tables[t]
  {
    EntitySeededSteps(db, c, clock);
    match t {
      case TypesExamens => TypesExamensSeeded(db, c, clock);
      case TypesConsultations => TypesConsultationsSeeded(db, c, clock);
      case TypesDonnees => TypesDonneesSeeded(db, c, clock);
      case Patients => PatientsSeeded(db, c, clock);
    }
  }

  lemma TypesExamensSeeded(db: Database, c: Counts, clock: Clock)
    requires HasEntityTables(db)
    ensures FillIf(AfterTypesConsultations(db, c, clock), TypesExamens, TypeExamenRows, c.typesExamens == 0, clock).tables[TypesExamens]
      == FillIf(db, TypesExamens, TypeExamenRows, c.typesExamens == 0, clock).tables[TypesExamens]
  {
    var d1, d2 := AfterPatients(db, c, clock), AfterTypesDonnees(db, c, clock);
    FillIfLeaves(d2, TypesConsultations, TypeConsultationRows, c.typesConsultations == 0, clock, TypesExamens);
    FillIfLeaves(d1, TypesDonnees, TypeDonneeRows, c.typesDonnees == 0, clock, TypesExamens);
    FillIfLeaves(db, Patients, PatientRows, c.patients == 0, clock, TypesExamens);
    FillIfSameTable(db, AfterTypesConsultations(db, c, clock), TypesExamens, TypeExamenRows, c.typesExamens == 0, clock);
  }

  lemma TypesConsultationsSeeded(db: Database, c: Counts, clock: Clock)
    requires HasEntityTables(db)
    ensures FillIf(AfterTypesConsultations(db, c, clock), TypesExamens, TypeExamenRows, c.typesExamens == 0, clock).tables[TypesConsultations]
      == FillIf(db, TypesConsultations, TypeConsultationRows, c.typesConsultations == 0, clock).tables[TypesConsultations]
  {
    var d1, d2, d3 := AfterPatients(db, c, clock), AfterTypesDonnees(db, c, clock), AfterTypesConsultations(db, c, clock);
    FillIfLeaves(d3, TypesExamens, TypeExamenRows, c.typesExamens == 0, clock, TypesConsultations);
    FillIfLeaves(d1, TypesDonnees, TypeDonneeRows, c.typesDonnees == 0, clock, TypesConsultations);
    FillIfLeaves(db, Patients, PatientRows, c.patients == 0, clock, TypesConsultations);
    FillIfSameTable(db, d2, TypesConsultations, TypeConsultationRows, c.typesConsultations == 0, clock);
  }

  lemma TypesDonneesSeeded(db: Database, c: Counts, clock: Clock)
    requires HasEntityTables(db)
    ensures FillIf(AfterTypesConsultations(db, c, clock), TypesExamens, TypeExamenRows, c.typesExamens == 0, clock).tables[TypesDonnees]
      == FillIf(db, TypesDonnees, TypeDonneeRows, c.typesDonnees == 0, clock).tables[TypesDonnees]
  {
    var d1, d2, d3 := AfterPatients(db, c, clock), AfterTypesDonnees(db, c, clock), AfterTypesConsultations(db, c, clock);
    FillIfLeaves(d3, TypesExamens, TypeExamenRows, c.typesExamens == 0, clock, TypesDonnees);
    FillIfLeaves(d2, TypesConsultations, TypeConsultationRows, c.typesConsultations == 0, clock, TypesDonnees);
    FillIfLeaves(db, Patients, PatientRows, c.patients == 0, clock, TypesDonnees);
    FillIfSameTable(db, d1, TypesDonnees, TypeDonneeRows, c.typesDonnees == 0, clock);
  }

  lemma PatientsSeeded(db: Database, c: Counts, clock: Clock)
    requires HasEntityTables(db)
    ensures FillIf(AfterTypesConsultations(db, c, clock), TypesExamens, TypeExamenRows, c.typesExamens == 0, clock).tables[Patients]
      == AfterPatients(db, c, clock).tables[Patients]
  {
    var d1, d2, d3 := AfterPatients(db, c, clock), AfterTypesDonnees(db, c, clock), AfterTypesConsultations(db, c, clock);
    FillIfLeaves(d3, TypesExamens, TypeExamenRows, c.typesExamens == 0, clock, Patients);
    FillIfLeaves(d2, TypesConsultations, TypeConsultationRows, c.typesConsultations == 0, clock, Patients);
    FillIfLeaves(d1, TypesDonnees, TypeDonneeRows, c.typesDonnees == 0, clock, Patients);
  }

  /** The count the first phase read for entity table `t`. */
  function CountFor(c: Counts, t: TableName): int {
    match t
    case Patients => c.patients
    case TypesDonnees => c.typesDonnees
    case TypesConsultations => c.typesConsultations
    case _ => c.typesExamens
  }

  /**
   * The second phase stops at the example consultations at the latest: it ends with the example
   * facts added if their insert succeeds, and nothing otherwise.
   */
  lemma SampleStops(db: Database, clock: Clock)
    ensures RunAll(db, SampleSteps, clock).failure.Some?
    ensures RunAll(db, SampleSteps, clock).db
      == match Apply(db, Insert(DonneesSanitaires, DonneeRows), clock) { case Ok(next) => next case Err(_) => db }
  {
    match Apply(db, Insert(DonneesSanitaires, DonneeRows), clock) {
      case Err(e) =>
      case Ok(next) =>
        ConsultationsNeverStored(next, clock);
        assert SampleSteps[1..][0] == Insert(Consultations, ConsultationRows);
    }
  }

  // ----- What the seed does -----

  /** The counts as read on a database that holds the four entity tables. */
  function TableCounts(db: Database): Counts
    requires HasEntityTables(db)
  {
    Counts(|db.tables[Patients].rows|, |db.tables[TypesDonnees].rows|,
           |db.tables[TypesConsultations].rows|, |db.tables[TypesExamens].rows|)
  }

  /** The four counts are read without error exactly when the four tables exist. */
  lemma EntityCountsRead(db: Database)
    ensures HasEntityTables(db) ==> EntityCounts(db) == Ok(TableCounts(db))
    ensures !HasEntityTables(db) ==> EntityCounts(db).Err?
  {
    CountOfTable(db, Patients);
    CountOfTable(db, TypesDonnees);
    CountOfTable(db, TypesConsultations);
    CountOfTable(db, TypesExamens);
  }

  lemma CountForTable(db: Database, t: TableName)
    requires HasEntityTables(db) && IsEntity(t)
    ensures CountFor(TableCounts(db), t) == |db.tables[t].rows|
  {
  }

  /** The second phase, on the database the first one left. */
  function Examples(d: Database, clock: Clock): Database {
    match CountOf(d, DonneesSanitaires)
    case Err(_) => d
    case Ok(dc) => if dc == 0 then RunAll(d, SampleSteps, clock).db else d
  }

  /** The first phase on the counts read, then the second. */
  function Phased(db: Database, clock: Clock): Database
    requires HasEntityTables(db)
  {
    Examples(EntitySeeded(db, TableCounts(db), clock), clock)
  }

  /** Once the four entity tables exist, the seed is the first phase followed by the second. */
  lemma SeedPhases(db: Database, clock: Clock)
    requires HasEntityTables(db)
    ensures Seed(db, clock) == Phased(db, clock)
  {
    EntityCountsRead(db);
    EntityStepsRun(db, TableCounts(db), clock);
  }

  /** Without the four entity tables the seed stops at the first count and changes nothing. */
  lemma SeedWithoutEntityTables(db: Database, clock: Clock)
    requires !HasEntityTables(db)
    ensures Seed(db, clock) == db
  {
    EntityCountsRead(db);
  }

  /** The example facts are inserted when `donnees_sanitaires` exists and is empty. */
  predicate WantsExamples(d: Database) {
    DonneesSanitaires in d.tables && |d.tables[DonneesSanitaires].rows| == 0
  }

  /** When the example facts are not wanted, the second phase changes nothing. */
  lemma ExamplesNotWanted(d: Database, clock: Clock)
    requires !WantsExamples(d)
    ensures Examples(d, clock) == d
  {
    CountOfTable(d, DonneesSanitaires);
  }

  /** When the example facts are not wanted, or their insert fails, the second phase changes nothing. */
  lemma ExamplesSkipped(d: Database, clock: Clock)
    requires !WantsExamples(d) || Apply(d, Insert(DonneesSanitaires, DonneeRows), clock).Err?
    ensures Examples(d, clock) == d
  {
    CountOfTable(d, DonneesSanitaires);
    if WantsExamples(d) {
      SampleStops(d, clock);
    }
  }

  /**
   * When they are wanted and their insert succeeds, the second phase adds exactly the example facts
   * and then stops at the example consultations.
   */
  lemma ExamplesAdded(d: Database, clock: Clock)
    requires WantsExamples(d) && Apply(d, Insert(DonneesSanitaires, DonneeRows), clock).Ok?
    ensures Examples(d, clock)
      == StatementLaws.Filled(d, DonneesSanitaires, StatementLaws.NewRows(DonneesSanitaires, DonneeRows, d.tables[DonneesSanitaires].lastId + 1, clock))
  {
    CountOfTable(d, DonneesSanitaires);
    SampleStops(d, clock);
    InsertStored(d, DonneesSanitaires, DonneeRows, clock);
  }

  /** The second phase only adds rows, and only to `donnees_sanitaires`. */
  lemma ExamplesExtends(d: Database, clock: Clock)
    ensures Extends(d, Examples(d, clock))
    ensures forall u :: u in d.tables && u != DonneesSanitaires ==> Examples(d, clock).tables[u] == d.tables[u]
  {
    if WantsExamples(d) && Apply(d, Insert(DonneesSanitaires, DonneeRows), clock).Ok? {
      ExamplesAdded(d, clock);
      FilledExtends(d, DonneesSanitaires, StatementLaws.NewRows(DonneesSanitaires, DonneeRows, d.tables[DonneesSanitaires].lastId + 1, clock));
    } else {
      ExamplesSkipped(d, clock);
    }
  }

  lemma PhasedEntityTable(db: Database, clock: Clock, t: TableName)
    requires HasEntityTables(db) && IsEntity(t)
    ensures t in Phased(db, clock).tables
    ensures Phased(db, clock).tables[t] == FillIf(db, t, Fixture(t), |db.tables[t].rows| == 0, clock).tables[t]
  {
    EntitySeededExtends(db, TableCounts(db), clock);
    EntitySeededAt(db, TableCounts(db), clock, t);
    CountForTable(db, t);
    ExamplesExtends(EntitySeeded(db, TableCounts(db), clock), clock);
  }

  lemma PhasedExtends(db: Database, clock: Clock)
    requires HasEntityTables(db)
    ensures Extends(db, Phased(db, clock))
  {
    EntitySeededExtends(db, TableCounts(db), clock);
    ExamplesExtends(EntitySeeded(db, TableCounts(db), clock), clock);
    ExtendsTrans(db, EntitySeeded(db, TableCounts(db), clock), Phased(db, clock));
  }

  lemma PhasedLeaves(db: Database, clock: Clock, u: TableName)
    requires HasEntityTables(db) && u in db.tables && !IsEntity(u) && u != DonneesSanitaires
    ensures u in Phased(db, clock).tables && Phased(db, clock).tables[u] == db.tables[u]
  {
    EntitySeededLeaves(db, TableCounts(db), clock, u);
    ExamplesExtends(EntitySeeded(db, TableCounts(db), clock), clock);
  }

  lemma PhasedSkipsExamples(db: Database, clock: Clock)
    requires HasEntityTables(db) && DonneesSanitaires in db.tables && |db.tables[DonneesSanitaires].rows| > 0
    ensures DonneesSanitaires in Phased(db, clock).tables
    ensures Phased(db, clock).tables[DonneesSanitaires] == db.tables[DonneesSanitaires]
  {
    EntitySeededLeaves(db, TableCounts(db), clock, DonneesSanitaires);
    ExamplesNotWanted(EntitySeeded(db, TableCounts(db), clock), clock);
  }

  /**
   * Each entity table gets its fixture, under the next keys, exactly when its count read before any
   * insert was 0; otherwise it is left as it was.
   */
  lemma SeedEntityTable(db: Database, clock: Clock, t: TableName)
    requires HasEntityTables(db) && IsEntity(t)
    ensures t in Seed(db, clock).tables
    ensures Seed(db, clock).tables[t] == FillIf(db, t, Fixture(t), |db.tables[t].rows| == 0, clock).tables[t]
  {
    SeedPhases(db, clock);
    PhasedEntityTable(db, clock, t);
  }

  /** The seed adds rows and nothing else: every table keeps its rows as a prefix, and the flag is unchanged. */
  lemma SeedExtends(db: Database, clock: Clock)
    ensures Extends(db, Seed(db, clock))
  {
    if HasEntityTables(db) {
      SeedPhases(db, clock);
      PhasedExtends(db, clock);
    } else {
      SeedWithoutEntityTables(db, clock);
    }
  }

  /** The seed never changes the consultations, the examinations or the attachments. */
  lemma SeedLeaves(db: Database, clock: Clock, u: TableName)
    requires u in db.tables && !IsEntity(u) && u != DonneesSanitaires
    ensures u in Seed(db, clock).tables && Seed(db, clock).tables[u] == db.tables[u]
  {
    if HasEntityTables(db) {
      SeedPhases(db, clock);
      PhasedLeaves(db, clock, u);
    } else {
      SeedWithoutEntityTables(db, clock);
    }
  }

  /** Example facts already present: `donnees_sanitaires` is left as it was. */
  lemma SeedKeepsDonnees(db: Database, clock: Clock)
    requires DonneesSanitaires in db.tables && |db.tables[DonneesSanitaires].rows| > 0
    ensures DonneesSanitaires in Seed(db, clock).tables
    ensures Seed(db, clock).tables[DonneesSanitaires] == db.tables[DonneesSanitaires]
  {
    if HasEntityTables(db) {
      SeedPhases(db, clock);
      PhasedSkipsExamples(db, clock);
    } else {
      SeedWithoutEntityTables(db, clock);
    }
  }

  // ----- The first start -----

  /** The database right after the creation script on a new file: enforcement on, every table empty. */
  predicate Fresh(db: Database) {
    db.foreignKeys && forall t :: t in db.tables && db.tables[t] == Table([], 0)
  }

  /** A table whose rows are exactly those a multi-row INSERT built from key 1 holds keys 1, 2, … */
  lemma KeyPresent(d: Database, t: TableName, rows: seq<Assignments>, clock: Clock, i: nat, c: ColumnName, k: int)
    requires t in d.tables && d.tables[t].rows == StatementLaws.NewRows(t, rows, 1, clock) && i < |rows|
    requires c == KeyOf(t) && k == 1 + i
    ensures HasRowWith(d, t, c, Int(k))
  {
    StatementLaws.NewRowsKeys(t, rows, 1, clock, i);
  }

  /** An example fact whose patient and data type exist points at existing rows. */
  lemma DonneeParents(d: Database, patient: int, typ: int, valeur: string)
    requires HasRowWith(d, Patients, PatientId, Int(patient)) && HasRowWith(d, TypesDonnees, TypeDonneeId, Int(typ))
    ensures StatementLaws.ParentsExist(d, DonneesSanitaires, Donnee(patient, typ, valeur))
  {
    assert Columns(Donnee(patient, typ, valeur)) == [PatientId, TypeDonneeId, Valeur];
  }

  lemma {:induction false} EachParents(d: Database, t: TableName, rows: seq<Assignments>)
    requires forall i :: 0 <= i < |rows| ==> StatementLaws.ParentsExist(d, t, rows[i])
    ensures StatementLaws.AllParentsExist(d, t, rows)
    decreases |rows|
  {
    if rows != [] {
      assert forall i :: 0 <= i < |rows[1..]| ==> rows[1..][i] == rows[i + 1];
      EachParents(d, t, rows[1..]);
    }
  }

  /** Filling an empty table with a fresh counter stores exactly the rows built from key 1. */
  lemma FillIfEmptyTable(db: Database, t: TableName, rows: seq<Assignments>, clock: Clock)
    requires t in db.tables && db.tables[t] == Table([], 0)
    ensures FillIf(db, t, rows, true, clock).tables[t] == Table(StatementLaws.NewRows(t, rows, 1, clock), |rows|)
  {
    FillIfFilled(db, t, rows, clock, db.tables[t].lastId + 1);
    assert [] + StatementLaws.NewRows(t, rows, 1, clock) == StatementLaws.NewRows(t, rows, 1, clock);
  }

  /** The example facts point at patients 1 and 2 and at data types 1 to 3. */
  lemma DonneesParentsExist(d: Database)
    requires HasRowWith(d, Patients, PatientId, Int(1)) && HasRowWith(d, Patients, PatientId, Int(2))
    requires HasRowWith(d, TypesDonnees, TypeDonneeId, Int(1)) && HasRowWith(d, TypesDonnees, TypeDonneeId, Int(2))
    requires HasRowWith(d, TypesDonnees, TypeDonneeId, Int(3))
    ensures StatementLaws.AllParentsExist(d, DonneesSanitaires, DonneeRows)
  {
    DonneeParents(d, 1, 1, "A+");
    DonneeParents(d, 1, 2, "62");
    DonneeParents(d, 1, 3, "170");
    DonneeParents(d, 2, 1, "O-");
    DonneeParents(d, 2, 2, "80");
    ParentsOfFive(d, DonneesSanitaires, Donnee(1, 1, "A+"), Donnee(1, 2, "62"), Donnee(1, 3, "170"), Donnee(2, 1, "O-"), Donnee(2, 2, "80"));
  }

  lemma ParentsOfFive(d: Database, t: TableName, a: Assignments, b: Assignments, c: Assignments, e: Assignments, f: Assignments)
    requires StatementLaws.ParentsExist(d, t, a) && StatementLaws.ParentsExist(d, t, b) && StatementLaws.ParentsExist(d, t, c)
    requires StatementLaws.ParentsExist(d, t, e) && StatementLaws.ParentsExist(d, t, f)
    ensures StatementLaws.AllParentsExist(d, t, [a, b, c, e, f])
  {
    ParentsCons(d, t, f, []);
    ParentsCons(d, t, e, [f]);
    ParentsCons(d, t, c, [e, f]);
    ParentsCons(d, t, b, [c, e, f]);
    ParentsCons(d, t, a, [b, c, e, f]);
  }

  lemma ParentsCons(d: Database, t: TableName, a: Assignments, rest: seq<Assignments>)
    requires StatementLaws.ParentsExist(d, t, a) && StatementLaws.AllParentsExist(d, t, rest)
    ensures StatementLaws.AllParentsExist(d, t, [a] + rest)
  {
    assert ([a] + rest)[0] == a && ([a] + rest)[1..] == rest;
  }

  /**
   * Once the patients are the rows of an INSERT of at least two and the data types those of an
   * INSERT of at least three, both from key 1, every example fact has its parents.
   */
  lemma SeededParents(d: Database, clock: Clock, patients: seq<Assignments>, types: seq<Assignments>)
    requires |patients| >= 2 && |types| >= 3
    requires Patients in d.tables && d.tables[Patients].rows == StatementLaws.NewRows(Patients, patients, 1, clock)
    requires TypesDonnees in d.tables && d.tables[TypesDonnees].rows == StatementLaws.NewRows(TypesDonnees, types, 1, clock)
    ensures StatementLaws.AllParentsExist(d, DonneesSanitaires, DonneeRows)
  {
    PatientsPresent(d, clock, patients);
    TypesPresent(d, clock, types);
    DonneesParentsExist(d);
  }

  lemma PatientsPresent(d: Database, clock: Clock, patients: seq<Assignments>)
    requires |patients| >= 2
    requires Patients in d.tables && d.tables[Patients].rows == StatementLaws.NewRows(Patients, patients, 1, clock)
    ensures HasRowWith(d, Patients, PatientId, Int(1)) && HasRowWith(d, Patients, PatientId, Int(2))
  {
    KeyPresent(d, Patients, patients, clock, 0, PatientId, 1);
    KeyPresent(d, Patients, patients, clock, 1, PatientId, 2);
  }

  lemma TypesPresent(d: Database, clock: Clock, types: seq<Assignments>)
    requires |types| >= 3
    requires TypesDonnees in d.tables && d.tables[TypesDonnees].rows == StatementLaws.NewRows(TypesDonnees, types, 1, clock)
    ensures HasRowWith(d, TypesDonnees, TypeDonneeId, Int(1)) && HasRowWith(d, TypesDonnees, TypeDonneeId, Int(2))
    ensures HasRowWith(d, TypesDonnees, TypeDonneeId, Int(3))
  {
    KeyPresent(d, TypesDonnees, types, clock, 0, TypeDonneeId, 1);
    KeyPresent(d, TypesDonnees, types, clock, 1, TypeDonneeId, 2);
    KeyPresent(d, TypesDonnees, types, clock, 2, TypeDonneeId, 3);
  }

  /** On a fresh database the first phase gives each entity table exactly its fixture, under keys 1, 2, … */
  lemma FreshEntity(db: Database, clock: Clock, t: TableName)
    requires Fresh(db) && IsEntity(t)
    ensures EntitySeeded(db, TableCounts(db), clock).tables[t] == Table(StatementLaws.NewRows(t, Fixture(t), 1, clock), |Fixture(t)|)
  {
    EntitySeededAt(db, TableCounts(db), clock, t);
    CountForTable(db, t);
    FillIfEmptyTable(db, t, Fixture(t), clock);
  }

  /** After the first phase on a fresh database, patients 1 and 2 and data types 1 to 3 exist. */
  lemma FreshParents(db: Database, clock: Clock)
    requires Fresh(db)
    ensures StatementLaws.AllParentsExist(EntitySeeded(db, TableCounts(db), clock), DonneesSanitaires, DonneeRows)
  {
    FreshEntity(db, clock, Patients);
    FreshEntity(db, clock, TypesDonnees);
    EntitySeededExtends(db, TableCounts(db), clock);
    SeededParents(EntitySeeded(db, TableCounts(db), clock), clock, PatientRows, TypeDonneeRows);
  }

  /**
   * On an empty `donnees_sanitaires` whose parents exist, the second phase stores the five example
   * facts under keys 1 to 5.
   */
  lemma ExamplesOnEmpty(d: Database, clock: Clock)
    requires DonneesSanitaires in d.tables && d.tables[DonneesSanitaires] == Table([], 0)
    requires d.foreignKeys ==> StatementLaws.AllParentsExist(d, DonneesSanitaires, DonneeRows)
    ensures DonneesSanitaires in Examples(d, clock).tables
    ensures Examples(d, clock).tables[DonneesSanitaires] == Table(StatementLaws.NewRows(DonneesSanitaires, DonneeRows, 1, clock), 5)
  {
    DonneesAccepted(d, clock);
    ExamplesAdded(d, clock);
    FilledOnEmpty(d, DonneesSanitaires, StatementLaws.NewRows(DonneesSanitaires, DonneeRows, 1, clock));
  }

  /** The example facts are accepted once their table exists and, under enforcement, their parents do. */
  lemma DonneesAccepted(d: Database, clock: Clock)
    requires DonneesSanitaires in d.tables
    requires d.foreignKeys ==> StatementLaws.AllParentsExist(d, DonneesSanitaires, DonneeRows)
    ensures Apply(d, Insert(DonneesSanitaires, DonneeRows), clock).Ok?
  {
    DonneesComplete();
    StatementLaws.InsertRowsAccepted(d, DonneesSanitaires, DonneeRows, clock);
  }

  /** Appending to an empty table with a fresh counter leaves exactly the new rows, counted. */
  lemma FilledOnEmpty(d: Database, t: TableName, built: seq<Row>)
    requires t in d.tables && d.tables[t] == Table([], 0)
    ensures StatementLaws.Filled(d, t, built).tables[t] == Table(built, |built|)
  {
    assert [] + built == built;
  }

  /** On a fresh database the second phase stores the five example facts under keys 1 to 5. */
  lemma FreshExamples(db: Database, clock: Clock)
    requires Fresh(db)
    ensures DonneesSanitaires in Phased(db, clock).tables
    ensures Phased(db, clock).tables[DonneesSanitaires] == Table(StatementLaws.NewRows(DonneesSanitaires, DonneeRows, 1, clock), 5)
  {
    EntitySeededLeaves(db, TableCounts(db), clock, DonneesSanitaires);
    FreshParents(db, clock);
    ExamplesOnEmpty(EntitySeeded(db, TableCounts(db), clock), clock);
  }

  /** On a fresh database the seed gives each entity table exactly its fixture, under keys from 1. */
  lemma PhasedFreshEntity(db: Database, clock: Clock, t: TableName)
    requires Fresh(db) && IsEntity(t)
    ensures t in Phased(db, clock).tables
    ensures Phased(db, clock).tables[t] == Table(StatementLaws.NewRows(t, Fixture(t), 1, clock), |Fixture(t)|)
  {
    PhasedEntityTable(db, clock, t);
    FillIfEmptyTable(db, t, Fixture(t), clock);
  }

  /** On a fresh database the seed leaves the consultations, examinations and attachments empty. */
  lemma PhasedFreshUntouched(db: Database, clock: Clock, u: TableName)
    requires Fresh(db) && !IsEntity(u) && u != DonneesSanitaires
    ensures u in Phased(db, clock).tables && Phased(db, clock).tables[u] == Table([], 0)
  {
    PhasedLeaves(db, clock, u);
  }

  /** The seed's effect on a fresh database, table by table. */
  lemma PhasedFreshAt(db: Database, clock: Clock, t: TableName)
    requires Fresh(db)
    ensures t in Phased(db, clock).tables
    ensures IsEntity(t) ==> Phased(db, clock).tables[t] == Table(StatementLaws.NewRows(t, Fixture(t), 1, clock), |Fixture(t)|)
    ensures t == DonneesSanitaires ==> Phased(db, clock).tables[t] == Table(StatementLaws.NewRows(t, DonneeRows, 1, clock), 5)
    ensures !IsEntity(t) && t != DonneesSanitaires ==> Phased(db, clock).tables[t] == Table([], 0)
  {
    if IsEntity(t) {
      PhasedFreshEntity(db, clock, t);
    } else if t == DonneesSanitaires {
      FreshExamples(db, clock);
    } else {
      PhasedFreshUntouched(db, clock, t);
    }
  }

  /**
   * The first start: on a fresh database the seed stores each entity table's fixture (three
   * patients; three, two and two types) and the five example facts under keys from 1, and leaves
   * the consultations, examinations and attachments empty.
   */
  lemma SeedFresh(db: Database, clock: Clock)
    requires Fresh(db)
    ensures Seed(db, clock).foreignKeys
    ensures forall t :: t in Seed(db, clock).tables
    ensures forall t :: IsEntity(t) ==> Seed(db, clock).tables[t] == Table(StatementLaws.NewRows(t, Fixture(t), 1, clock), |Fixture(t)|)
    ensures Seed(db, clock).tables[DonneesSanitaires] == Table(StatementLaws.NewRows(DonneesSanitaires, DonneeRows, 1, clock), 5)
    ensures forall t :: !IsEntity(t) && t != DonneesSanitaires ==> Seed(db, clock).tables[t] == Table([], 0)
  {
    SeedPhases(db, clock);
    PhasedExtends(db, clock);
    forall t ensures t in Phased(db, clock).tables
      && (IsEntity(t) ==> Phased(db, clock).tables[t] == Table(StatementLaws.NewRows(t, Fixture(t), 1, clock), |Fixture(t)|))
      && (t == DonneesSanitaires ==> Phased(db, clock).tables[t] == Table(StatementLaws.NewRows(t, DonneeRows, 1, clock), 5))
      && (!IsEntity(t) && t != DonneesSanitaires ==> Phased(db, clock).tables[t] == Table([], 0))
    {
      PhasedFreshAt(db, clock, t);
    }
  }

  // ----- Running the seed again -----

  /** The four entity tables exist and none of them is empty. */
  predicate Stocked(d: Database) {
    && HasEntityTables(d)
    && |d.tables[Patients].rows| > 0 && |d.tables[TypesDonnees].rows| > 0
    && |d.tables[TypesConsultations].rows| > 0 && |d.tables[TypesExamens].rows| > 0
  }

  /** Over four non-empty entity tables the first phase inserts nothing. */
  lemma EntitySeededStocked(d: Database, clock: Clock)
    requires Stocked(d)
    ensures EntitySeeded(d, TableCounts(d), clock) == d
  {
    assert FillIf(d, Patients, PatientRows, false, clock) == d;
  }

  lemma FixtureNonEmpty(t: TableName)
    requires IsEntity(t)
    ensures |Fixture(t)| >= 2
  {
  }

  /** A fill with some rows leaves its table non-empty, whether it was empty or not. */
  lemma FillIfNonEmpty(db: Database, t: TableName, rows: seq<Assignments>, clock: Clock)
    requires t in db.tables && rows != []
    ensures |FillIf(db, t, rows, |db.tables[t].rows| == 0, clock).tables[t].rows| > 0
  {
    if |db.tables[t].rows| == 0 {
      FillIfFilled(db, t, rows, clock, db.tables[t].lastId + 1);
    }
  }

  lemma PhasedEntityStocked(db: Database, clock: Clock, t: TableName)
    requires HasEntityTables(db) && IsEntity(t)
    ensures t in Phased(db, clock).tables && |Phased(db, clock).tables[t].rows| > 0
  {
    PhasedEntityTable(db, clock, t);
    FixtureNonEmpty(t);
    FillIfNonEmpty(db, t, Fixture(t), clock);
  }

  /** Once the seed has run, none of the four entity tables is empty. */
  lemma PhasedStocked(db: Database, clock: Clock)
    requires HasEntityTables(db)
    ensures Stocked(Phased(db, clock))
  {
    PhasedEntityStocked(db, clock, Patients);
    PhasedEntityStocked(db, clock, TypesDonnees);
    PhasedEntityStocked(db, clock, TypesConsultations);
    PhasedEntityStocked(db, clock, TypesExamens);
  }

  /**
   * The second phase a second time changes nothing: either the example facts went in, and the
   * table is no longer empty, or the phase changed nothing and meets the same database again.
   */
  lemma ExamplesTwice(d: Database, clock: Clock)
    ensures Examples(Examples(d, clock), clock) == Examples(d, clock)
  {
    if WantsExamples(d) && Apply(d, Insert(DonneesSanitaires, DonneeRows), clock).Ok? {
      ExamplesAdded(d, clock);
      ExamplesNotWanted(Examples(d, clock), clock);
    } else {
      ExamplesSkipped(d, clock);
    }
  }

  lemma PhasedTwice(db: Database, clock: Clock)
    requires HasEntityTables(db)
    ensures HasEntityTables(Phased(db, clock))
    ensures Phased(Phased(db, clock), clock) == Phased(db, clock)
  {
    PhasedStocked(db, clock);
    EntitySeededStocked(Phased(db, clock), clock);
    ExamplesTwice(EntitySeeded(db, TableCounts(db), clock), clock);
  }

  /** Running the seed on a database it has already seeded changes nothing. */
  lemma SeedTwice(db: Database, clock: Clock)
    ensures Seed(Seed(db, clock), clock) == Seed(db, clock)
  {
    if HasEntityTables(db) {
      SeedPhases(db, clock);
      PhasedTwice(db, clock);
      SeedPhases(Phased(db, clock), clock);
    } else {
      SeedWithoutEntityTables(db, clock);
    }
  }

  /** With the four entity tables and the example facts all non-empty, the seed inserts nothing. */
  lemma SeedStocked(db: Database, clock: Clock)
    requires Stocked(db) && DonneesSanitaires in db.tables && |db.tables[DonneesSanitaires].rows| > 0
    ensures Seed(db, clock) == db
  {
    SeedPhases(db, clock);
    EntitySeededStocked(db, clock);
    ExamplesNotWanted(db, clock);
  }

  // ----- The store's invariants across the seed -----

  lemma EntityStepsInserts(c: Counts)
    ensures Inserts(EntitySteps(c))
  {
    assert PatientRows != [] && TypeDonneeRows != [] && TypeConsultationRows != [] && TypeExamenRows != [];
  }

  lemma SampleStepsInserts()
    ensures Inserts(SampleSteps)
  {
    assert DonneeRows != [] && ConsultationRows != [] && ExamenRows != [];
  }

  lemma EntitySeededInvariants(db: Database, clock: Clock)
    requires HasEntityTables(db)
    ensures StoreLaws.Keyed(db) ==> StoreLaws.Keyed(EntitySeeded(db, TableCounts(db), clock))
    ensures db.foreignKeys && StoreLaws.Referential(db) ==> StoreLaws.Referential(EntitySeeded(db, TableCounts(db), clock))
  {
    EntityStepsRun(db, TableCounts(db), clock);
    EntityStepsInserts(TableCounts(db));
    if StoreLaws.Keyed(db) {
      RunAllKeyed(db, EntitySteps(TableCounts(db)), clock);
    }
    if db.foreignKeys && StoreLaws.Referential(db) {
      RunAllReferential(db, EntitySteps(TableCounts(db)), clock);
    }
  }

  lemma ExamplesInvariants(d: Database, clock: Clock)
    ensures StoreLaws.Keyed(d) ==> StoreLaws.Keyed(Examples(d, clock))
    ensures d.foreignKeys && StoreLaws.Referential(d) ==> StoreLaws.Referential(Examples(d, clock))
  {
    SampleStepsInserts();
    if StoreLaws.Keyed(d) {
      RunAllKeyed(d, SampleSteps, clock);
    }
    if d.foreignKeys && StoreLaws.Referential(d) {
      RunAllReferential(d, SampleSteps, clock);
    }
  }

  /**
   * The seed keeps the store's invariants: the keys of every table stay increasing, and with
   * enforcement on every reference still points at an existing row.
   */
  lemma SeedInvariants(db: Database, clock: Clock)
    ensures StoreLaws.Keyed(db) ==> StoreLaws.Keyed(Seed(db, clock))
    ensures db.foreignKeys && StoreLaws.Referential(db) ==> StoreLaws.Referential(Seed(db, clock))
  {
    if HasEntityTables(db) {
      SeedPhases(db, clock);
      EntitySeededInvariants(db, clock);
      EntitySeededExtends(db, TableCounts(db), clock);
      ExamplesInvariants(EntitySeeded(db, TableCounts(db), clock), clock);
    } else {
      SeedWithoutEntityTables(db, clock);
    }
  }
}
