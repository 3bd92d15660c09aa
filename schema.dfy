/**
 * The relational schema of `hospital.db`: eight tables with auto-increment keys, NOT NULL columns,
 * one CHECK constraint and cascading foreign keys, and the creation script the application runs,
 * rendered from those definitions character for character.
 */
module Schema {
  import opened Wrappers
  import JsText

  datatype TableName =
    | Patients | TypesDonnees | DonneesSanitaires | TypesConsultations | Consultations
    | TypesExamens | Examens | PiecesJointes

  /** Every table, in the order the script creates them. */
  const AllTables: seq<TableName> := [
    Patients, TypesDonnees, DonneesSanitaires, TypesConsultations, Consultations,
    TypesExamens, Examens, PiecesJointes]

  /** The name of a table in SQL. */
  function SqlName(t: TableName): string {
    match t
    case Patients => "patients"
    case TypesDonnees => "types_donnees"
    case DonneesSanitaires => "donnees_sanitaires"
    case TypesConsultations => "types_consultations"
    case Consultations => "consultations"
    case TypesExamens => "types_examens"
    case Examens => "examens"
    case PiecesJointes => "pieces_jointes"
  }

  /**
   * Every column name the application uses, in the schema or in its SQL. `Diagnostic` and
   * `Traitement` are written by the application but declared by no table.
   */
  datatype ColumnName =
    | PatientId | Nom | Prenom | DateNaissance | Sexe | Adresse | Telephone | CreatedAt | UpdatedAt
    | TypeDonneeId | NomType | Description | DonneeId | Valeur | DateEnregistrement
    | TypeConsultationId | ConsultationId | DateConsultation | Notes | Diagnostic | Traitement
    | TypeExamenId | ExamenId | ObjetExamen | DateExamen | Resultat
    | PieceId | CibleType | CibleId | FichierUrl | DateAjout

  /** The name of a column in SQL. */
  function ColumnSqlName(c: ColumnName): string {
    match c
    case PatientId => "patient_id"
    case Nom => "nom"
    case Prenom => "prenom"
    case DateNaissance => "date_naissance"
    case Sexe => "sexe"
    case Adresse => "adresse"
    case Telephone => "telephone"
    case CreatedAt => "created_at"
    case UpdatedAt => "updated_at"
    case TypeDonneeId => "type_donnee_id"
    case NomType => "nom_type"
    case Description => "description"
    case DonneeId => "donnee_id"
    case Valeur => "valeur"
    case DateEnregistrement => "date_enregistrement"
    case TypeConsultationId => "type_consultation_id"
    case ConsultationId => "consultation_id"
    case DateConsultation => "date_consultation"
    case Notes => "notes"
    case Diagnostic => "diagnostic"
    case Traitement => "traitement"
    case TypeExamenId => "type_examen_id"
    case ExamenId => "examen_id"
    case ObjetExamen => "objet_examen"
    case DateExamen => "date_examen"
    case Resultat => "resultat"
    case PieceId => "piece_id"
    case CibleType => "cible_type"
    case CibleId => "cible_id"
    case FichierUrl => "fichier_url"
    case DateAjout => "date_ajout"
  }

  /** The primary-key column of each table. */
  function KeyOf(t: TableName): ColumnName {
    match t
    case Patients => PatientId
    case TypesDonnees => TypeDonneeId
    case DonneesSanitaires => DonneeId
    case TypesConsultations => TypeConsultationId
    case Consultations => ConsultationId
    case TypesExamens => TypeExamenId
    case Examens => ExamenId
    case PiecesJointes => PieceId
  }

  datatype SqlType = Integer | Text

  /** A column default: none (NULL), `date('now')` or `datetime('now')`. */
  datatype DefaultValue = NoDefault | CurrentDate | CurrentDateTime

  /**
   * A column. `allowed` lists the values of a `CHECK (column IN (...))` constraint; it is empty
   * when the column has no CHECK.
   */
  datatype Column = Column(
    name: ColumnName, sqlType: SqlType, primaryKey: bool, notNull: bool,
    allowed: seq<string>, default: DefaultValue)

  /** What happens to referencing rows when a referenced row is deleted. */
  datatype OnDelete = Cascade | NoAction

  datatype ForeignKey = ForeignKey(column: ColumnName, parent: TableName, parentColumn: ColumnName, onDelete: OnDelete)

  datatype TableDef = TableDef(name: TableName, columns: seq<Column>, foreignKeys: seq<ForeignKey>)

  function Key(name: ColumnName): Column { Column(name, Integer, true, false, [], NoDefault) }

  function Required(name: ColumnName, ty: SqlType): Column { Column(name, ty, false, true, [], NoDefault) }

  function Optional(name: ColumnName): Column { Column(name, Text, false, false, [], NoDefault) }

  function Dated(name: ColumnName, d: DefaultValue): Column { Column(name, Text, false, false, [], d) }

  /** `FOREIGN KEY(column) REFERENCES parent(key) ON DELETE CASCADE`. */
  function Cascading(column: ColumnName, parent: TableName): ForeignKey {
    ForeignKey(column, parent, KeyOf(parent), Cascade)
  }

  /** The table definitions, with columns and constraints in the order the script lists them. */
  function Def(t: TableName): TableDef {
    match t
    case Patients => TableDef(Patients, PatientsColumns(), [])
    case TypesDonnees => TableDef(TypesDonnees, TypeColumns(TypeDonneeId), [])
    case DonneesSanitaires =>
      TableDef(DonneesSanitaires, DonneesColumns(),
        [Cascading(PatientId, Patients), Cascading(TypeDonneeId, TypesDonnees)])
    case TypesConsultations => TableDef(TypesConsultations, TypeColumns(TypeConsultationId), [])
    case Consultations =>
      TableDef(Consultations, ConsultationsColumns(),
        [Cascading(PatientId, Patients), Cascading(TypeConsultationId, TypesConsultations)])
    case TypesExamens => TableDef(TypesExamens, TypeColumns(TypeExamenId), [])
    case Examens =>
      TableDef(Examens, ExamensColumns(),
        [Cascading(PatientId, Patients), Cascading(TypeExamenId, TypesExamens)])
    case PiecesJointes => TableDef(PiecesJointes, PiecesJointesColumns(), [])
  }

  function PatientsColumns(): seq<Column> {
    [Key(PatientId), Required(Nom, Text), Required(Prenom, Text), Optional(DateNaissance),
     Optional(Sexe), Optional(Adresse), Optional(Telephone), Dated(CreatedAt, CurrentDateTime),
     Dated(UpdatedAt, CurrentDateTime)]
  }

  /** The three type tables share one shape. */
  function TypeColumns(key: ColumnName): seq<Column> {
    [Key(key), Required(NomType, Text), Optional(Description)]
  }

  function DonneesColumns(): seq<Column> {
    [Key(DonneeId), Required(PatientId, Integer), Required(TypeDonneeId, Integer),
     Required(Valeur, Text), Dated(DateEnregistrement, CurrentDate)]
  }

  function ConsultationsColumns(): seq<Column> {
    [Key(ConsultationId), Required(PatientId, Integer), Required(TypeConsultationId, Integer),
     Dated(DateConsultation, CurrentDate), Optional(Notes)]
  }

  function ExamensColumns(): seq<Column> {
    [Key(ExamenId), Required(PatientId, Integer), Required(TypeExamenId, Integer),
     Optional(ObjetExamen), Dated(DateExamen, CurrentDate), Optional(Resultat), Optional(Notes)]
  }

  /** The values the CHECK constraint on `pieces_jointes.cible_type` admits. */
  const CibleTypes: seq<string> := ["donnee", "consultation", "examen"]

  function PiecesJointesColumns(): seq<Column> {
    [Key(PieceId), Column(CibleType, Text, false, true, CibleTypes, NoDefault),
     Required(CibleId, Integer), Required(FichierUrl, Text), Optional(Description),
     Dated(DateAjout, CurrentDateTime)]
  }

  /** The names of some columns, in order. */
  function Names(cols: seq<Column>): (names: seq<ColumnName>)
    ensures |names| == |cols|
    ensures forall i :: 0 <= i < |cols| ==> names[i] == cols[i].name
  {
    seq(|cols|, i requires 0 <= i < |cols| => cols[i].name)
  }

  /** The column names of a table, in order. */
  function ColumnNames(t: TableName): seq<ColumnName> {
    Names(Def(t).columns)
  }

  /** The names of the NOT NULL columns among some columns, in order. */
  function NotNullFrom(cols: seq<Column>, i: nat): seq<ColumnName>
    requires i <= |cols|
    decreases |cols| - i
  {
    if i == |cols| then []
    else (if cols[i].notNull then [cols[i].name] else []) + NotNullFrom(cols, i + 1)
  }

  /** The NOT NULL columns of a table, in order. */
  function NotNullNames(t: TableName): seq<ColumnName> {
    NotNullFrom(Def(t).columns, 0)
  }

  /** Some foreign key of some table points at `t`. */
  predicate IsReferenced(t: TableName) {
    exists u: TableName, fk :: fk in Def(u).foreignKeys && fk.parent == t
  }

  // ----- The creation script -----

  datatype Statement = PragmaForeignKeysOn | CreateTable(table: TableName)

  /** The statements of the creation script, in source order. */
  const Script: seq<Statement> := [
    PragmaForeignKeysOn, CreateTable(Patients), CreateTable(TypesDonnees),
    CreateTable(DonneesSanitaires), CreateTable(TypesConsultations), CreateTable(Consultations),
    CreateTable(TypesExamens), CreateTable(Examens), CreateTable(PiecesJointes)]

  /** Where a table's CREATE TABLE sits in the script. */
  function Position(t: TableName): (p: nat)
    ensures 0 < p < |Script| && Script[p] == CreateTable(t) && AllTables[p - 1] == t
  {
    match t
    case Patients => 1
    case TypesDonnees => 2
    case DonneesSanitaires => 3
    case TypesConsultations => 4
    case Consultations => 5
    case TypesExamens => 6
    case Examens => 7
    case PiecesJointes => 8
  }

  function TypeSql(ty: SqlType): string {
    match ty
    case Integer => "INTEGER"
    case Text => "TEXT"
  }

  function DefaultSql(d: DefaultValue): string {
    match d
    case NoDefault => ""
    case CurrentDate => " DEFAULT (date('now'))"
    case CurrentDateTime => " DEFAULT (datetime('now'))"
  }

  /** `'a','b','c'`. */
  function QuotedList(vs: seq<string>): string {
    if vs == [] then ""
    else if |vs| == 1 then "'" + vs[0] + "'"
    else "'" + vs[0] + "'," + QuotedList(vs[1..])
  }

  function CheckSql(c: Column): string {
    if c.allowed == [] then ""
    else " CHECK (" + ColumnSqlName(c.name) + " IN (" + QuotedList(c.allowed) + "))"
  }

  function ColumnSql(c: Column): string {
    ColumnSqlName(c.name) + " " + TypeSql(c.sqlType)
    + (if c.primaryKey then " PRIMARY KEY AUTOINCREMENT" else "")
    + (if c.notNull then " NOT NULL" else "")
    + CheckSql(c) + DefaultSql(c.default)
  }

  function ForeignKeySql(fk: ForeignKey): string {
    "FOREIGN KEY(" + ColumnSqlName(fk.column) + ") REFERENCES " + SqlName(fk.parent)
    + "(" + ColumnSqlName(fk.parentColumn) + ")"
    + (if fk.onDelete == Cascade then " ON DELETE CASCADE" else "")
  }

  function ColumnLines(cols: seq<Column>): seq<string> {
    seq(|cols|, i requires 0 <= i < |cols| => ColumnSql(cols[i]))
  }

  function ForeignKeyLines(fks: seq<ForeignKey>): seq<string> {
    seq(|fks|, i requires 0 <= i < |fks| => ForeignKeySql(fks[i]))
  }

  /** The column and constraint lines of a CREATE TABLE body, in order. */
  function Items(d: TableDef): seq<string> {
    ColumnLines(d.columns) + ForeignKeyLines(d.foreignKeys)
  }

  /** The lines, each indented by two spaces, separated by `,` and a line break. */
  function Lines(items: seq<string>): string {
    if items == [] then ""
    else if |items| == 1 then "  " + items[0]
    else "  " + items[0] + ",\n" + Lines(items[1..])
  }

  /** The text of one statement. */
  function Render(st: Statement): string {
    match st
    case PragmaForeignKeysOn => "PRAGMA foreign_keys = ON"
    case CreateTable(t) => "CREATE TABLE IF NOT EXISTS " + SqlName(t) + " (\n" + Lines(Items(Def(t))) + "\n)"
  }

  /**
   * The pieces of the script text between its `;` characters: a line break and the pragma, then
   * each CREATE TABLE after a blank line, then the final line break.
   */
  function Segments(): (segs: seq<string>)
    ensures |segs| == |Script| + 1
    ensures forall i :: 0 <= i <= |Script| ==> segs[i] == Segment(i)
  {
    seq(|Script| + 1, i requires 0 <= i <= |Script| => Segment(i))
  }

  /** Piece `i` of the script text: the pragma after one line break, each CREATE TABLE after two, and a final line break. */
  function Segment(i: nat): string
    requires i <= |Script|
  {
    if i == 0 then "\n" + Render(Script[0])
    else if i < |Script| then "\n\n" + Render(Script[i])
    else "\n"
  }

  /** The creation script the application passes to `initDatabase`. */
  function CreateTablesSql(): string {
    JsText.Join(Segments(), ';')
  }

  /** The statement of the script, from position `i` on, whose text is `text`. */
  function ParseFrom(text: string, i: nat): (st: Option<Statement>)
    requires i <= |Script|
    ensures st.None? <==> forall k :: i <= k < |Script| ==> Render(Script[k]) != text
    ensures st.Some? ==> st.value in Script && Render(st.value) == text
    decreases |Script| - i
  {
    if i == |Script| then None
    else if Render(Script[i]) == text then Some(Script[i])
    else ParseFrom(text, i + 1)
  }

  /** The statement a text is, if it is one the script contains. */
  function Parse(text: string): Option<Statement> {
    ParseFrom(text, 0)
  }

  // ----- Lemmas about the script text -----

  lemma NameCleanA(c: ColumnName)
    requires c in {PatientId, Nom, Prenom, DateNaissance, Sexe}
    ensures ';' !in ColumnSqlName(c)
  {
    match c
    case PatientId => assert ColumnSqlName(c) == "patient_id";
    case Nom => assert ColumnSqlName(c) == "nom";
    case Prenom => assert ColumnSqlName(c) == "prenom";
    case DateNaissance => assert ColumnSqlName(c) == "date_naissance";
    case Sexe => assert ColumnSqlName(c) == "sexe";
  }

  lemma NameCleanB(c: ColumnName)
    requires c in {Adresse, Telephone, CreatedAt, UpdatedAt, TypeDonneeId}
    ensures ';' !in ColumnSqlName(c)
  {
    match c
    case Adresse => assert ColumnSqlName(c) == "adresse";
    case Telephone => assert ColumnSqlName(c) == "telephone";
    case CreatedAt => assert ColumnSqlName(c) == "created_at";
    case UpdatedAt => assert ColumnSqlName(c) == "updated_at";
    case TypeDonneeId => assert ColumnSqlName(c) == "type_donnee_id";
  }

  lemma NameCleanC(c: ColumnName)
    requires c in {NomType, Description, DonneeId, Valeur, DateEnregistrement}
    ensures ';' !in ColumnSqlName(c)
  {
    match c
    case NomType => assert ColumnSqlName(c) == "nom_type";
    case Description => assert ColumnSqlName(c) == "description";
    case DonneeId => assert ColumnSqlName(c) == "donnee_id";
    case Valeur => assert ColumnSqlName(c) == "valeur";
    case DateEnregistrement => assert ColumnSqlName(c) == "date_enregistrement";
  }

  lemma NameCleanD(c: ColumnName)
    requires c in {TypeConsultationId, ConsultationId, DateConsultation, Notes, Diagnostic}
    ensures ';' !in ColumnSqlName(c)
  {
    match c
    case TypeConsultationId => assert ColumnSqlName(c) == "type_consultation_id";
    case ConsultationId => assert ColumnSqlName(c) == "consultation_id";
    case DateConsultation => assert ColumnSqlName(c) == "date_consultation";
    case Notes => assert ColumnSqlName(c) == "notes";
    case Diagnostic => assert ColumnSqlName(c) == "diagnostic";
  }

  lemma NameCleanE(c: ColumnName)
    requires c in {Traitement, TypeExamenId, ExamenId, ObjetExamen, DateExamen}
    ensures ';' !in ColumnSqlName(c)
  {
    match c
    case Traitement => assert ColumnSqlName(c) == "traitement";
    case TypeExamenId => assert ColumnSqlName(c) == "type_examen_id";
    case ExamenId => assert ColumnSqlName(c) == "examen_id";
    case ObjetExamen => assert ColumnSqlName(c) == "objet_examen";
    case DateExamen => assert ColumnSqlName(c) == "date_examen";
  }

  lemma NameCleanF(c: ColumnName)
    requires c in {Resultat, PieceId, CibleType, CibleId, FichierUrl, DateAjout}
    ensures ';' !in ColumnSqlName(c)
  {
    match c
    case Resultat => assert ColumnSqlName(c) == "resultat";
    case PieceId => assert ColumnSqlName(c) == "piece_id";
    case CibleType => assert ColumnSqlName(c) == "cible_type";
    case CibleId => assert ColumnSqlName(c) == "cible_id";
    case FichierUrl => assert ColumnSqlName(c) == "fichier_url";
    case DateAjout => assert ColumnSqlName(c) == "date_ajout";
  }

  /** No column name contains the statement separator. */
  lemma ColumnNameClean(c: ColumnName)
    ensures ';' !in ColumnSqlName(c)
  {
    if c in {PatientId, Nom, Prenom, DateNaissance, Sexe} {
      NameCleanA(c);
    } else if c in {Adresse, Telephone, CreatedAt, UpdatedAt, TypeDonneeId} {
      NameCleanB(c);
    } else if c in {NomType, Description, DonneeId, Valeur, DateEnregistrement} {
      NameCleanC(c);
    } else if c in {TypeConsultationId, ConsultationId, DateConsultation, Notes, Diagnostic} {
      NameCleanD(c);
    } else if c in {Traitement, TypeExamenId, ExamenId, ObjetExamen, DateExamen} {
      NameCleanE(c);
    } else {
      NameCleanF(c);
    }
  }

  /** No table name contains the statement separator. */
  lemma TableNameClean(t: TableName)
    ensures ';' !in SqlName(t)
  {
    match t
    case Patients => assert SqlName(t) == "patients";
    case TypesDonnees => assert SqlName(t) == "types_donnees";
    case DonneesSanitaires => assert SqlName(t) == "donnees_sanitaires";
    case TypesConsultations => assert SqlName(t) == "types_consultations";
    case Consultations => assert SqlName(t) == "consultations";
    case TypesExamens => assert SqlName(t) == "types_examens";
    case Examens => assert SqlName(t) == "examens";
    case PiecesJointes => assert SqlName(t) == "pieces_jointes";
  }

  /** The fixed words of a column line hold no separator. */
  lemma ColumnWordsClean()
    ensures ';' !in " " && ';' !in "INTEGER" && ';' !in "TEXT" && ';' !in " PRIMARY KEY AUTOINCREMENT"
    ensures ';' !in " NOT NULL" && ';' !in " CHECK (" && ';' !in " IN (" && ';' !in "))"
    ensures ';' !in "'" && ';' !in "',"
  {
  }

  lemma DefaultWordsClean()
    ensures ';' !in " DEFAULT (date('now'))" && ';' !in " DEFAULT (datetime('now'))"
  {
  }

  /** The fixed words of a foreign-key line and of a statement hold no separator. */
  lemma StatementWordsClean()
    ensures ';' !in "FOREIGN KEY(" && ';' !in ") REFERENCES " && ';' !in "(" && ';' !in ")"
    ensures ';' !in " ON DELETE CASCADE" && ';' !in "  " && ';' !in ",\n"
    ensures ';' !in "CREATE TABLE IF NOT EXISTS " && ';' !in " (\n" && ';' !in "\n)"
    ensures ';' !in "PRAGMA foreign_keys = ON"
  {
    ForeignKeyWordsClean();
    CreateWordsClean();
  }

  lemma ForeignKeyWordsClean()
    ensures ';' !in "FOREIGN KEY(" && ';' !in ") REFERENCES " && ';' !in "(" && ';' !in ")"
    ensures ';' !in " ON DELETE CASCADE" && ';' !in "  " && ';' !in ",\n"
  {
  }

  lemma CreateWordsClean()
    ensures ';' !in "CREATE TABLE IF NOT EXISTS " && ';' !in " (\n" && ';' !in "\n)"
    ensures ';' !in "PRAGMA foreign_keys = ON"
  {
  }

  lemma {:induction false} QuotedListClean(vs: seq<string>)
    requires forall i :: 0 <= i < |vs| ==> ';' !in vs[i]
    ensures ';' !in QuotedList(vs)
  {
    ColumnWordsClean();
    if |vs| > 1 {
      QuotedListClean(vs[1..]);
    }
  }

  lemma ColumnSqlClean(c: Column)
    requires forall i :: 0 <= i < |c.allowed| ==> ';' !in c.allowed[i]
    ensures ';' !in ColumnSql(c)
  {
    ColumnWordsClean();
    DefaultWordsClean();
    ColumnNameClean(c.name);
    QuotedListClean(c.allowed);
    assert ';' !in CheckSql(c);
    assert ';' !in DefaultSql(c.default);
  }

  lemma ForeignKeySqlClean(fk: ForeignKey)
    ensures ';' !in ForeignKeySql(fk)
  {
    StatementWordsClean();
    ColumnNameClean(fk.column);
    ColumnNameClean(fk.parentColumn);
    TableNameClean(fk.parent);
  }

  lemma {:induction false} LinesClean(items: seq<string>)
    requires forall i :: 0 <= i < |items| ==> ';' !in items[i]
    ensures ';' !in Lines(items)
  {
    StatementWordsClean();
    if |items| > 1 {
      LinesClean(items[1..]);
    }
  }

  /** The CHECK lists of the schema hold no separator. */
  lemma AllowedClean(t: TableName, i: nat)
    requires i < |Def(t).columns|
    ensures forall j :: 0 <= j < |Def(t).columns[i].allowed| ==> ';' !in Def(t).columns[i].allowed[j]
  {
    if Def(t).columns[i].allowed != [] {
      assert Def(t).columns[i].allowed == CibleTypes;
      assert ';' !in "donnee" && ';' !in "consultation" && ';' !in "examen";
    }
  }

  lemma ColumnLinesClean(cols: seq<Column>)
    requires forall i, j :: 0 <= i < |cols| && 0 <= j < |cols[i].allowed| ==> ';' !in cols[i].allowed[j]
    ensures forall k :: 0 <= k < |cols| ==> ';' !in ColumnLines(cols)[k]
  {
    forall k | 0 <= k < |cols| ensures ';' !in ColumnLines(cols)[k] {
      ColumnSqlClean(cols[k]);
    }
  }

  lemma ForeignKeyLinesClean(fks: seq<ForeignKey>)
    ensures forall k :: 0 <= k < |fks| ==> ';' !in ForeignKeyLines(fks)[k]
  {
    forall k | 0 <= k < |fks| ensures ';' !in ForeignKeyLines(fks)[k] {
      ForeignKeySqlClean(fks[k]);
    }
  }

  /** The lines of a table body hold no separator when its CHECK lists hold none. */
  lemma ItemsClean(d: TableDef)
    requires forall i, j :: 0 <= i < |d.columns| && 0 <= j < |d.columns[i].allowed| ==> ';' !in d.columns[i].allowed[j]
    ensures forall k :: 0 <= k < |Items(d)| ==> ';' !in Items(d)[k]
  {
    ColumnLinesClean(d.columns);
    ForeignKeyLinesClean(d.foreignKeys);
    var a, b := ColumnLines(d.columns), ForeignKeyLines(d.foreignKeys);
    assert forall k :: |a| <= k < |a + b| ==> (a + b)[k] == b[k - |a|];
  }

  /** No statement text contains a `;`, so splitting the script cannot cut one in two. */
  lemma RenderClean(st: Statement)
    ensures ';' !in Render(st)
  {
    StatementWordsClean();
    if st.CreateTable? {
      var t := st.table;
      forall i | 0 <= i < |Def(t).columns|
        ensures forall j :: 0 <= j < |Def(t).columns[i].allowed| ==> ';' !in Def(t).columns[i].allowed[j]
      {
        AllowedClean(t, i);
      }
      ItemsClean(Def(t));
      LinesClean(Items(Def(t)));
      TableNameClean(t);
    }
  }

  /** Every statement text starts and ends with a character other than white space. */
  lemma RenderTrimmed(st: Statement)
    ensures Render(st) != [] && JsText.IsTrimmed(Render(st))
  {
    var r := Render(st);
    if st.CreateTable? {
      assert r[0] == 'C';
      assert r[|r| - 1] == ')';
    }
  }

  /** Splitting the script text at `;` gives back its segments. */
  lemma SplitScript()
    ensures JsText.Split(CreateTablesSql(), ';') == Segments()
  {
    var segs := Segments();
    forall i | 0 <= i < |segs| ensures ';' !in segs[i] {
      SegmentClean(i);
    }
    JsText.SplitJoin(segs, ';');
  }

  lemma SegmentClean(i: nat)
    requires i <= |Script|
    ensures ';' !in Segments()[i]
  {
    if i < |Script| {
      RenderClean(Script[i]);
    }
    assert Segments()[i] == Segment(i);
  }

  /** Trimmed, the segments are the statement texts and then one blank. */
  lemma TrimSegments()
    ensures forall i :: 0 <= i < |Script| ==> JsText.Trim(Segments()[i]) == Render(Script[i])
    ensures JsText.Trim(Segments()[|Script|]) == []
  {
    forall i | 0 <= i < |Script| ensures JsText.Trim(Segments()[i]) == Render(Script[i]) {
      SegmentTrimmed(i);
    }
    LastSegmentBlank();
  }

  lemma SegmentTrimmed(i: nat)
    requires i < |Script|
    ensures JsText.Trim(Segments()[i]) == Render(Script[i])
  {
    RenderTrimmed(Script[i]);
    var w := SegmentAt(i);
    JsText.TrimAfterSpace(w, Render(Script[i]));
  }

  /** Segment `i` is white space, then the text of statement `i`. */
  lemma SegmentAt(i: nat) returns (w: string)
    requires i < |Script|
    ensures JsText.AllSpace(w) && Segments()[i] == w + Render(Script[i])
  {
    w := if i == 0 then "\n" else "\n\n";
    assert Segments()[i] == Segment(i);
  }

  lemma LastSegmentBlank()
    ensures JsText.Trim(Segments()[|Script|]) == []
  {
    assert Segments()[|Script|] == Segment(|Script|) == "\n";
    JsText.TrimEmptyIffAllSpace("\n");
  }

  /** The pragma's text is no CREATE TABLE text. */
  lemma PragmaIsNotCreate(t: TableName)
    ensures Render(PragmaForeignKeysOn) != Render(CreateTable(t))
  {
    assert Render(PragmaForeignKeysOn)[0] == 'P';
    assert Render(CreateTable(t))[0] == 'C';
  }

  /** The first seven letters of each table name, which already tell the tables apart. */
  function Tag(t: TableName): string {
    match t
    case Patients => "patient"
    case TypesDonnees => "types_d"
    case DonneesSanitaires => "donnees"
    case TypesConsultations => "types_c"
    case Consultations => "consult"
    case TypesExamens => "types_e"
    case Examens => "examens"
    case PiecesJointes => "pieces_"
  }

  lemma TagInjective(t: TableName, u: TableName)
    requires Tag(t) == Tag(u)
    ensures t == u
  {
    assert Tag(t)[0] == Tag(u)[0] && Tag(t)[6] == Tag(u)[6];
  }

  /** Where a piece starts in a concatenation. */
  lemma SliceOfMiddle(prefix: string, name: string, rest: string, n: nat)
    requires n <= |name|
    ensures (prefix + name + rest)[|prefix|..|prefix| + n] == name[..n]
  {
  }

  /** A CREATE TABLE text is the fixed prefix, the table name, then the body. */
  lemma CreateTextParts(t: TableName)
    ensures Render(CreateTable(t)) == "CREATE TABLE IF NOT EXISTS " + SqlName(t) + (" (\n" + Lines(Items(Def(t))) + "\n)")
  {
    var body := Lines(Items(Def(t)));
    assert Render(CreateTable(t)) == "CREATE TABLE IF NOT EXISTS " + SqlName(t) + " (\n" + body + "\n)";
    Regrouped("CREATE TABLE IF NOT EXISTS ", SqlName(t), " (\n", body, "\n)");
  }

  /** Concatenation regrouped: the last three pieces taken together. */
  lemma Regrouped<T>(a: seq<T>, b: seq<T>, c: seq<T>, d: seq<T>, e: seq<T>)
    ensures a + b + c + d + e == a + b + (c + d + e)
  {
  }

  /** The table name follows the fixed prefix, whatever comes after it. */
  lemma TagFollowsPrefix(t: TableName, body: string)
    ensures |"CREATE TABLE IF NOT EXISTS " + SqlName(t) + body| >= 34
    ensures ("CREATE TABLE IF NOT EXISTS " + SqlName(t) + body)[27..34] == Tag(t)
  {
    NameTag(t);
    SliceOfMiddle("CREATE TABLE IF NOT EXISTS ", SqlName(t), body, 7);
  }

  lemma NameTag(t: TableName)
    ensures |SqlName(t)| >= 7 && SqlName(t)[..7] == Tag(t)
  {
  }

  /** No two tables share a CREATE TABLE text. */
  lemma CreateTextsDistinct(t: TableName, u: TableName)
    requires t != u
    ensures Render(CreateTable(t)) != Render(CreateTable(u))
  {
    CreateTextParts(t);
    CreateTextParts(u);
    TagFollowsPrefix(t, " (\n" + Lines(Items(Def(t))) + "\n)");
    TagFollowsPrefix(u, " (\n" + Lines(Items(Def(u))) + "\n)");
    if Tag(t) == Tag(u) {
      TagInjective(t, u);
    }
  }

  /** The pragma is read back from its text. */
  lemma ParsePragma()
    ensures Parse(Render(PragmaForeignKeysOn)) == Some(PragmaForeignKeysOn)
  {
    var r := Parse(Render(PragmaForeignKeysOn));
    assert Render(Script[0]) == Render(PragmaForeignKeysOn);
    if r.value.CreateTable? {
      PragmaIsNotCreate(r.value.table);
    }
  }

  /** Each CREATE TABLE is read back from its text. */
  lemma ParseCreate(t: TableName)
    ensures Parse(Render(CreateTable(t))) == Some(CreateTable(t))
  {
    var r := Parse(Render(CreateTable(t)));
    assert Render(Script[Position(t)]) == Render(CreateTable(t));
    if r.value.PragmaForeignKeysOn? {
      PragmaIsNotCreate(t);
    } else if r.value.table != t {
      CreateTextsDistinct(r.value.table, t);
    }
  }

  /** Every statement of the script is read back from its text. */
  lemma ParseRender(st: Statement)
    ensures Parse(Render(st)) == Some(st)
  {
    match st
    case PragmaForeignKeysOn => ParsePragma();
    case CreateTable(t) => ParseCreate(t);
  }

  // ----- Lemmas about the constraints -----

  /** The first column of every table is its primary key, and no other column is. */
  lemma KeyIsFirst(t: TableName)
    ensures |Def(t).columns| > 0 && Def(t).columns[0] == Key(KeyOf(t))
    ensures forall i :: 0 < i < |Def(t).columns| ==> !Def(t).columns[i].primaryKey
    ensures Def(t).name == t
  {
  }

  lemma NotNullPatients()
    ensures NotNullNames(Patients) == [Nom, Prenom]
  {
    var cols := Def(Patients).columns;
    assert cols == PatientsColumns();
    NotNullFromNone(cols, 3);
    assert NotNullFrom(cols, 2) == [Prenom];
    assert NotNullFrom(cols, 1) == [Nom, Prenom];
  }

  /** No NOT NULL column from position `i` on leaves no name to list. */
  lemma {:induction false} NotNullFromNone(cols: seq<Column>, i: nat)
    requires i <= |cols| && forall k :: i <= k < |cols| ==> !cols[k].notNull
    ensures NotNullFrom(cols, i) == []
    decreases |cols| - i
  {
    if i < |cols| {
      NotNullFromNone(cols, i + 1);
    }
  }

  lemma NotNullTypes(t: TableName)
    requires t == TypesDonnees || t == TypesConsultations || t == TypesExamens
    ensures NotNullNames(t) == [NomType]
  {
  }

  /** The NOT NULL columns of the patient and type tables. */
  lemma NotNullEntityColumns()
    ensures NotNullNames(Patients) == [Nom, Prenom]
    ensures NotNullNames(TypesDonnees) == [NomType]
    ensures NotNullNames(TypesConsultations) == [NomType]
    ensures NotNullNames(TypesExamens) == [NomType]
  {
    NotNullPatients();
    NotNullTypes(TypesDonnees);
    NotNullTypes(TypesConsultations);
    NotNullTypes(TypesExamens);
  }

  lemma NotNullDonnees()
    ensures NotNullNames(DonneesSanitaires) == [PatientId, TypeDonneeId, Valeur]
  {
  }

  lemma NotNullConsultations()
    ensures NotNullNames(Consultations) == [PatientId, TypeConsultationId]
  {
  }

  lemma NotNullExamens()
    ensures NotNullNames(Examens) == [PatientId, TypeExamenId]
  {
  }

  lemma NotNullPiecesJointes()
    ensures NotNullNames(PiecesJointes) == [CibleType, CibleId, FichierUrl]
  {
  }

  /** The NOT NULL columns of the fact tables and of the attachments table. */
  lemma NotNullFactColumns()
    ensures NotNullNames(DonneesSanitaires) == [PatientId, TypeDonneeId, Valeur]
    ensures NotNullNames(Consultations) == [PatientId, TypeConsultationId]
    ensures NotNullNames(Examens) == [PatientId, TypeExamenId]
    ensures NotNullNames(PiecesJointes) == [CibleType, CibleId, FichierUrl]
  {
    NotNullDonnees();
    NotNullConsultations();
    NotNullExamens();
    NotNullPiecesJointes();
  }

  /** `consultations` has exactly these columns: `diagnostic` and `traitement` are not among them. */
  lemma ConsultationsColumnSet()
    ensures ColumnNames(Consultations) == [ConsultationId, PatientId, TypeConsultationId, DateConsultation, Notes]
    ensures Diagnostic !in ColumnNames(Consultations) && Traitement !in ColumnNames(Consultations)
  {
    ConsultationsNames();
    var cs := [ConsultationId, PatientId, TypeConsultationId, DateConsultation, Notes];
    assert Diagnostic !in cs && Traitement !in cs;
  }

  lemma ConsultationsNames()
    ensures ColumnNames(Consultations) == [ConsultationId, PatientId, TypeConsultationId, DateConsultation, Notes]
  {
  }

  /** The columns of the tables the patient screen's forms write. */
  lemma FormTablesColumnSets()
    ensures ColumnNames(Patients) == [PatientId, Nom, Prenom, DateNaissance, Sexe, Adresse, Telephone, CreatedAt, UpdatedAt]
    ensures ColumnNames(DonneesSanitaires) == [DonneeId, PatientId, TypeDonneeId, Valeur, DateEnregistrement]
    ensures ColumnNames(Examens) == [ExamenId, PatientId, TypeExamenId, ObjetExamen, DateExamen, Resultat, Notes]
  {
    PatientsColumnSet();
    DonneesColumnSet();
    ExamensColumnSet();
  }

  lemma PatientsColumnSet()
    ensures ColumnNames(Patients) == [PatientId, Nom, Prenom, DateNaissance, Sexe, Adresse, Telephone, CreatedAt, UpdatedAt]
  {
  }

  lemma DonneesColumnSet()
    ensures ColumnNames(DonneesSanitaires) == [DonneeId, PatientId, TypeDonneeId, Valeur, DateEnregistrement]
  {
  }

  lemma ExamensColumnSet()
    ensures ColumnNames(Examens) == [ExamenId, PatientId, TypeExamenId, ObjetExamen, DateExamen, Resultat, Notes]
  {
  }

  predicate DistinctNames(cols: seq<Column>) {
    forall i, j :: 0 <= i < j < |cols| ==> cols[i].name != cols[j].name
  }

  /**
   * An order on column names in which every table lists its columns ascending; it serves only to
   * show that no table repeats a name.
   */
  function Rank(c: ColumnName): nat {
    match c
    case PieceId => 0 case CibleType => 1 case CibleId => 2 case FichierUrl => 3
    case DonneeId => 4 case ConsultationId => 5 case ExamenId => 6 case PatientId => 7
    case Nom => 8 case Prenom => 9 case DateNaissance => 10 case Sexe => 11 case Adresse => 12
    case Telephone => 13 case CreatedAt => 14 case UpdatedAt => 15
    case TypeDonneeId => 16 case TypeConsultationId => 17 case TypeExamenId => 18
    case NomType => 19 case Description => 20 case DateAjout => 21
    case Valeur => 22 case DateEnregistrement => 23 case DateConsultation => 24
    case ObjetExamen => 25 case DateExamen => 26 case Resultat => 27 case Notes => 28
    case Diagnostic => 29 case Traitement => 30
  }

  /** From position `i` on, each column's name ranks below the next one's. */
  predicate AscendingFrom(cols: seq<Column>, i: nat)
    requires i <= |cols|
    decreases |cols| - i
  {
    i + 1 >= |cols| || (Rank(cols[i].name) < Rank(cols[i + 1].name) && AscendingFrom(cols, i + 1))
  }

  lemma {:induction false} AscendingBelow(cols: seq<Column>, k: nat, i: nat, j: nat)
    requires k <= i < j < |cols| && AscendingFrom(cols, k)
    ensures Rank(cols[i].name) < Rank(cols[j].name)
    decreases j - k
  {
    if k < i {
      AscendingBelow(cols, k + 1, i, j);
    } else if i + 1 < j {
      AscendingBelow(cols, k + 1, i + 1, j);
    }
  }

  /** Names in ascending order are distinct. */
  lemma AscendingDistinct(cols: seq<Column>)
    requires AscendingFrom(cols, 0)
    ensures DistinctNames(cols)
  {
    forall i, j | 0 <= i < j < |cols| ensures cols[i].name != cols[j].name {
      AscendingBelow(cols, 0, i, j);
    }
  }

  lemma PatientsDistinct()
    ensures DistinctNames(PatientsColumns())
  {
    var c := PatientsColumns();
    assert AscendingFrom(c, 7);
    assert AscendingFrom(c, 6);
    assert AscendingFrom(c, 5);
    assert AscendingFrom(c, 4);
    assert AscendingFrom(c, 3);
    assert AscendingFrom(c, 2);
    assert AscendingFrom(c, 1);
    AscendingDistinct(c);
  }

  lemma TypesDistinct(key: ColumnName)
    requires key == TypeDonneeId || key == TypeConsultationId || key == TypeExamenId
    ensures DistinctNames(TypeColumns(key))
  {
    AscendingDistinct(TypeColumns(key));
  }

  lemma DonneesDistinct()
    ensures DistinctNames(DonneesColumns())
  {
    var c := DonneesColumns();
    assert AscendingFrom(c, 3);
    assert AscendingFrom(c, 2);
    assert AscendingFrom(c, 1);
    AscendingDistinct(c);
  }

  lemma ConsultationsDistinct()
    ensures DistinctNames(ConsultationsColumns())
  {
    var c := ConsultationsColumns();
    assert AscendingFrom(c, 3);
    assert AscendingFrom(c, 2);
    assert AscendingFrom(c, 1);
    AscendingDistinct(c);
  }

  /** The last four columns of `examens` are in ascending order. */
  lemma ExamensTailAscending()
    ensures AscendingFrom(ExamensColumns(), 3)
  {
    var c := ExamensColumns();
    assert AscendingFrom(c, 5);
    assert AscendingFrom(c, 4);
  }

  lemma ExamensDistinct()
    ensures DistinctNames(ExamensColumns())
  {
    var c := ExamensColumns();
    ExamensTailAscending();
    assert AscendingFrom(c, 2);
    assert AscendingFrom(c, 1);
    AscendingDistinct(c);
  }

  /** The last four columns of `pieces_jointes` are in ascending order. */
  lemma PiecesJointesTailAscending()
    ensures AscendingFrom(PiecesJointesColumns(), 2)
  {
    var c := PiecesJointesColumns();
    assert AscendingFrom(c, 4);
    assert AscendingFrom(c, 3);
  }

  lemma PiecesJointesDistinct()
    ensures DistinctNames(PiecesJointesColumns())
  {
    var c := PiecesJointesColumns();
    PiecesJointesTailAscending();
    assert AscendingFrom(c, 1);
    AscendingDistinct(c);
  }

  /** No table has two columns of the same name. */
  lemma ColumnNamesDistinct(t: TableName)
    ensures DistinctNames(Def(t).columns)
  {
    match t
    case Patients => PatientsDistinct();
    case TypesDonnees => TypesDistinct(TypeDonneeId);
    case DonneesSanitaires => DonneesDistinct();
    case TypesConsultations => TypesDistinct(TypeConsultationId);
    case Consultations => ConsultationsDistinct();
    case TypesExamens => TypesDistinct(TypeExamenId);
    case Examens => ExamensDistinct();
    case PiecesJointes => PiecesJointesDistinct();
  }

  /** NOT NULL columns are ordinary columns: not the key, and without a default. */
  lemma NotNullHasNoDefault(t: TableName, k: nat)
    requires k < |Def(t).columns| && Def(t).columns[k].notNull
    ensures !Def(t).columns[k].primaryKey && Def(t).columns[k].default == NoDefault
  {
  }

  /** Every foreign key points at the primary key of a table created earlier in the script. */
  lemma ForeignKeyTargetsFirst(t: TableName, fk: ForeignKey)
    requires fk in Def(t).foreignKeys
    ensures Position(fk.parent) < Position(t)
    ensures fk.parentColumn == KeyOf(fk.parent) && fk.column in ColumnNames(t)
    ensures fk.column == KeyOf(fk.parent)
  {
    if t == DonneesSanitaires {
      FactForeignKeys(t, TypesDonnees, TypeDonneeId);
    } else if t == Consultations {
      FactForeignKeys(t, TypesConsultations, TypeConsultationId);
    } else if t == Examens {
      FactForeignKeys(t, TypesExamens, TypeExamenId);
    } else {
      assert false;
    }
  }

  /** A fact table's two foreign keys: to the patients, then to its type table, both created before it. */
  lemma FactForeignKeys(t: TableName, typ: TableName, key: ColumnName)
    requires (t == DonneesSanitaires && typ == TypesDonnees && key == TypeDonneeId)
      || (t == Consultations && typ == TypesConsultations && key == TypeConsultationId)
      || (t == Examens && typ == TypesExamens && key == TypeExamenId)
    ensures Def(t).foreignKeys == [Cascading(PatientId, Patients), Cascading(key, typ)]
    ensures ColumnNames(t)[1] == PatientId && ColumnNames(t)[2] == key
    ensures Position(Patients) < Position(typ) < Position(t) && KeyOf(typ) == key
  {
    FactPositions(t, typ);
    FactLinkColumns(t, key);
  }

  lemma FactPositions(t: TableName, typ: TableName)
    requires (t == DonneesSanitaires && typ == TypesDonnees) || (t == Consultations && typ == TypesConsultations)
      || (t == Examens && typ == TypesExamens)
    ensures Position(Patients) < Position(typ) < Position(t)
  {
  }

  lemma FactLinkColumns(t: TableName, key: ColumnName)
    requires (t == DonneesSanitaires && key == TypeDonneeId) || (t == Consultations && key == TypeConsultationId)
      || (t == Examens && key == TypeExamenId)
    ensures ColumnNames(t)[1] == PatientId && ColumnNames(t)[2] == key
  {
  }

  /** Every foreign key cascades on delete; none restricts. */
  lemma AllForeignKeysCascade(t: TableName, fk: ForeignKey)
    requires fk in Def(t).foreignKeys
    ensures fk.onDelete == Cascade
  {
  }

  /**
   * Referenced tables have no foreign keys themselves, so a cascade never goes deeper than one
   * level: the tables it reaches are never referenced.
   */
  lemma CascadeIsOneLevel(t: TableName, fk: ForeignKey)
    requires fk in Def(t).foreignKeys
    ensures Def(fk.parent).foreignKeys == [] && !IsReferenced(t)
  {
  }

  /** Attachments carry no foreign key and nothing references them. */
  lemma AttachmentsUnlinked()
    ensures Def(PiecesJointes).foreignKeys == [] && !IsReferenced(PiecesJointes)
  {
  }

  /** The one CHECK constraint restricts `pieces_jointes.cible_type` to three values. */
  lemma CibleTypeCheck(t: TableName, i: nat)
    requires i < |Def(t).columns| && Def(t).columns[i].allowed != []
    ensures t == PiecesJointes && Def(t).columns[i].name == CibleType
    ensures Def(t).columns[i].allowed == ["donnee", "consultation", "examen"]
  {
  }
}
