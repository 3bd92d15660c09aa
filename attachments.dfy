/**
 * The attachment manager of a health datum, a consultation or an examination: the labels of the
 * target kinds, the image test on a file's URL, the list of the target's attachments, deleting one,
 * and the form that picks a file and saves the attachment.
 */
module Attachments {
  import opened Wrappers
  import opened Schema
  import opened Store
  import opened DbState
  import opened DataAccess
  import opened Writes
  import JsText
  import Cascade
  import StatementLaws
  import StoreLaws

  // ----- Labels -----

  /** `getTypeLabel`: the name of a target kind, or the kind itself when it is not one of the three. */
  function TypeLabel(kind: string): (caption: string)
    ensures kind == "donnee" ==> caption == "Donnée sanitaire"
    ensures kind == "consultation" ==> caption == "Consultation"
    ensures kind == "examen" ==> caption == "Examen"
    ensures kind !in CibleTypes ==> caption == kind
  {
    if kind == "donnee" then "Donnée sanitaire"
    else if kind == "consultation" then "Consultation"
    else if kind == "examen" then "Examen"
    else kind
  }

  /** `getTypeIcon`: the icon of a target kind, or a paper clip when it is not one of the three. */
  function TypeIcon(kind: string): (icon: string)
    ensures kind == "donnee" ==> icon == "📊"
    ensures kind == "consultation" ==> icon == "🩺"
    ensures kind == "examen" ==> icon == "🔬"
    ensures kind !in CibleTypes ==> icon == "📎"
  {
    if kind == "donnee" then "📊"
    else if kind == "consultation" then "🩺"
    else if kind == "examen" then "🔬"
    else "📎"
  }

  /** The three target kinds have three different labels and three different icons, none of them the fallback clip. */
  lemma KindsTellApart(k1: string, k2: string)
    requires k1 in CibleTypes && k2 in CibleTypes && k1 != k2
    ensures TypeLabel(k1) != TypeLabel(k2) && TypeIcon(k1) != TypeIcon(k2)
    ensures TypeIcon(k1) != "📎"
  {
  }

  // ----- The image test -----

  /** The extensions the list shows as images. */
  const ImageExtensions: seq<string> := ["jpg", "jpeg", "png", "gif", "bmp", "webp"]

  /**
   * `/\.(jpg|jpeg|png|gif|bmp|webp)$/i`: the URL ends with a dot and one of the extensions, in any
   * case. The regular expression folds ASCII letters only, and so does comparing the lowercased URL
   * with the lowercase extensions, since lowering never maps another character onto an ASCII letter.
   */
  predicate IsImage(url: string) {
    exists i :: 0 <= i < |ImageExtensions| && JsText.EndsWith(JsText.ToLower(url), "." + ImageExtensions[i])
  }

  /** Lowering twice is lowering once. */
  lemma LowerTwice(s: string)
    ensures JsText.ToLower(JsText.ToLower(s)) == JsText.ToLower(s)
  {
  }

  /** The test ignores case: a URL is an image exactly when its lowercased form is. */
  lemma ImageIgnoresCase(url: string)
    ensures IsImage(url) <==> IsImage(JsText.ToLower(url))
  {
    LowerTwice(url);
  }

  /** The lowercased end of a URL is the end of the lowercased URL. */
  lemma LowerAppend(s: string, t: string)
    ensures JsText.ToLower(s + t) == JsText.ToLower(s) + JsText.ToLower(t)
  {
  }

  /** Every name with a dot and one of the extensions, as lowercase, is an image. */
  lemma ImageBySuffix(name: string, i: nat)
    requires i < |ImageExtensions|
    ensures IsImage(name + "." + ImageExtensions[i])
  {
    var ext := "." + ImageExtensions[i];
    LowerAppend(name, ext);
    assert JsText.ToLower(ext) == ext;
    assert (name + "." + ImageExtensions[i]) == name + ext;
    var low := JsText.ToLower(name) + ext;
    assert low[|low| - |ext|..] == ext;
  }

  /** A PDF is not an image. */
  lemma PdfIsNotImage(name: string)
    ensures !IsImage(name + ".pdf")
  {
    LowerAppend(name, ".pdf");
    assert JsText.ToLower(".pdf") == ".pdf";
    var low := JsText.ToLower(name) + ".pdf";
    assert JsText.ToLower(name + ".pdf") == low;
    forall i | 0 <= i < |ImageExtensions| ensures !JsText.EndsWith(low, "." + ImageExtensions[i]) {
      var ext := "." + ImageExtensions[i];
      if |ext| <= |low| {
        assert low[|low| - 2] == 'd';
        assert low[|low| - |ext|..][|ext| - 2] == low[|low| - 2];
        assert ext[|ext| - 2] != 'd';
      }
    }
  }

  // ----- Picking a file -----

  /** What the form knows of the picked file's kind (`fileType`: '', 'image' or 'document'). */
  datatype FileKind = NoKind | ImageFile | DocumentFile

  /** `mimeType?.startsWith('image/') ? 'image' : 'document'`. */
  function MimeKind(mimeType: Option<string>): (k: FileKind)
    ensures k == ImageFile <==> mimeType.Some? && JsText.StartsWith(mimeType.value, "image/")
    ensures k != NoKind
    ensures mimeType.None? ==> k == DocumentFile
  {
    if mimeType.Some? && JsText.StartsWith(mimeType.value, "image/") then ImageFile else DocumentFile
  }

  /** A file from the document picker: its URI, its MIME type if known and its name. */
  datatype PickedFile = PickedFile(uri: string, mimeType: Option<string>, name: string)

  /** `name || 'Document sélectionné'`. */
  function SuggestedName(name: string): (s: string)
    ensures s != []
    ensures name != [] ==> s == name
  {
    if name == [] then "Document sélectionné" else name
  }

  /** The description after a pick: a blank one is replaced by the suggestion, typed text is kept. */
  function Defaulted(description: string, suggestion: string): (d: string)
    ensures JsText.AllSpace(description) ==> d == suggestion
    ensures !JsText.AllSpace(description) ==> d == description
  {
    FilledIffNotBlank(description);
    if Filled(description) then description else suggestion
  }

  /** The state of `AttachmentForm`. */
  class AttachmentForm {
    var description: string
    var fichierUrl: string
    var fileType: FileKind

    constructor()
      ensures description == [] && fichierUrl == [] && fileType == NoKind
    {
      description := [];
      fichierUrl := [];
      fileType := NoKind;
    }

    method SetDescription(text: string)
      modifies this
      ensures description == text && fichierUrl == old(fichierUrl) && fileType == old(fileType)
    {
      description := text;
    }

    /**
     * `takePhoto`: with the camera permission and a photo taken, the photo becomes the file, of
     * kind image, and a blank description becomes "Photo prise le <today>"; a refused permission or
     * a cancelled shot changes nothing. `today` is the date as the device formats it.
     */
    method TakePhoto(granted: bool, shot: Option<string>, today: string)
      modifies this
      ensures if granted && shot.Some? then
          fichierUrl == shot.value && fileType == ImageFile
          && description == Defaulted(old(description), "Photo prise le " + today)
        else
          fichierUrl == old(fichierUrl) && fileType == old(fileType) && description == old(description)
      ensures !JsText.AllSpace(old(description)) ==> description == old(description)
    {
      if granted && shot.Some? {
        fichierUrl := shot.value;
        fileType := ImageFile;
        description := Defaulted(description, "Photo prise le " + today);
      }
    }

    /**
     * `pickDocument`: a picked file becomes the file, classed by its MIME type, and a blank
     * description becomes the file's name; a cancelled pick changes nothing.
     */
    method PickDocument(picked: Option<PickedFile>)
      modifies this
      ensures if picked.Some? then
          fichierUrl == picked.value.uri && fileType == MimeKind(picked.value.mimeType)
          && description == Defaulted(old(description), SuggestedName(picked.value.name))
        else
          fichierUrl == old(fichierUrl) && fileType == old(fileType) && description == old(description)
      ensures !JsText.AllSpace(old(description)) ==> description == old(description)
    {
      if picked.Some? {
        fichierUrl := picked.value.uri;
        fileType := MimeKind(picked.value.mimeType);
        description := Defaulted(description, SuggestedName(picked.value.name));
      }
    }
  }

  // ----- Saving an attachment -----

  /** The columns the INSERT of an attachment names, in its order. */
  function AttachmentValues(cibleType: string, cibleId: int, description: string, fichierUrl: string): Assignments {
    [(CibleType, Str(cibleType)), (CibleId, Int(cibleId)), (FichierUrl, Str(JsText.Trim(fichierUrl))),
     (Description, Str(JsText.Trim(description)))]
  }

  /**
   * `AttachmentForm.handleSubmit`: nothing while the description or the file is blank; otherwise
   * the INSERT of the target, the trimmed URL and the trimmed description.
   */
  function AttachmentWrite(cibleType: string, cibleId: int, description: string, fichierUrl: string): (w: Option<Command>)
    ensures w.None? <==> JsText.AllSpace(description) || JsText.AllSpace(fichierUrl)
    ensures w.Some? ==> w.value == Insert(PiecesJointes, [AttachmentValues(cibleType, cibleId, description, fichierUrl)])
  {
    FilledIffNotBlank(description);
    FilledIffNotBlank(fichierUrl);
    if !Filled(description) || !Filled(fichierUrl) then None
    else Some(Insert(PiecesJointes, [AttachmentValues(cibleType, cibleId, description, fichierUrl)]))
  }

  /** The row an attachment INSERT describes. */
  predicate HoldsAttachment(r: Row, cibleType: string, cibleId: int, description: string, fichierUrl: string) {
    && Get(r, CibleType) == Str(cibleType) && Get(r, CibleId) == Int(cibleId)
    && Get(r, FichierUrl) == Str(JsText.Trim(fichierUrl)) && Get(r, Description) == Str(JsText.Trim(description))
  }

  lemma AttachmentColumnSet()
    ensures ColumnNames(PiecesJointes) == [PieceId, CibleType, CibleId, FichierUrl, Description, DateAjout]
  {
  }

  lemma AttachmentInsertColumns(ct: Value, cid: Value, url: Value, desc: Value)
    ensures DistinctColumns([(CibleType, ct), (CibleId, cid), (FichierUrl, url), (Description, desc)])
    ensures InsertError(PiecesJointes, [(CibleType, ct), (CibleId, cid), (FichierUrl, url), (Description, desc)]).None?
  {
    AttachmentColumnsDistinct(ct, cid, url, desc);
    AttachmentColumnsAccepted(ct, cid, url, desc);
  }

  lemma AttachmentColumnsDistinct(ct: Value, cid: Value, url: Value, desc: Value)
    ensures DistinctColumns([(CibleType, ct), (CibleId, cid), (FichierUrl, url), (Description, desc)])
  {
  }

  lemma AttachmentColumnsAccepted(ct: Value, cid: Value, url: Value, desc: Value)
    ensures InsertError(PiecesJointes, [(CibleType, ct), (CibleId, cid), (FichierUrl, url), (Description, desc)]).None?
  {
    AttachmentColumnSet();
    StatementLaws.RunAccepted(PiecesJointes, [(CibleType, ct), (CibleId, cid), (FichierUrl, url), (Description, desc)],
      [PieceId, CibleType, CibleId, FichierUrl, Description, DateAjout], 1);
  }

  /** The INSERT fills the three NOT NULL columns when it gives them values. */
  lemma AttachmentInsertComplete(ct: Value, cid: Value, url: Value, desc: Value)
    requires ct != Null && cid != Null && url != Null
    ensures StatementLaws.Complete(PiecesJointes, [(CibleType, ct), (CibleId, cid), (FichierUrl, url), (Description, desc)])
  {
    var a := [(CibleType, ct), (CibleId, cid), (FichierUrl, url), (Description, desc)];
    var cols := Def(PiecesJointes).columns;
    assert cols == PiecesJointesColumns();
    forall k | 0 <= k < |cols| && cols[k].notNull
      ensures cols[k].name in Columns(a) && Lookup(a, cols[k].name).value != Null
    {
      assert 1 <= k <= 3;
      assert Columns(a)[k - 1] == cols[k].name == a[k - 1].0;
      LookupAt(a, k - 1);
    }
  }

  /** A row holding one of the three target kinds passes the only CHECK of the table. */
  lemma AttachmentChecks(r: Row, cibleType: string)
    requires cibleType in CibleTypes && Get(r, CibleType) == Str(cibleType)
    ensures ChecksHold(PiecesJointes, r)
  {
    var cols := Def(PiecesJointes).columns;
    assert cols == PiecesJointesColumns();
    forall k | 0 <= k < |cols| ensures Admits(cols[k], Get(r, cols[k].name)) {
      if k == 1 {
        assert cols[1].name == CibleType;
      }
    }
  }

  /** The row an accepted attachment INSERT builds holds the value it gives each column it names, under the given key. */
  lemma AttachmentCells(a: Assignments, ct: Value, cid: Value, url: Value, desc: Value, id: nat, clock: Clock)
    requires a == [(CibleType, ct), (CibleId, cid), (FichierUrl, url), (Description, desc)]
    ensures var r := NewRow(PiecesJointes, a, id, clock);
      && Get(r, CibleType) == ct && Get(r, CibleId) == cid && Get(r, FichierUrl) == url && Get(r, Description) == desc
      && Get(r, PieceId) == Int(id)
  {
    var r := NewRow(PiecesJointes, a, id, clock);
    AttachmentInsertColumns(ct, cid, url, desc);
    NamedCells(PiecesJointes, a, id, clock);
    assert HoldsAssigned(r, a);
    AttachmentHolds(r, a, ct, cid, url, desc);
    StoreLaws.NewRowKey(PiecesJointes, a, id, clock);
  }

  /** A row holding what the attachment INSERT assigns has the four values it names. */
  lemma AttachmentHolds(r: Row, a: Assignments, ct: Value, cid: Value, url: Value, desc: Value)
    requires a == [(CibleType, ct), (CibleId, cid), (FichierUrl, url), (Description, desc)]
    requires HoldsAssigned(r, a)
    ensures Get(r, CibleType) == ct && Get(r, CibleId) == cid && Get(r, FichierUrl) == url && Get(r, Description) == desc
  {
    assert a[0] == (CibleType, ct) && a[1] == (CibleId, cid) && a[2] == (FichierUrl, url) && a[3] == (Description, desc);
  }

  /** An attachment INSERT that succeeds appends the row it describes under the next key. */
  lemma AttachmentInserted(db: Database, a: Assignments, ct: Value, cid: Value, url: Value, desc: Value, clock: Clock)
    requires a == [(CibleType, ct), (CibleId, cid), (FichierUrl, url), (Description, desc)]
    requires Apply(db, Insert(PiecesJointes, [a]), clock).Ok?
    ensures PiecesJointes in db.tables
    ensures exists r ::
      && Apply(db, Insert(PiecesJointes, [a]), clock).value == Appended(db, PiecesJointes, r)
      && Get(r, CibleType) == ct && Get(r, CibleId) == cid && Get(r, FichierUrl) == url && Get(r, Description) == desc
      && Get(r, PieceId) == Int(db.tables[PiecesJointes].lastId + 1)
  {
    InsertOne(db, PiecesJointes, a, clock);
    AttachmentCells(a, ct, cid, url, desc, db.tables[PiecesJointes].lastId + 1, clock);
  }

  /** A row with one of the three target kinds and its required columns filled breaks no constraint. */
  lemma RowAdmitted(db: Database, a: Assignments, ct: Value, cid: Value, url: Value, desc: Value, id: nat, clock: Clock)
    requires a == [(CibleType, ct), (CibleId, cid), (FichierUrl, url), (Description, desc)]
    requires ct.Str? && ct.s in CibleTypes && cid != Null && url != Null
    ensures Violation(db, PiecesJointes, NewRow(PiecesJointes, a, id, clock)).None?
  {
    var r := NewRow(PiecesJointes, a, id, clock);
    AttachmentCells(a, ct, cid, url, desc, id, clock);
    AttachmentInsertComplete(ct, cid, url, desc);
    StatementLaws.CompleteRow(PiecesJointes, a, id, clock);
    AttachmentChecks(r, ct.s);
    AttachmentReferencesHold(db, r);
  }

  /** The attachment table declares no foreign key, so no row of it can dangle. */
  lemma AttachmentReferencesHold(db: Database, r: Row)
    ensures ReferencesHold(db, PiecesJointes, r)
  {
    assert Def(PiecesJointes).foreignKeys == [];
  }

  /** A complete row whose target kind is some other string is refused by the CHECK, and by nothing before it. */
  lemma KindRejected(db: Database, r: Row, s: string)
    requires NotNullHolds(PiecesJointes, r) && Get(r, CibleType) == Str(s) && s !in CibleTypes
    ensures Violation(db, PiecesJointes, r) == Some(CheckFailed(PiecesJointes, CibleType))
  {
    var cols := Def(PiecesJointes).columns;
    assert cols == PiecesJointesColumns();
    assert FirstNull(cols, r, 0).None?;
    assert !Admits(cols[1], Get(r, cols[1].name));
    assert FirstRejected(cols, r, 1) == Some(CibleType);
  }

  lemma RowRejected(db: Database, a: Assignments, ct: Value, cid: Value, url: Value, desc: Value, id: nat, clock: Clock)
    requires a == [(CibleType, ct), (CibleId, cid), (FichierUrl, url), (Description, desc)]
    requires ct.Str? && ct.s !in CibleTypes && cid != Null && url != Null
    ensures Violation(db, PiecesJointes, NewRow(PiecesJointes, a, id, clock)) == Some(CheckFailed(PiecesJointes, CibleType))
  {
    AttachmentCells(a, ct, cid, url, desc, id, clock);
    AttachmentInsertComplete(ct, cid, url, desc);
    StatementLaws.CompleteRow(PiecesJointes, a, id, clock);
    KindRejected(db, NewRow(PiecesJointes, a, id, clock), ct.s);
  }

  /** An attachment INSERT on a file with the table succeeds exactly when its target kind is one of the three. */
  lemma AttachmentVerdict(db: Database, a: Assignments, ct: Value, cid: Value, url: Value, desc: Value, clock: Clock)
    requires a == [(CibleType, ct), (CibleId, cid), (FichierUrl, url), (Description, desc)]
    requires PiecesJointes in db.tables && ct.Str? && cid != Null && url != Null
    ensures ct.s in CibleTypes ==> Apply(db, Insert(PiecesJointes, [a]), clock).Ok?
    ensures ct.s !in CibleTypes ==> Apply(db, Insert(PiecesJointes, [a]), clock) == Err(CheckFailed(PiecesJointes, CibleType))
  {
    SingleInsert(db, PiecesJointes, a, clock);
    AttachmentInsertColumns(ct, cid, url, desc);
    StoreLaws.InsertRowChecks(db, PiecesJointes, a, clock);
    if ct.s in CibleTypes {
      RowAdmitted(db, a, ct, cid, url, desc, db.tables[PiecesJointes].lastId + 1, clock);
    } else {
      RowRejected(db, a, ct, cid, url, desc, db.tables[PiecesJointes].lastId + 1, clock);
    }
  }

  /**
   * A saved attachment is one row added at the end of the table under the next key, holding the
   * target, the trimmed URL and the trimmed description.
   */
  lemma AttachmentAdded(db: Database, cibleType: string, cibleId: int, description: string, fichierUrl: string, clock: Clock)
    requires AttachmentWrite(cibleType, cibleId, description, fichierUrl).Some?
    requires Apply(db, AttachmentWrite(cibleType, cibleId, description, fichierUrl).value, clock).Ok?
    ensures PiecesJointes in db.tables
    ensures exists r ::
      && Apply(db, AttachmentWrite(cibleType, cibleId, description, fichierUrl).value, clock).value == Appended(db, PiecesJointes, r)
      && HoldsAttachment(r, cibleType, cibleId, description, fichierUrl)
      && Get(r, PieceId) == Int(db.tables[PiecesJointes].lastId + 1)
  {
    AttachmentInserted(db, AttachmentValues(cibleType, cibleId, description, fichierUrl),
      Str(cibleType), Int(cibleId), Str(JsText.Trim(fichierUrl)), Str(JsText.Trim(description)), clock);
  }

  /**
   * A filled form for one of the three target kinds is saved on a file that has the table: the
   * attachment has no reference that could fail, so nothing else can refuse it.
   */
  lemma AttachmentAccepted(db: Database, cibleType: string, cibleId: int, description: string, fichierUrl: string, clock: Clock)
    requires PiecesJointes in db.tables && cibleType in CibleTypes
    requires AttachmentWrite(cibleType, cibleId, description, fichierUrl).Some?
    ensures Apply(db, AttachmentWrite(cibleType, cibleId, description, fichierUrl).value, clock).Ok?
  {
    AttachmentVerdict(db, AttachmentValues(cibleType, cibleId, description, fichierUrl),
      Str(cibleType), Int(cibleId), Str(JsText.Trim(fichierUrl)), Str(JsText.Trim(description)), clock);
  }

  /** A target kind other than the three is refused by the CHECK of the table. */
  lemma OtherKindRejected(db: Database, cibleType: string, cibleId: int, description: string, fichierUrl: string, clock: Clock)
    requires PiecesJointes in db.tables && cibleType !in CibleTypes
    requires AttachmentWrite(cibleType, cibleId, description, fichierUrl).Some?
    ensures Apply(db, AttachmentWrite(cibleType, cibleId, description, fichierUrl).value, clock) == Err(CheckFailed(PiecesJointes, CibleType))
  {
    AttachmentVerdict(db, AttachmentValues(cibleType, cibleId, description, fichierUrl),
      Str(cibleType), Int(cibleId), Str(JsText.Trim(fichierUrl)), Str(JsText.Trim(description)), clock);
  }

  // ----- Listing and deleting -----

  /** `WHERE cible_type = ? AND cible_id = ?`. */
  function ForTarget(cibleType: string, cibleId: int): seq<Cond> {
    [Eq(CibleType, Str(cibleType)), Eq(CibleId, Int(cibleId))]
  }

  predicate OfTarget(r: Row, cibleType: string, cibleId: int) {
    Get(r, CibleType) == Str(cibleType) && Get(r, CibleId) == Int(cibleId)
  }

  lemma ForTargetSelects(r: Row, cibleType: string, cibleId: int)
    ensures Satisfies(r, ForTarget(cibleType, cibleId)) <==> OfTarget(r, cibleType, cibleId)
  {
    var w := ForTarget(cibleType, cibleId);
    assert w[0] == Eq(CibleType, Str(cibleType)) && w[1] == Eq(CibleId, Int(cibleId));
  }

  /** The query of `loadAttachments`. */
  function TargetQuery(cibleType: string, cibleId: int): Query {
    Select(PiecesJointes, ForTarget(cibleType, cibleId))
  }

  /**
   * When `loadAttachments` gets rows, the layer is initialised and they are exactly the attachments
   * of the table whose target is this one.
   */
  lemma ListedAttachments(l: Layer, cibleType: string, cibleId: int, env: Env)
    requires Between(l)
    requires var a := Queried(l, TargetQuery(cibleType, cibleId), env).1; a.Ok? && a.value.Rows?
    ensures var (l1, a) := Queried(l, TargetQuery(cibleType, cibleId), env);
      && l1 == Ensured(l, env).0 && l1.state == Ready && PiecesJointes in l1.data.tables
      && forall r :: r in a.value.rows <==> r in l1.data.tables[PiecesJointes].rows && OfTarget(r, cibleType, cibleId)
  {
    QueriedAfterInit(l, TargetQuery(cibleType, cibleId), env);
    var data := Ensured(l, env).0.data;
    AttachmentColumnSet();
    var w := ForTarget(cibleType, cibleId);
    assert w[0].column == CibleType && w[1].column == CibleId;
    StatementLaws.SelectRows(data, PiecesJointes, w);
    forall r ensures Satisfies(r, w) <==> OfTarget(r, cibleType, cibleId) {
      ForTargetSelects(r, cibleType, cibleId);
    }
  }

  /** `DELETE FROM pieces_jointes WHERE piece_id = ?`. */
  function DeleteAttachmentCommand(pieceId: int): Command {
    Delete(PiecesJointes, Cascade.ByKey(PiecesJointes, pieceId))
  }

  /**
   * On a ready layer over a file whose references hold, deleting an attachment succeeds, removes
   * exactly the rows with that key and leaves every other table as it was.
   */
  lemma AttachmentDeleted(l: Layer, pieceId: int, env: Env)
    requires Between(l) && l.state == Ready && l.data.foreignKeys && StoreLaws.Referential(l.data)
    requires PiecesJointes in l.data.tables
    ensures Ran(l, DeleteAttachmentCommand(pieceId), env).1.Pass?
    ensures var after := Ran(l, DeleteAttachmentCommand(pieceId), env).0.data;
      && after.tables.Keys == l.data.tables.Keys
      && (forall r :: r in after.tables[PiecesJointes].rows <==>
        r in l.data.tables[PiecesJointes].rows && Get(r, PieceId) != Int(pieceId))
      && forall u :: u in l.data.tables && u != PiecesJointes ==> after.tables[u] == l.data.tables[u]
  {
    LeafDeleteRan(l, PiecesJointes, pieceId, env);
    Cascade.DeleteLeafRow(l.data, PiecesJointes, pieceId);
  }

  // ----- The manager -----

  class AttachmentManager {
    const db: DataLayer
    const cibleType: string
    const cibleId: int
    /** The query `loadAttachments` sends for this target. */
    const query: Query
    var attachments: seq<Row>
    var showAddForm: bool

    predicate Valid()
      reads this, db
    {
      db.Valid()
    }

    constructor(layer: DataLayer, kind: string, id: int)
      requires layer.Valid()
      ensures Valid() && db == layer && cibleType == kind && cibleId == id && query == TargetQuery(kind, id)
      ensures attachments == [] && !showAddForm
    {
      db := layer;
      cibleType := kind;
      cibleId := id;
      query := TargetQuery(kind, id);
      attachments := [];
      showAddForm := false;
    }

    /** `loadAttachments`: the target's attachments, or, when the query throws, what was shown. */
    method LoadAttachments(env: Env)
      requires Valid()
      modifies this, db
      ensures Valid()
      ensures var (l, a) := Queried(old(db.Snapshot()), query, env);
        db.Snapshot() == l && attachments == (if RowsOf(a).Some? then RowsOf(a).value else old(attachments))
      ensures showAddForm == old(showAddForm)
    {
      var a := db.Query(query, env);
      var rows := RowsOf(a);
      if rows.Some? {
        attachments := rows.value;
      }
    }

    method OpenForm()
      modifies this
      ensures showAddForm && attachments == old(attachments)
    {
      showAddForm := true;
    }

    method CancelForm()
      modifies this
      ensures !showAddForm && attachments == old(attachments)
    {
      showAddForm := false;
    }

    /** `deleteAttachment`: once confirmed, the DELETE by key, then a reload; a failure shows an alert. */
    method DeleteAttachment(pieceId: int, confirmed: bool, env: Env)
      requires Valid()
      modifies this, db
      ensures Valid()
      ensures !confirmed ==> db.Snapshot() == old(db.Snapshot()) && attachments == old(attachments)
      ensures confirmed ==>
        var (l1, r) := Ran(old(db.Snapshot()), DeleteAttachmentCommand(pieceId), env);
        if r.Fail? then db.Snapshot() == l1 && attachments == old(attachments)
        else
          var (l2, a) := Queried(l1, query, env);
          db.Snapshot() == l2 && attachments == (if a.Ok? && a.value.Rows? then a.value.rows else old(attachments))
      ensures showAddForm == old(showAddForm)
    {
      if confirmed {
        var r := db.Run(DeleteAttachmentCommand(pieceId), env);
        if r.Pass? {
          LoadAttachments(env);
        }
      }
    }

    /** The form submitted: the INSERT if the form is filled, then on success closing the form and reloading. */
    method Submit(form: AttachmentForm, env: Env)
      requires Valid()
      modifies this, db
      ensures Valid()
      ensures var w := AttachmentWrite(cibleType, cibleId, old(form.description), old(form.fichierUrl));
        && (w.None? ==> db.Snapshot() == old(db.Snapshot()) && showAddForm == old(showAddForm) && attachments == old(attachments))
        && (w.Some? ==>
          var (l1, r) := Ran(old(db.Snapshot()), w.value, env);
          if r.Fail? then db.Snapshot() == l1 && showAddForm == old(showAddForm) && attachments == old(attachments)
          else
            var (l2, a) := Queried(l1, query, env);
            db.Snapshot() == l2 && !showAddForm && attachments == (if a.Ok? && a.value.Rows? then a.value.rows else old(attachments)))
    {
      Save(AttachmentWrite(cibleType, cibleId, form.description, form.fichierUrl), env);
    }

    /** A form's statement, if any, then on success closing the form and reloading. */
    method Save(w: Option<Command>, env: Env)
      requires Valid()
      modifies this, db
      ensures Valid()
      ensures w.None? ==> db.Snapshot() == old(db.Snapshot()) && showAddForm == old(showAddForm) && attachments == old(attachments)
      ensures w.Some? ==>
        var (l1, r) := Ran(old(db.Snapshot()), w.value, env);
        if r.Fail? then db.Snapshot() == l1 && showAddForm == old(showAddForm) && attachments == old(attachments)
        else
          var (l2, a) := Queried(l1, query, env);
          db.Snapshot() == l2 && !showAddForm && attachments == (if a.Ok? && a.value.Rows? then a.value.rows else old(attachments))
    {
      if w.Some? {
        ghost var l0 := db.Snapshot();
        var r := db.Run(w.value, env);
        assert (db.Snapshot(), r) == Ran(l0, w.value, env);
        if r.Pass? {
          showAddForm := false;
          LoadAttachments(env);
        }
      }
    }
  }
}
