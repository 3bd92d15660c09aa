/**
 * How `initDatabase` runs the creation script: it splits the text at every `;`, keeps the pieces
 * that are not blank, and executes each one trimmed, in order, stopping at the first error.
 */
module DbScript {
  import opened Wrappers
  import opened Schema
  import opened Store
  import JsText
  import StatementLaws

  /**
   * `segs.filter(s => s.trim())`: the pieces that are not blank, untrimmed, in order. A piece is
   * blank when trimming leaves it empty, that is when it is all white space
   * (`JsText.TrimEmptyIffAllSpace`).
   */
  function NonBlank(segs: seq<string>): (kept: seq<string>)
    ensures |kept| <= |segs|
    decreases |segs|
  {
    if segs == [] then []
    else
      var rest := NonBlank(segs[1..]);
      if !JsText.AllSpace(segs[0]) then [segs[0]] + rest else rest
  }

  /** The statements `initDatabase` iterates over. */
  function Statements(text: string): seq<string> {
    NonBlank(JsText.Split(text, ';'))
  }

  /** The loop of `initDatabase`: each statement that is not blank is executed trimmed. */
  function ExecAll(db: Database, stmts: seq<string>): Result<Database, SqlError>
    decreases |stmts|
  {
    if stmts == [] then Ok(db)
    else if JsText.Trim(stmts[0]) == [] then ExecAll(db, stmts[1..])
    else
      match Exec(db, JsText.Trim(stmts[0]))
      case Err(e) => Err(e)
      case Ok(next) => ExecAll(next, stmts[1..])
  }

  /** The effect of one statement of the script, as the engine carries it out. */
  function Effect(db: Database, st: Statement): Database {
    match st
    case PragmaForeignKeysOn => db.(foreignKeys := true)
    case CreateTable(t) => if t in db.tables then db else db.(tables := db.tables[t := Table([], 0)])
  }

  function AfterScript(db: Database, sts: seq<Statement>): Database
    decreases |sts|
  {
    if sts == [] then db else AfterScript(Effect(db, sts[0]), sts[1..])
  }

  lemma {:induction false} NonBlankAll(s: seq<string>)
    requires forall i :: 0 <= i < |s| ==> !JsText.AllSpace(s[i])
    ensures NonBlank(s) == s
    decreases |s|
  {
    if s != [] {
      NonBlankAll(s[1..]);
      assert [s[0]] + s[1..] == s;
    }
  }

  lemma {:induction false} NonBlankAppend(a: seq<string>, b: seq<string>)
    ensures NonBlank(a + b) == NonBlank(a) + NonBlank(b)
    decreases |a|
  {
    if a != [] {
      var c := a + b;
      assert c[0] == a[0] && c[1..] == a[1..] + b;
      NonBlankAppend(a[1..], b);
      var head := if !JsText.AllSpace(a[0]) then [a[0]] else [];
      assert NonBlank(c) == head + NonBlank(a[1..] + b);
      assert NonBlank(a) == head + NonBlank(a[1..]);
      assert head + (NonBlank(a[1..]) + NonBlank(b)) == (head + NonBlank(a[1..])) + NonBlank(b);
    } else {
      assert a + b == b;
    }
  }

  /** Pieces that are all non-blank except for a blank last one: only the last one is dropped. */
  lemma NonBlankDropsLast(segs: seq<string>)
    requires |segs| >= 1 && JsText.AllSpace(segs[|segs| - 1])
    requires forall i :: 0 <= i < |segs| - 1 ==> !JsText.AllSpace(segs[i])
    ensures NonBlank(segs) == segs[..|segs| - 1]
  {
    var n := |segs| - 1;
    var init, last := segs[..n], [segs[n]];
    forall i | 0 <= i < |init| ensures !JsText.AllSpace(init[i]) {
      assert init[i] == segs[i];
    }
    NonBlankAll(init);
    BlankDropped(last);
    assert segs == init + last;
    NonBlankAppend(init, last);
  }

  lemma BlankDropped(last: seq<string>)
    requires |last| == 1 && JsText.AllSpace(last[0])
    ensures NonBlank(last) == []
  {
    assert last[1..] == [];
  }

  /**
   * The script splits into exactly the nine statements of the schema, in order: their trimmed
   * texts are the PRAGMA and then the eight CREATE TABLE statements; the blank piece after the
   * last `;` is dropped.
   */
  lemma ScriptStatements()
    ensures |Statements(CreateTablesSql())| == |Script|
    ensures forall i :: 0 <= i < |Script| ==> JsText.Trim(Statements(CreateTablesSql())[i]) == Render(Script[i])
  {
    var segs := Segments();
    SplitScript();
    forall i | 0 <= i < |segs| - 1 ensures !JsText.AllSpace(segs[i]) {
      SegmentNotBlank(i);
    }
    LastSegmentBlank();
    JsText.TrimEmptyIffAllSpace(segs[|segs| - 1]);
    NonBlankDropsLast(segs);
    forall i | 0 <= i < |Script| ensures JsText.Trim(segs[..|Script|][i]) == Render(Script[i]) {
      SegmentTrimmed(i);
    }
  }

  lemma SegmentNotBlank(i: nat)
    requires i < |Script|
    ensures !JsText.AllSpace(Segments()[i])
  {
    SegmentTrimmed(i);
    RenderTrimmed(Script[i]);
    JsText.TrimEmptyIffAllSpace(Segments()[i]);
  }

  /** Executing the rendered text of a statement has exactly its effect. */
  lemma ExecEffect(db: Database, st: Statement)
    ensures Exec(db, Render(st)) == Ok(Effect(db, st))
  {
    match st {
      case PragmaForeignKeysOn => StatementLaws.ExecPragma(db);
      case CreateTable(t) => StatementLaws.ExecCreate(db, t);
    }
  }

  /** Executing the rendered texts of some statements has exactly their effect, and never fails. */
  lemma {:induction false} ExecRendered(db: Database, stmts: seq<string>, sts: seq<Statement>)
    requires |stmts| == |sts|
    requires forall i :: 0 <= i < |sts| ==> JsText.Trim(stmts[i]) == Render(sts[i])
    ensures ExecAll(db, stmts) == Ok(AfterScript(db, sts))
    decreases |sts|
  {
    if sts != [] {
      var text := JsText.Trim(stmts[0]);
      assert text == Render(sts[0]);
      RenderTrimmed(sts[0]);
      ExecEffect(db, sts[0]);
      forall i | 0 <= i < |sts[1..]| ensures JsText.Trim(stmts[1..][i]) == Render(sts[1..][i]) {
        assert stmts[1..][i] == stmts[i + 1] && sts[1..][i] == sts[i + 1];
      }
      ExecRendered(Effect(db, sts[0]), stmts[1..], sts[1..]);
    }
  }

  /**
   * After some statements, enforcement is on if it was or one was the PRAGMA; the tables are the
   * old ones, unchanged, plus an empty table for each CREATE TABLE of a missing one.
   */
  lemma {:induction false} AfterScriptTables(db: Database, sts: seq<Statement>)
    ensures var r := AfterScript(db, sts);
      && (r.foreignKeys <==> db.foreignKeys || PragmaForeignKeysOn in sts)
      && (forall t :: t in r.tables <==> t in db.tables || CreateTable(t) in sts)
      && (forall t :: t in db.tables ==> r.tables[t] == db.tables[t])
      && forall t :: t in r.tables && t !in db.tables ==> r.tables[t] == Table([], 0)
    decreases |sts|
  {
    if sts != [] {
      AfterScriptTables(Effect(db, sts[0]), sts[1..]);
      assert forall st :: st in sts <==> st == sts[0] || st in sts[1..];
    }
  }

  /**
   * Running the creation script's statements turns enforcement on, creates every missing table
   * empty, and leaves every existing table as it was.
   */
  lemma RunScript(db: Database)
    ensures ExecAll(db, Statements(CreateTablesSql())) == Ok(AfterScript(db, Script))
    ensures var r := ExecAll(db, Statements(CreateTablesSql())).value;
      && r.foreignKeys
      && (forall t :: t in r.tables)
      && (forall t :: t in db.tables ==> r.tables[t] == db.tables[t])
      && forall t :: t !in db.tables ==> r.tables[t] == Table([], 0)
  {
    ScriptStatements();
    ExecRendered(db, Statements(CreateTablesSql()), Script);
    AfterScriptTables(db, Script);
    assert Script[0] == PragmaForeignKeysOn;
    forall t ensures CreateTable(t) in Script {
      assert Script[Position(t)] == CreateTable(t);
    }
  }
}
