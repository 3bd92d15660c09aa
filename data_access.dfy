/**
 * The data-access layer of `src/db/index.ts`: a cached handle on `hospital.db`, the
 * initialisation state, and `getDB`, `initDatabase`, `seedDatabase`, `ensureInitialized`, `query`
 * and `run` as methods that change them. Opening the file and the clock are inputs (`Env`).
 */
module DataAccess {
  import opened Wrappers
  import opened Schema
  import opened Store
  import opened DbState
  import JsText
  import DbScript
  import DbSeed
  import StatementLaws
  import Cascade
  import StoreLaws

  /** What the device decides for one call: whether opening `hospital.db` succeeds, and the time. */
  datatype Env = Env(openOk: bool, clock: Clock)

  /**
   * The database once the creation script has run on `db`: enforcement on, every table that was
   * missing created empty, the others as they were. Executing the script's text gives exactly this
   * (`ScriptCreates`).
   */
  function Created(db: Database): (d: Database)
    ensures d.foreignKeys && forall t :: t in d.tables
    ensures forall t :: t in db.tables ==> d.tables[t] == db.tables[t]
    ensures forall t :: t !in db.tables ==> d.tables[t] == Table([], 0)
  {
    var d := Database(map t | t in AllTables :: if t in db.tables then db.tables[t] else Table([], 0), true);
    assert forall t :: t in d.tables by {
      forall t ensures t in AllTables {
        assert AllTables[Position(t) - 1] == t;
      }
    }
    d
  }

  /** Executing the creation script's text on `db`, statement by statement, succeeds with `Created(db)`. */
  lemma ScriptCreates(db: Database)
    ensures DbScript.ExecAll(db, DbScript.Statements(CreateTablesSql())) == Ok(Created(db))
  {
    DbScript.RunScript(db);
    SameDatabase(DbScript.AfterScript(db, Script), Created(db));
  }

  /** The database the loop of `initDatabase` leaves: all statements run, or up to the first error. */
  function Reached(db: Database, stmts: seq<string>): Database
    decreases |stmts|
  {
    if stmts == [] then db
    else if JsText.Trim(stmts[0]) == [] then Reached(db, stmts[1..])
    else
      match Exec(db, JsText.Trim(stmts[0]))
      case Err(_) => db
      case Ok(next) => Reached(next, stmts[1..])
  }

  /** One statement of the loop: blank ones are skipped, a failing one stops it. */
  lemma StatementStep(db: Database, stmts: seq<string>)
    requires stmts != []
    ensures JsText.Trim(stmts[0]) == [] ==>
      DbScript.ExecAll(db, stmts) == DbScript.ExecAll(db, stmts[1..]) && Reached(db, stmts) == Reached(db, stmts[1..])
    ensures JsText.Trim(stmts[0]) != [] && Exec(db, JsText.Trim(stmts[0])).Err? ==>
      DbScript.ExecAll(db, stmts) == Err(Exec(db, JsText.Trim(stmts[0])).error) && Reached(db, stmts) == db
    ensures JsText.Trim(stmts[0]) != [] && Exec(db, JsText.Trim(stmts[0])).Ok? ==>
      && DbScript.ExecAll(db, stmts) == DbScript.ExecAll(Exec(db, JsText.Trim(stmts[0])).value, stmts[1..])
      && Reached(db, stmts) == Reached(Exec(db, JsText.Trim(stmts[0])).value, stmts[1..])
  {
  }

  /** When no statement fails, the loop leaves the database the whole script produces. */
  lemma {:induction false} ReachedAll(db: Database, stmts: seq<string>)
    requires DbScript.ExecAll(db, stmts).Ok?
    ensures Reached(db, stmts) == DbScript.ExecAll(db, stmts).value
    decreases |stmts|
  {
    if stmts != [] {
      if JsText.Trim(stmts[0]) == [] {
        ReachedAll(db, stmts[1..]);
      } else {
        ReachedAll(Exec(db, JsText.Trim(stmts[0])).value, stmts[1..]);
      }
    }
  }

  /** The database once `initDatabase` has run on `db`: the creation script, then the seed. */
  function Initialized(db: Database, clock: Clock): Database {
    DbSeed.Seed(Created(db), clock)
  }

  /** A query's answer, with an engine error reported as a database error. */
  function Answered(db: Database, q: Query): (r: Result<Answer, DbError>)
    ensures r.Err? <==> Eval(db, q).Err?
    ensures r.Ok? ==> r.value == Eval(db, q).value
    ensures r.Err? ==> r.error == Sql(Eval(db, q).error)
  {
    match Eval(db, q)
    case Err(e) => Err(Sql(e))
    case Ok(a) => Ok(a)
  }

  /** The rows of an answer, when it is a list of rows. */
  function RowsOf(a: Result<Answer, DbError>): (r: Option<seq<Row>>)
    ensures r.Some? <==> a.Ok? && a.value.Rows?
    ensures r.Some? ==> r.value == a.value.rows
  {
    if a.Ok? && a.value.Rows? then Some(a.value.rows) else None
  }

  /** On a database that already has every table and enforcement on, the script changes nothing. */
  lemma CreatedComplete(db: Database)
    requires db.foreignKeys && forall t :: t in db.tables
    ensures Created(db) == db
  {
    SameDatabase(Created(db), db);
  }

  lemma SameDatabase(a: Database, b: Database)
    requires a.foreignKeys == b.foreignKeys && (forall t :: t in a.tables && t in b.tables)
    requires forall t :: t in b.tables ==> a.tables[t] == b.tables[t]
    ensures a == b
  {
    assert a.tables == b.tables;
  }

  /** On a database of any previous run, the script changes nothing. */
  lemma CreatedSeeded(db: Database, clock: Clock)
    ensures Created(DbSeed.Seed(Created(db), clock)) == DbSeed.Seed(Created(db), clock)
  {
    DbSeed.SeedExtends(Created(db), clock);
    CreatedComplete(DbSeed.Seed(Created(db), clock));
  }

  /**
   * Restarting the app over a file that a previous start initialised changes nothing: the tables
   * all exist, and the seed finds nothing left to insert.
   */
  lemma RestartChangesNothing(db: Database, clock: Clock)
    ensures Initialized(Initialized(db, clock), clock) == Initialized(db, clock)
  {
    CreatedSeeded(db, clock);
    DbSeed.SeedTwice(Created(db), clock);
  }

  /** A new file holds no table; the script leaves every table empty with enforcement on. */
  lemma CreatedNew(clock: Clock)
    ensures DbSeed.Fresh(Created(Database(map[], false)))
  {
  }

  /**
   * The first start on a new file: each entity table holds its fixture and `donnees_sanitaires`
   * the five example facts, under keys from 1; consultations, examinations and attachments are empty.
   */
  lemma FirstStart(clock: Clock)
    ensures var d := Initialized(Database(map[], false), clock);
      && d.foreignKeys && (forall t :: t in d.tables)
      && (forall t :: DbSeed.IsEntity(t) ==> d.tables[t] == Table(StatementLaws.NewRows(t, DbSeed.Fixture(t), 1, clock), |DbSeed.Fixture(t)|))
      && d.tables[DonneesSanitaires] == Table(StatementLaws.NewRows(DonneesSanitaires, DbSeed.DonneeRows, 1, clock), 5)
      && forall t :: !DbSeed.IsEntity(t) && t != DonneesSanitaires ==> d.tables[t] == Table([], 0)
  {
    CreatedNew(clock);
    DbSeed.SeedFresh(Created(Database(map[], false)), clock);
  }

  // ----- The layer as a value -----

  /** The module-level state of the layer: the handle, the file's contents, the init state. */
  datatype Layer = Layer(handleOpen: bool, data: Database, state: InitState)

  /**
   * Between calls no init is in flight (the model has no interleaving), and the layer is only
   * initialised once the handle is open.
   */
  predicate Between(l: Layer) {
    l.state != Running && (l.state == Ready ==> l.handleOpen)
  }

  /** `ensureInitialized` on the layer: the layer after the call, and how the call settles. */
  function Ensured(l: Layer, env: Env): (p: (Layer, Outcome<DbError>))
    requires Between(l)
    ensures Between(p.0)
    ensures p.1.Pass? <==> p.0.state == Ready
  {
    match EntryOf(l.state)
    case Proceed => (l, Pass)
    case Rethrow(e) => (l, Fail(e))
    case Join => assert false; (l, Pass)
    case Start =>
      var handleOpen := l.handleOpen || env.openOk;
      var r := if handleOpen then Pass else Fail(OpenFailed);
      (Layer(handleOpen, if handleOpen then Initialized(l.data, env.clock) else l.data, Settled(r)), r)
  }

  /** `run` on the layer: initialise, then apply the statement; any error is rethrown. */
  function Ran(l: Layer, cmd: Command, env: Env): (p: (Layer, Outcome<DbError>))
    requires Between(l)
    ensures Between(p.0)
  {
    var (init, r) := Ensured(l, env);
    if r.Fail? then (init, r)
    else
      match Apply(init.data, cmd, env.clock)
      case Err(e) => (init, Fail(Sql(e)))
      case Ok(next) => (init.(data := next), Pass)
  }

  /** `query` on the layer: initialise, then evaluate; any error is rethrown. */
  function Queried(l: Layer, q: Query, env: Env): (p: (Layer, Result<Answer, DbError>))
    requires Between(l)
    ensures Between(p.0)
  {
    var (init, r) := Ensured(l, env);
    if r.Fail? then (init, Err(r.error)) else (init, Answered(init.data, q))
  }

  /**
   * A call settles the layer for good: a second call, whatever the device does, changes nothing
   * and settles the same way. So `initDatabase` runs at most once, and a rejected init is never
   * retried.
   */
  lemma EnsuredOnce(l: Layer, env: Env, later: Env)
    requires Between(l)
    ensures Ensured(Ensured(l, env).0, later) == Ensured(l, env)
  {
    EnsuredCases(l, env);
    EnsuredCases(Ensured(l, env).0, later);
  }

  /** The call follows the state machine of `ensureInitialized`: a call, then its settlement. */
  lemma EnsuredSteps(l: Layer, env: Env)
    requires Between(l)
    ensures Ensured(l, env).0.state == DbState.Run(l.state, [Call, Settle(Ensured(l, env).1)])
  {
    CallThenSettle(l.state, Ensured(l, env).1);
  }

  /**
   * An initialised layer returns at once and an init that rejected is rethrown, both without
   * touching the file; otherwise the file is opened, created and seeded, or the open fails.
   */
  lemma EnsuredCases(l: Layer, env: Env)
    requires Between(l)
    ensures l.state == Ready ==> Ensured(l, env) == (l, Pass)
    ensures l.state.Failed? ==> Ensured(l, env) == (l, Fail(l.state.error))
    ensures l.state == Idle && (l.handleOpen || env.openOk) ==>
      Ensured(l, env) == (Layer(true, Initialized(l.data, env.clock), Ready), Pass)
    ensures l.state == Idle && !(l.handleOpen || env.openOk) ==>
      Ensured(l, env) == (l.(state := Failed(OpenFailed)), Fail(OpenFailed))
  {
  }

  /**
   * `run` and `query` touch the file only once the layer is initialised: when they succeed the
   * layer is ready, and while an init that rejected is cached they rethrow its error.
   */
  lemma RanAfterInit(l: Layer, cmd: Command, env: Env)
    requires Between(l)
    ensures Ran(l, cmd, env).1.Pass? ==> Ran(l, cmd, env).0.state == Ready
    ensures l.state.Failed? ==> Ran(l, cmd, env) == (l, Fail(l.state.error))
    ensures Ran(l, cmd, env).0.state != Ready ==> Ran(l, cmd, env).0.data == Ensured(l, env).0.data
  {
    var (init, r) := Ensured(l, env);
    if r.Fail? {
      assert Ran(l, cmd, env) == (init, r);
    } else {
      assert init.state == Ready && Ran(l, cmd, env).0.state == Ready;
    }
    if l.state.Failed? {
      EnsuredCases(l, env);
    }
  }

  /** On a ready layer, `run` is one statement of the engine: applied, or rejected without effect. */
  lemma RanReady(l: Layer, cmd: Command, env: Env)
    requires Between(l) && l.state == Ready
    ensures Ran(l, cmd, env).0.state == Ready && Ran(l, cmd, env).0.handleOpen
    ensures Apply(l.data, cmd, env.clock).Ok? ==> Ran(l, cmd, env) == (l.(data := Apply(l.data, cmd, env.clock).value), Pass)
    ensures Apply(l.data, cmd, env.clock).Err? ==> Ran(l, cmd, env) == (l, Fail(Sql(Apply(l.data, cmd, env.clock).error)))
  {
  }

  /** On a ready layer, a DELETE the engine accepts passes and leaves the layer holding its result. */
  lemma DeleteRan(l: Layer, t: TableName, where: seq<Cond>, env: Env)
    requires Between(l) && l.state == Ready && DeleteRows(l.data, t, where).Ok?
    ensures Ran(l, Delete(t, where), env) == (l.(data := DeleteRows(l.data, t, where).value), Pass)
  {
    assert Apply(l.data, Delete(t, where), env.clock) == DeleteRows(l.data, t, where);
    RanReady(l, Delete(t, where), env);
  }

  /** On a ready layer, deleting a fact by key passes and leaves the layer holding the delete's result. */
  lemma LeafDeleteRan(l: Layer, t: TableName, id: int, env: Env)
    requires Between(l) && l.state == Ready && l.data.foreignKeys && StoreLaws.Referential(l.data)
    requires t in l.data.tables
    requires t == DonneesSanitaires || t == Consultations || t == Examens || t == PiecesJointes
    ensures DeleteRows(l.data, t, Cascade.ByKey(t, id)).Ok?
    ensures DeleteRows(l.data, t, Cascade.ByKey(t, id)).value.tables.Keys == l.data.tables.Keys
    ensures Ran(l, Delete(t, Cascade.ByKey(t, id)), env) == (l.(data := DeleteRows(l.data, t, Cascade.ByKey(t, id)).value), Pass)
  {
    LeafDeleteKeepsTables(l.data, t, id);
    DeleteRan(l, t, Cascade.ByKey(t, id), env);
  }

  /** Deleting a fact by key succeeds and keeps the set of tables. */
  lemma LeafDeleteKeepsTables(db: Database, t: TableName, id: int)
    requires db.foreignKeys && StoreLaws.Referential(db) && t in db.tables
    requires t == DonneesSanitaires || t == Consultations || t == Examens || t == PiecesJointes
    ensures DeleteRows(db, t, Cascade.ByKey(t, id)).Ok?
    ensures DeleteRows(db, t, Cascade.ByKey(t, id)).value.tables.Keys == db.tables.Keys
  {
    Cascade.DeleteLeafRow(db, t, id);
  }

  lemma QueriedAfterInit(l: Layer, q: Query, env: Env)
    requires Between(l)
    ensures Queried(l, q, env).0 == Ensured(l, env).0
    ensures Queried(l, q, env).1.Ok? ==> Queried(l, q, env).0.state == Ready
    ensures l.state.Failed? ==> Queried(l, q, env) == (l, Err(l.state.error))
    ensures l.state == Ready ==> Queried(l, q, env) == (l, Answered(l.data, q))
  {
  }

  class DataLayer {
    /** `db !== null`: the handle on `hospital.db` has been handleOpen. */
    var handleOpen: bool
    /** The contents of `hospital.db`. */
    var data: Database
    /** `isInitialized` and `initPromise` together. */
    var state: InitState

    /** Between calls: see `Between`. */
    predicate Valid()
      reads this
    {
      Between(Snapshot())
    }

    function Snapshot(): Layer
      reads this
    {
      Layer(handleOpen, data, state)
    }

    /** The module as loaded: no handle, not initialised, over the file's current contents. */
    constructor(disk: Database)
      ensures Valid() && !handleOpen && data == disk && state == Idle
    {
      handleOpen := false;
      data := disk;
      state := Idle;
    }

    /** `getDB`: opens the file on the first successful call and keeps the handle afterwards. */
    method GetDb(openOk: bool) returns (r: Outcome<DbError>)
      modifies this
      ensures handleOpen == (old(handleOpen) || openOk)
      ensures r == (if handleOpen then Pass else Fail(OpenFailed))
      ensures data == old(data) && state == old(state)
    {
      if !handleOpen {
        if !openOk {
          return Fail(OpenFailed);
        }
        handleOpen := true;
      }
      return Pass;
    }

    /** `database.runAsync`: a statement that fails leaves the database as it was. */
    method RunStatement(cmd: Command, clock: Clock) returns (failure: Option<SqlError>)
      modifies this
      ensures DbSeed.Progress(data, failure) == DbSeed.RunAll(old(data), [cmd], clock)
      ensures handleOpen == old(handleOpen) && state == old(state)
    {
      match Apply(data, cmd, clock)
      case Err(e) =>
        failure := Some(e);
      case Ok(next) =>
        data := next;
        failure := None;
    }

    /** One `if (safeParseInt(count) === 0) await database.runAsync(INSERT …)` of the seed. */
    method InsertWhenEmpty(count: int, t: TableName, rows: seq<Assignments>, clock: Clock) returns (failure: Option<SqlError>)
      modifies this
      ensures DbSeed.Progress(data, failure) == DbSeed.RunAll(old(data), DbSeed.InsertIfEmpty(count, t, rows), clock)
      ensures handleOpen == old(handleOpen) && state == old(state)
    {
      failure := None;
      if count == 0 {
        failure := RunStatement(Insert(t, rows), clock);
      }
    }

    /** The four reference-data inserts of the seed, in source order; an error skips the rest. */
    method SeedEntities(c: DbSeed.Counts, clock: Clock) returns (failure: Option<SqlError>)
      modifies this
      ensures DbSeed.Progress(data, failure) == DbSeed.RunAll(old(data), DbSeed.EntitySteps(c), clock)
      ensures handleOpen == old(handleOpen) && state == old(state)
    {
      var a := DbSeed.InsertIfEmpty(c.patients, Patients, DbSeed.PatientRows);
      var b := DbSeed.InsertIfEmpty(c.typesDonnees, TypesDonnees, DbSeed.TypeDonneeRows);
      var d := DbSeed.InsertIfEmpty(c.typesConsultations, TypesConsultations, DbSeed.TypeConsultationRows);
      var e := DbSeed.InsertIfEmpty(c.typesExamens, TypesExamens, DbSeed.TypeExamenRows);
      DbSeed.RunAllAppend(data, a, b, clock);
      DbSeed.RunAllAppend(data, a + b, d, clock);
      DbSeed.RunAllAppend(data, a + b + d, e, clock);
      failure := InsertWhenEmpty(c.patients, Patients, DbSeed.PatientRows, clock);
      if failure.None? {
        failure := InsertWhenEmpty(c.typesDonnees, TypesDonnees, DbSeed.TypeDonneeRows, clock);
      }
      if failure.None? {
        failure := InsertWhenEmpty(c.typesConsultations, TypesConsultations, DbSeed.TypeConsultationRows, clock);
      }
      if failure.None? {
        failure := InsertWhenEmpty(c.typesExamens, TypesExamens, DbSeed.TypeExamenRows, clock);
      }
    }

    /** The three example-data inserts of the seed; an error skips the rest. */
    method SeedExamples(clock: Clock) returns (failure: Option<SqlError>)
      modifies this
      ensures DbSeed.Progress(data, failure) == DbSeed.RunAll(old(data), DbSeed.SampleSteps, clock)
      ensures handleOpen == old(handleOpen) && state == old(state)
    {
      var a := [Insert(DonneesSanitaires, DbSeed.DonneeRows)];
      var b := [Insert(Consultations, DbSeed.ConsultationRows)];
      var e := [Insert(Examens, DbSeed.ExamenRows)];
      assert DbSeed.SampleSteps == a + b + e;
      DbSeed.RunAllAppend(data, a, b, clock);
      DbSeed.RunAllAppend(data, a + b, e, clock);
      failure := RunStatement(a[0], clock);
      if failure.None? {
        failure := RunStatement(b[0], clock);
      }
      if failure.None? {
        failure := RunStatement(e[0], clock);
      }
    }

    /**
     * `seedDatabase`: reads the four counts, inserts each fixture whose table was empty, then the
     * example data when `donnees_sanitaires` is empty. Every error is swallowed and skips the rest.
     */
    method SeedDatabase(clock: Clock)
      modifies this
      ensures data == DbSeed.Seed(old(data), clock)
      ensures handleOpen == old(handleOpen) && state == old(state)
    {
      var pc := DbSeed.CountOf(data, Patients);
      if pc.Err? { return; }
      var tdc := DbSeed.CountOf(data, TypesDonnees);
      if tdc.Err? { return; }
      var tcc := DbSeed.CountOf(data, TypesConsultations);
      if tcc.Err? { return; }
      var tec := DbSeed.CountOf(data, TypesExamens);
      if tec.Err? { return; }
      var counts := DbSeed.Counts(pc.value, tdc.value, tcc.value, tec.value);
      var failure := SeedEntities(counts, clock);
      if failure.Some? { return; }
      var dc := DbSeed.CountOf(data, DonneesSanitaires);
      if dc.Err? { return; }
      if dc.value == 0 {
        failure := SeedExamples(clock);
      }
    }

    /**
     * The loop of `initDatabase`: executes each non-blank statement trimmed, in order, and stops
     * at the first error, leaving the statements before it executed.
     */
    method ExecStatements(stmts: seq<string>) returns (failure: Option<SqlError>)
      modifies this
      ensures failure == (if DbScript.ExecAll(old(data), stmts).Err? then Some(DbScript.ExecAll(old(data), stmts).error) else None)
      ensures data == Reached(old(data), stmts)
      ensures handleOpen == old(handleOpen) && state == old(state)
    {
      var i := 0;
      while i < |stmts|
        invariant 0 <= i <= |stmts|
        invariant handleOpen == old(handleOpen) && state == old(state)
        invariant DbScript.ExecAll(data, stmts[i..]) == DbScript.ExecAll(old(data), stmts)
        invariant Reached(data, stmts[i..]) == Reached(old(data), stmts)
      {
        var text := JsText.Trim(stmts[i]);
        StatementStep(data, stmts[i..]);
        assert stmts[i..][0] == stmts[i] && stmts[i..][1..] == stmts[i + 1..];
        if text != [] {
          match Exec(data, text)
          case Err(e) =>
            return Some(e);
          case Ok(next) =>
            data := next;
        }
        i := i + 1;
      }
      return None;
    }

    /** `initDatabase`: opens the file, runs the creation script, then seeds. */
    method InitDatabase(env: Env) returns (r: Outcome<DbError>)
      modifies this
      ensures handleOpen == (old(handleOpen) || env.openOk)
      ensures r == (if handleOpen then Pass else Fail(OpenFailed))
      ensures data == (if handleOpen then Initialized(old(data), env.clock) else old(data))
      ensures state == old(state)
    {
      r := GetDb(env.openOk);
      if r.Fail? {
        return;
      }
      var stmts := DbScript.Statements(CreateTablesSql());
      ScriptCreates(data);
      ReachedAll(data, stmts);
      var failure := ExecStatements(stmts);
      match failure {
        case Some(e) =>
          assert false;
          return Fail(Sql(e));
        case None =>
      }
      SeedDatabase(env.clock);
    }

    /**
     * `ensureInitialized`: returns at once when initialised, rethrows when a previous init
     * rejected, and otherwise starts `initDatabase` and records how it settled.
     */
    method EnsureInitialized(env: Env) returns (r: Outcome<DbError>)
      requires Valid()
      modifies this
      ensures Valid()
      ensures (Snapshot(), r) == Ensured(old(Snapshot()), env)
    {
      ghost var l0 := Snapshot();
      EnsuredCases(l0, env);
      if state == Ready {
        return Pass;
      }
      if state.Failed? {
        return Fail(state.error);
      }
      state := Running;
      r := InitDatabase(env);
      state := Settled(r);
      assert Snapshot() == Ensured(l0, env).0;
    }

    /** `query`: initialises first, then evaluates; every error is rethrown. */
    method Query(q: Query, env: Env) returns (r: Result<Answer, DbError>)
      requires Valid()
      modifies this
      ensures Valid()
      ensures (Snapshot(), r) == Queried(old(Snapshot()), q, env)
    {
      var init := EnsureInitialized(env);
      if init.Fail? {
        return Err(init.error);
      }
      var handle := GetDb(env.openOk);
      assert handle == Pass;
      r := Answered(data, q);
    }

    /** `run`: initialises first, then applies the statement; every error is rethrown. */
    method Run(cmd: Command, env: Env) returns (r: Outcome<DbError>)
      requires Valid()
      modifies this
      ensures Valid()
      ensures (Snapshot(), r) == Ran(old(Snapshot()), cmd, env)
    {
      ghost var l0 := old(Snapshot());
      var init := EnsureInitialized(env);
      ghost var l1 := Snapshot();
      if init.Fail? {
        return init;
      }
      var handle := GetDb(env.openOk);
      assert handle == Pass && Snapshot() == l1;
      var failure := RunStatement(cmd, env.clock);
      DbSeed.RunSingle(l1.data, cmd, env.clock);
      r := if failure.Some? then Fail(Sql(failure.value)) else Pass;
    }
  }
}
