/**
 * The dashboard (`AccueilScreen`): one `COUNT(*)` query for each of the patients, consultations,
 * examinations and health-data tables, the four counts read through its own `safeParseInt`, their
 * total for the donut chart, and the `refreshing` flag of the pull-to-refresh control.
 */
module Accueil {
  import opened Wrappers
  import opened Schema
  import opened Store
  import opened DbState
  import opened DataAccess
  import JS = JsValue
  import DbSeed
  import JsText

  // ----- Reading a count -----

  /**
   * The `safeParseInt` of `loadData`: a number as it is, a string through `parseInt(s, 10) || 0`
   * (`NaN`, and 0 itself, give 0), and any other value 0.
   */
  function SafeParseInt(v: JS.JsValue): int {
    match v
    case Num(n) => n
    case Str(s) => JS.ParseInt(s).GetOr(0)
    case _ => 0
  }

  /** A count delivered as its decimal text reads as the count. */
  lemma CountTextRead(n: int)
    ensures SafeParseInt(JS.Str(JS.IntToString(n))) == n
  {
    JS.ParseIntOfString(n);
  }

  /** `String(true)` is `'true'`, which has no digits. */
  lemma TrueIsNaN()
    ensures DbSeed.SafeParseInt(JS.Bool(true)) == 0
  {
    var t := "true";
    assert JS.StringOf(JS.Bool(true)) == t;
    assert JsText.TrimStart(t) == t by {
      assert !JsText.IsSpace(t[0]);
    }
    assert JS.UnsignedPart(t) == t;
    assert !JS.IsDigit(t[0]);
    assert JS.LeadingDigits(t) == [];
  }

  /** A non-empty string is parsed as it is by both. */
  lemma TextReadAlike(s: string)
    requires s != []
    ensures DbSeed.SafeParseInt(JS.Str(s)) == JS.ParseInt(s).GetOr(0)
  {
    assert JS.Truthy(JS.Str(s));
  }

  /**
   * This `safeParseInt` and the one of `seedDatabase` (`parseInt(String(value || '0'), 10)`, `NaN`
   * read as 0) give the same number on every value.
   */
  lemma SameAsSeedReading(v: JS.JsValue)
    ensures SafeParseInt(v) == DbSeed.SafeParseInt(v)
  {
    match v
    case Num(n) =>
      DbSeed.SafeParseIntOfNumber(n);
    case Str(s) =>
      SameOnText(s);
    case Bool(b) =>
      SameOnTruth(b);
    case _ =>
      DbSeed.SafeParseIntOfFalsy(v);
  }

  lemma SameOnText(s: string)
    ensures SafeParseInt(JS.Str(s)) == DbSeed.SafeParseInt(JS.Str(s))
  {
    if s == [] {
      DbSeed.SafeParseIntOfFalsy(JS.Str(s));
    } else {
      TextReadAlike(s);
    }
  }

  lemma SameOnTruth(b: bool)
    ensures SafeParseInt(JS.Bool(b)) == DbSeed.SafeParseInt(JS.Bool(b))
  {
    if b {
      TrueIsNaN();
    } else {
      DbSeed.SafeParseIntOfFalsy(JS.Bool(b));
    }
  }

  /** `p[0]?.c`: the count of a `COUNT(*)` answer, `undefined` for any other answer. */
  function CountCell(a: Answer): JS.JsValue {
    if a.Counted? then JS.Num(a.count) else JS.Undefined
  }

  // ----- The counts -----

  /** `stats`. */
  datatype Stats = Stats(patients: int, consultations: int, examens: int, donnees: int)

  /** The `total` of the donut chart. */
  function Total(s: Stats): int {
    s.patients + s.consultations + s.examens + s.donnees
  }

  /**
   * `loadData`, with the four queries of its `Promise.all` run one after the other: the layer after
   * them, and the counts when every query answered (`None` when one threw and the catch ran).
   */
  function StatsLoaded(l: Layer, env: Env): (p: (Layer, Option<Stats>))
    requires Between(l)
    ensures Between(p.0)
  {
    var (l1, p) := Queried(l, Count(Patients), env);
    var (l2, c) := Queried(l1, Count(Consultations), env);
    var (l3, e) := Queried(l2, Count(Examens), env);
    var (l4, d) := Queried(l3, Count(DonneesSanitaires), env);
    if p.Ok? && c.Ok? && e.Ok? && d.Ok? then
      (l4, Some(Stats(SafeParseInt(CountCell(p.value)), SafeParseInt(CountCell(c.value)),
        SafeParseInt(CountCell(e.value)), SafeParseInt(CountCell(d.value)))))
    else (l4, None)
  }

  /** `StatsLoaded` follows its four queries, one after the other. */
  lemma StatsLoadedSteps(l0: Layer, l1: Layer, l2: Layer, l3: Layer, l4: Layer, env: Env,
                         p: Result<Answer, DbError>, c: Result<Answer, DbError>, e: Result<Answer, DbError>, d: Result<Answer, DbError>)
    requires Between(l0) && Between(l1) && Between(l2) && Between(l3)
    requires (l1, p) == Queried(l0, Count(Patients), env) && (l2, c) == Queried(l1, Count(Consultations), env)
    requires (l3, e) == Queried(l2, Count(Examens), env) && (l4, d) == Queried(l3, Count(DonneesSanitaires), env)
    ensures StatsLoaded(l0, env) == (l4,
      if p.Ok? && c.Ok? && e.Ok? && d.Ok? then
        Some(Stats(SafeParseInt(CountCell(p.value)), SafeParseInt(CountCell(c.value)),
          SafeParseInt(CountCell(e.value)), SafeParseInt(CountCell(d.value))))
      else None)
  {
  }

  /** One count query: it initialises the layer, and when it answers it gives the table's size. */
  lemma CountQueried(l: Layer, t: TableName, env: Env)
    requires Between(l)
    ensures var (l1, a) := Queried(l, Count(t), env);
      && l1 == Ensured(l, env).0
      && (a.Ok? <==> l1.state == Ready && t in l1.data.tables)
      && (a.Ok? ==> SafeParseInt(CountCell(a.value)) == |l1.data.tables[t].rows|)
  {
    QueriedAfterInit(l, Count(t), env);
    EnsuredCases(Ensured(l, env).0, env);
    EnsuredSteps(l, env);
  }

  /**
   * When the counts load, each is the number of rows of its table in the initialised database, and
   * the total is the number of rows of the four tables together.
   */
  lemma LoadedCounts(l: Layer, env: Env)
    requires Between(l) && StatsLoaded(l, env).1.Some?
    ensures var (l4, stats) := StatsLoaded(l, env);
      && l4 == Ensured(l, env).0 && l4.state == Ready
      && Patients in l4.data.tables && Consultations in l4.data.tables
      && Examens in l4.data.tables && DonneesSanitaires in l4.data.tables
      && stats.value == Stats(|l4.data.tables[Patients].rows|, |l4.data.tables[Consultations].rows|,
        |l4.data.tables[Examens].rows|, |l4.data.tables[DonneesSanitaires].rows|)
      && Total(stats.value) == |l4.data.tables[Patients].rows| + |l4.data.tables[Consultations].rows|
        + |l4.data.tables[Examens].rows| + |l4.data.tables[DonneesSanitaires].rows|
  {
    var l1 := Queried(l, Count(Patients), env).0;
    var l2 := Queried(l1, Count(Consultations), env).0;
    var l3 := Queried(l2, Count(Examens), env).0;
    CountQueried(l, Patients, env);
    CountQueried(l1, Consultations, env);
    CountQueried(l2, Examens, env);
    CountQueried(l3, DonneesSanitaires, env);
    EnsuredCases(l1, env);
    EnsuredCases(l2, env);
    EnsuredCases(l3, env);
  }

  /** A layer whose initialisation failed answers no query: the counts stay as they were. */
  lemma FailedLayerKeepsCounts(l: Layer, env: Env)
    requires Between(l) && l.state.Failed?
    ensures StatsLoaded(l, env) == (l, None)
  {
    QueriedAfterInit(l, Count(Patients), env);
    EnsuredCases(l, env);
  }

  // ----- The screen -----

  class AccueilScreen {
    /** The data-access layer the counts are read through. */
    const db: DataLayer
    var stats: Stats
    /** The `refreshing` flag the pull-to-refresh control shows. */
    var refreshing: bool
    /** Every value `refreshing` has been set to, in order. */
    ghost var refreshHistory: seq<bool>

    predicate Valid()
      reads this, db
    {
      db.Valid()
    }

    /** The screen as first rendered: four zero counts, not refreshing. */
    constructor(layer: DataLayer)
      requires layer.Valid()
      ensures Valid() && db == layer
      ensures stats == Stats(0, 0, 0, 0) && !refreshing && refreshHistory == []
    {
      db := layer;
      stats := Stats(0, 0, 0, 0);
      refreshing := false;
      refreshHistory := [];
    }

    /**
     * `loadData`: `refreshing` is set before the queries and cleared after them, whether or not
     * one of them threw; the counts are replaced only when every query answered.
     */
    method LoadData(env: Env)
      requires Valid()
      modifies this, db
      ensures Valid()
      ensures var (l, loaded) := StatsLoaded(old(db.Snapshot()), env);
        db.Snapshot() == l && stats == (if loaded.Some? then loaded.value else old(stats))
      ensures !refreshing && refreshHistory == old(refreshHistory) + [true, false]
    {
      refreshing := true;
      refreshHistory := refreshHistory + [true];
      var loaded := LoadCounts(env);
      if loaded.Some? {
        stats := loaded.value;
      }
      refreshing := false;
      refreshHistory := refreshHistory + [false];
      assert refreshHistory == old(refreshHistory) + [true, false];
    }

    /** The `Promise.all` of `loadData`: the four count queries, and the counts when all answered. */
    method LoadCounts(env: Env) returns (loaded: Option<Stats>)
      requires Valid()
      modifies db
      ensures Valid()
      ensures (db.Snapshot(), loaded) == StatsLoaded(old(db.Snapshot()), env)
    {
      ghost var l0 := db.Snapshot();
      var p := db.Query(Count(Patients), env);
      ghost var l1 := db.Snapshot();
      var c := db.Query(Count(Consultations), env);
      ghost var l2 := db.Snapshot();
      var e := db.Query(Count(Examens), env);
      ghost var l3 := db.Snapshot();
      var d := db.Query(Count(DonneesSanitaires), env);
      StatsLoadedSteps(l0, l1, l2, l3, db.Snapshot(), env, p, c, e, d);
      if p.Ok? && c.Ok? && e.Ok? && d.Ok? {
        loaded := Some(Stats(SafeParseInt(CountCell(p.value)), SafeParseInt(CountCell(c.value)),
          SafeParseInt(CountCell(e.value)), SafeParseInt(CountCell(d.value))));
      } else {
        loaded := None;
      }
    }
  }
}
