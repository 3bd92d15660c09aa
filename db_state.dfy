/**
 * The module-level state of the data-access layer and the rule `ensureInitialized` follows.
 * `isInitialized` and `initPromise` together take four values: neither set; a promise in flight;
 * a promise that rejected (it is never cleared); and initialised with no promise.
 */
module DbState {
  import opened Wrappers
  import Store

  /** What can make opening or initialising the database fail. */
  datatype DbError = OpenFailed | Sql(error: Store.SqlError)

  datatype InitState =
    | Idle                       // isInitialized = false, initPromise = null
    | Running                    // isInitialized = false, initPromise pending
    | Failed(error: DbError)     // isInitialized = false, initPromise rejected with `error`
    | Ready                      // isInitialized = true, initPromise = null

  /** What a call of `ensureInitialized` does on entry. */
  datatype Entry =
    | Proceed                    // returns at once
    | Join                       // awaits the promise in flight
    | Rethrow(error: DbError)    // awaits the rejected promise, which throws again
    | Start                      // calls `initDatabase` and awaits it

  function EntryOf(s: InitState): (e: Entry)
    ensures e == Start <==> s == Idle
    ensures e == Proceed <==> s == Ready
  {
    match s
    case Ready => Proceed
    case Running => Join
    case Failed(err) => Rethrow(err)
    case Idle => Start
  }

  /** The state once the awaited `initDatabase` settles. */
  function Settled(outcome: Outcome<DbError>): (s: InitState)
    ensures outcome.Pass? <==> s == Ready
    ensures outcome.Fail? ==> s == Failed(outcome.error)
  {
    match outcome
    case Pass => Ready
    case Fail(err) => Failed(err)
  }

  /** Events of the state machine: a call of `ensureInitialized`, or the in-flight init settling. */
  datatype Event = Call | Settle(outcome: Outcome<DbError>)

  /** The state after one event; a settlement only has an effect while an init is in flight. */
  function Step(s: InitState, ev: Event): InitState {
    match ev
    case Call => if EntryOf(s) == Start then Running else s
    case Settle(outcome) => if s == Running then Settled(outcome) else s
  }

  function Run(s: InitState, evs: seq<Event>): InitState
    decreases |evs|
  {
    if evs == [] then s else Run(Step(s, evs[0]), evs[1..])
  }

  /** How many of the calls in `evs` start `initDatabase`. */
  function Starts(s: InitState, evs: seq<Event>): nat
    decreases |evs|
  {
    if evs == [] then 0
    else (if evs[0] == Call && EntryOf(s) == Start then 1 else 0) + Starts(Step(s, evs[0]), evs[1..])
  }

  /** Only the idle state can ever return to being idle: once left, it is never reached again. */
  lemma {:induction false} NeverIdleAgain(s: InitState, evs: seq<Event>)
    requires s != Idle
    ensures Run(s, evs) != Idle
    decreases |evs|
  {
    if evs != [] {
      NeverIdleAgain(Step(s, evs[0]), evs[1..]);
    }
  }

  /** Leaving the idle state starts `initDatabase`, and nothing starts it again. */
  lemma {:induction false} NoStartOutsideIdle(s: InitState, evs: seq<Event>)
    requires s != Idle
    ensures Starts(s, evs) == 0
    decreases |evs|
  {
    if evs != [] {
      NoStartOutsideIdle(Step(s, evs[0]), evs[1..]);
    }
  }

  /**
   * Whatever calls and settlements interleave, `initDatabase` is started at most once over the
   * life of the module, and only from the idle state.
   */
  lemma {:induction false} AtMostOneInit(s: InitState, evs: seq<Event>)
    ensures Starts(s, evs) <= 1
    ensures s != Idle ==> Starts(s, evs) == 0
    decreases |evs|
  {
    if evs != [] {
      if s == Idle {
        if evs[0] == Call {
          NoStartOutsideIdle(Running, evs[1..]);
        } else {
          AtMostOneInit(s, evs[1..]);
        }
      } else {
        NoStartOutsideIdle(s, evs);
      }
    }
  }

  /** A rejected init is never retried: the state stays failed and every later call rethrows. */
  lemma {:induction false} FailureIsFinal(err: DbError, evs: seq<Event>)
    ensures Run(Failed(err), evs) == Failed(err)
    ensures Starts(Failed(err), evs) == 0
    decreases |evs|
  {
    if evs != [] {
      FailureIsFinal(err, evs[1..]);
    }
  }

  /** Once initialised, the layer stays initialised and every call returns at once. */
  lemma {:induction false} ReadyIsFinal(evs: seq<Event>)
    ensures Run(Ready, evs) == Ready && EntryOf(Run(Ready, evs)) == Proceed
    decreases |evs|
  {
    if evs != [] {
      ReadyIsFinal(evs[1..]);
    }
  }

  /** One call followed by the settlement of the init it may have started. */
  lemma CallThenSettle(s: InitState, outcome: Outcome<DbError>)
    ensures Run(s, [Call, Settle(outcome)]) == if s == Idle || s == Running then Settled(outcome) else s
  {
    var evs := [Call, Settle(outcome)];
    assert evs[0] == Call && evs[1..] == [Settle(outcome)];
    var mid := Step(s, Call);
    assert Run(s, evs) == Run(mid, [Settle(outcome)]);
    assert [Settle(outcome)][1..] == [];
    assert Run(mid, [Settle(outcome)]) == Run(Step(mid, Settle(outcome)), []);
  }
}
