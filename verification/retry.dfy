/** The host's retry loop around a request.

    Each attempt opens a fresh query session, reads the fill status,
    refuses an empty database, serialises the status for the modules and
    runs the attempt. An attempt answers true (done), false (a fork was
    seen: try again on a new session) or fails. After the fourth attempt
    that answers false the request fails. The session is released whenever
    the loop body is left, by any exit.
 */
module Retry {

  import opened Ints
  import opened Errors
  import opened DatabaseStatus
  import opened Storage
  import opened Callbacks

  /** What one attempt did: its verdict, the thread state it left and the
      caller's own accumulated data. */
  datatype Attempt<A> = Attempt(verdict: Result<bool>, st: ThreadState, acc: A)

  /** An attempt, given the session the loop opened for it. */
  type AttemptFn<!A> = (Session, ThreadState, A) -> Attempt<A>

  const MAX_TRIES: nat := 4

  /** The state after opening session `k` and reading its fill status. */
  function Begin(engine: Engine, st: ThreadState, k: nat): (r: ThreadState)
    ensures r.session == Some(engine.open(k)) && r.fillStatus == engine.fill(engine.open(k))
    ensures r.request == st.request && r.reply == st.reply && r.databaseStatus == st.databaseStatus
  {
    var s := engine.open(k);
    st.(session := Some(s), fillStatus := engine.fill(s))
  }

  /** `fill_context_data` on top of `Begin`. */
  function Ready(engine: Engine, st: ThreadState, k: nat): (r: ThreadState)
    ensures r.databaseStatus == EncodeStatus(engine.fill(engine.open(k)))
  {
    var b := Begin(engine, st, k);
    b.(databaseStatus := EncodeStatus(b.fillStatus))
  }

  /** What one pass through the body of the loop did: whether the loop is
      done (and then with what result), the state and data it hands on, and
      whether an attempt ran at all. */
  datatype Turned<A> = Turned(done: bool, result: Result<A>, st: ThreadState, acc: A, ran: bool)

  /** One pass through the body of `retry_loop`, on attempt `k`: open a
      session, refuse an empty database, serialise the status, run the
      attempt and release the session. The loop goes on only after a fork
      seen before the fourth attempt. */
  function Step<A>(engine: Engine, st: ThreadState, acc: A, f: AttemptFn<A>, k: nat): (t: Turned<A>)
    requires k < MAX_TRIES
    ensures t.st.session.None?
    ensures t.ran <==> engine.fill(engine.open(k)).head != 0
    ensures !t.ran ==> t.done && t.result == Fail(EmptyDatabase) && t.acc == acc
    ensures !t.ran ==> t.st == Begin(engine, st, k).(session := None)
    ensures t.ran ==>
      var a := f(engine.open(k), Ready(engine, st, k), acc);
      && t.st == a.st.(session := None)
      && t.acc == a.acc
      && (!t.done <==> a.verdict == Ok(false) && k + 1 < MAX_TRIES)
      && (t.done ==> (t.result.Ok? <==> a.verdict == Ok(true)))
      && (a.verdict == Ok(true) ==> t.result == Ok(a.acc))
      && (a.verdict.Fail? ==> t.result == Fail(a.verdict.error))
      && (t.done && a.verdict == Ok(false) ==> t.result == Fail(TooManyForks))
  {
    var b := Begin(engine, st, k);
    if b.fillStatus.head == 0 then
      Turned(true, Fail(EmptyDatabase), b.(session := None), acc, false)
    else
      var ready := b.(databaseStatus := EncodeStatus(b.fillStatus));
      var a := f(engine.open(k), ready, acc);
      var released := a.st.(session := None);
      if a.verdict.Fail? then Turned(true, Fail(a.verdict.error), released, a.acc, true)
      else if a.verdict.value then Turned(true, Ok(a.acc), released, a.acc, true)
      else if k + 1 >= MAX_TRIES then Turned(true, Fail(TooManyForks), released, a.acc, true)
      else Turned(false, Fail(TooManyForks), released, a.acc, true)
  }

  /** How the loop ended: its result, the state it left and the number of
      attempts it ran. */
  datatype Run<A> = Run(result: Result<A>, st: ThreadState, calls: nat)

  /** The loop from attempt `k` (counting from zero) on. */
  function RetryFrom<A>(engine: Engine, st: ThreadState, acc: A, f: AttemptFn<A>, k: nat): (r: Run<A>)
    requires k < MAX_TRIES
    ensures r.st.session.None?
    ensures r.calls <= MAX_TRIES - k
    decreases MAX_TRIES - k
  {
    var t := Step(engine, st, acc, f, k);
    if t.done then Run(t.result, t.st, if t.ran then 1 else 0)
    else
      var rest := RetryFrom(engine, t.st, t.acc, f, k + 1);
      rest.(calls := rest.calls + 1)
  }

  /** No attempt runs on an empty database, and then the loop fails. */
  lemma RetryEmpty<A>(engine: Engine, st: ThreadState, acc: A, f: AttemptFn<A>, k: nat)
    requires k < MAX_TRIES
    ensures engine.fill(engine.open(k)).head == 0 <==> RetryFrom(engine, st, acc, f, k).calls == 0
    ensures RetryFrom(engine, st, acc, f, k).calls == 0 ==> RetryFrom(engine, st, acc, f, k).result == Fail(EmptyDatabase)
  {
  }

  /** `retry_loop`, as the host writes it: a loop over attempts. Besides
      the result and the final state it yields, as ghosts, the number of
      attempts that ran and the input of the one that ended the loop. */
  method RetryLoop<A>(engine: Engine, st0: ThreadState, acc0: A, f: AttemptFn<A>)
    returns (r: Result<A>, st: ThreadState, ghost calls: nat, ghost last: ThreadState, ghost lastAcc: A)
    ensures r == RetryFrom(engine, st0, acc0, f, 0).result
    ensures st == RetryFrom(engine, st0, acc0, f, 0).st
    ensures st.session.None?
    ensures calls <= MAX_TRIES
    ensures calls == 0 <==> engine.fill(engine.open(0)).head == 0
    ensures calls == 0 ==> r == Fail(EmptyDatabase)
    ensures calls > 0 ==>
      && last == Ready(engine, last, calls - 1)
      && last.fillStatus.head != 0
    ensures calls > 0 ==>
      var a := f(engine.open(calls - 1), last, lastAcc);
      && (r.Ok? <==> a.verdict == Ok(true))
      && (r.Ok? ==> r.value == a.acc && st == a.st.(session := None))
      && (a.verdict.Fail? ==> r == Fail(a.verdict.error))
      && (a.verdict == Ok(false) ==>
            || (calls == MAX_TRIES && r == Fail(TooManyForks))
            || (calls < MAX_TRIES && engine.fill(engine.open(calls)).head == 0 && r == Fail(EmptyDatabase)))
    ensures (forall s, t, a :: f(s, t, a).st.request == t.request) ==>
      st.request == st0.request && (calls > 0 ==> last.request == st0.request)
  {
    var acc := acc0;
    var tries := 0;
    st, calls, last, lastAcc := st0, 0, st0, acc0;
    while true
      invariant tries < MAX_TRIES && calls == tries
      invariant RetryFrom(engine, st, acc, f, tries).result == RetryFrom(engine, st0, acc0, f, 0).result
      invariant RetryFrom(engine, st, acc, f, tries).st == RetryFrom(engine, st0, acc0, f, 0).st
      invariant tries > 0 ==> engine.fill(engine.open(0)).head != 0
      invariant tries > 0 ==>
        && last == Ready(engine, last, tries - 1)
        && last.fillStatus.head != 0
        && var a := f(engine.open(tries - 1), last, lastAcc);
           a.verdict == Ok(false) && st == a.st.(session := None) && acc == a.acc
      invariant (forall s, t, a :: f(s, t, a).st.request == t.request) ==>
        st.request == st0.request && (tries > 0 ==> last.request == st0.request)
      decreases MAX_TRIES - tries
    {
      var t := Step(engine, st, acc, f, tries);
      if t.ran {
        calls, last, lastAcc := tries + 1, Ready(engine, st, tries), acc;
      }
      st, acc := t.st, t.acc;
      if t.done {
        return t.result, st, calls, last, lastAcc;
      }
      tries := tries + 1;
    }
  }

  /** An attempt that always reports a fork, on a database that never
      empties, exhausts the four attempts and fails. */
  lemma {:induction false} RetryAlwaysForking<A>(engine: Engine, st: ThreadState, acc: A, f: AttemptFn<A>, k: nat)
    requires k < MAX_TRIES
    requires forall j :: k <= j < MAX_TRIES ==> engine.fill(engine.open(j)).head != 0
    requires forall s, t, a :: f(s, t, a).verdict == Ok(false)
    ensures RetryFrom(engine, st, acc, f, k).result == Fail(TooManyForks)
    ensures RetryFrom(engine, st, acc, f, k).calls == MAX_TRIES - k
    decreases MAX_TRIES - k
  {
    if k + 1 < MAX_TRIES {
      var t := Step(engine, st, acc, f, k);
      RetryAlwaysForking(engine, t.st, t.acc, f, k + 1);
    }
  }

  /** An attempt that leaves the unread input alone lets every attempt see
      the input the loop started with. */
  lemma {:induction false} RetryKeepsRequest<A>(engine: Engine, st: ThreadState, acc: A, f: AttemptFn<A>, k: nat)
    requires k < MAX_TRIES
    requires forall s, t, a :: f(s, t, a).st.request == t.request
    ensures RetryFrom(engine, st, acc, f, k).st.request == st.request
    decreases MAX_TRIES - k
  {
    var t := Step(engine, st, acc, f, k);
    if !t.done {
      RetryKeepsRequest(engine, t.st, t.acc, f, k + 1);
    }
  }
}
