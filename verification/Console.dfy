/**
 * The run/cancel protocol of the SQL console (`ScriptRunner`).
 *
 * Any number of runs, cancel requests and the connection pool interleave. Each stretch of code between two awaits is
 * one atomic action; the order in which actions happen is free. A run registered with `track` (a measured plan) goes
 * through the same stations as a script of one statement that stops on its first error.
 *
 * The tail of a run, from its last look at the flag to its leaving the registry, waits on nothing but promises that
 * are already resolved. It is kept as separate actions here, so that cancel requests may slip in between, but an
 * action that resumes after a round trip or a timer cannot happen while a run is in its tail (`Quiet`).
 */
module Console {
  import opened Wrappers

  type RunId = nat
  type ConnId = nat
  type RequestId = nat
  type QueryId = string

  const CANCEL_RETRIES := 40

  datatype Phase =
    | Acquiring                    // waiting for a connection
    | Borrowed                     // the statement timeout is being set
    | SettingUp                    // session setup, before the backend id is published
    | AtBoundary(next: nat)        // about to look at the flag before statement `next`
    | OnWire(stmt: nat, wrapped: bool)
    | Reporting(stmt: nat)         // results going to the caller
    | ReportingError(stmt: nat)
    | Probing                      // in the finally, perhaps asking whether a transaction is open
    | RollingBack
    | Resetting
    | Releasing(discard: bool)     // past the last look at the flag
    | Deregistering                // the connection has been let go
    | Ended

  /** The promise of the backend id: it resolves once. */
  datatype Backend = Unpublished | Published(conn: ConnId) | Withheld

  /** The one `sendCancel` a run's cancel requests share (`cancelling`); Idle is null. */
  datatype Sender =
    | Idle
    | Opening
    | Signalling(wasInFlight: bool)
    | Pausing(attempt: nat)
    | Resignalling(attempt: nat)
    | Settling
    | Closing(answer: Option<bool>)
    | Answered(result: bool)

  /** A user statement, by its number in the script: put on the wire, or turned down without being sent. */
  datatype Attempt = Sent(stmt: nat, wrapped: bool) | Rejected(stmt: nat)

  datatype Run = Run(
    queryId: Option<QueryId>, total: nat, stopOnError: bool, phase: Phase, conn: Option<ConnId>, backend: Backend,
    cancelled: bool, interrupted: bool, signalled: bool, inFlight: bool, cancelling: Sender,
    tried: seq<Attempt>)

  datatype State = State(
    runs: map<RunId, Run>, running: map<QueryId, RunId>, pool: set<ConnId>, discarded: set<ConnId>,
    waiting: map<RequestId, RunId> /* cancel requests waiting for a backend id */,
    sent: set<(ConnId, RunId)> /* every signal ever sent: it may land at any later moment */)

  const INIT := State(map[], map[], {}, {}, map[], {})

  /** What the code running a script does between two awaits. */
  datatype RunEvent =
    | Acquire(c: ConnId)
    | AcquireFailed
    | BorrowDone(ok: bool)
    | SetupDone(ok: bool)
    | Boundary(rejected: bool, wrapped: bool)
    | WireOk
    | WireError(wrapperOnly: bool)
    | Reported(ok: bool)
    | ErrorReported(ok: bool)
    | Probed
    | RolledBack
    | ResetDone
    | Release
    | Deregister

  /** What `sendCancel` does between two awaits. */
  datatype SenderEvent =
    | Opened(ok: bool)
    | SignalDone(ok: bool)
    | PauseOver
    | Resignalled(ok: bool)
    | Settle(timedOut: bool)
    | Closed

  datatype Action =
    | Start(r: RunId, queryId: Option<QueryId>, total: nat, stopOnError: bool)
    | OfRun(r: RunId, e: RunEvent)
    | CancelCall(k: RequestId, q: QueryId)
    | CancelTimeout(k: RequestId)
    | CancelProceed(k: RequestId)
    | OfSender(r: RunId, se: SenderEvent)

  function Put(s: State, r: RunId, run: Run): State {
    s.(runs := s.runs[r := run])
  }

  /** The registry still maps the run's id to this run (`stillRunning`). */
  predicate Registered(s: State, r: RunId)
    requires r in s.runs
  {
    var q := s.runs[r].queryId;
    q.Some? && q.value in s.running && s.running[q.value] == r
  }

  /** No run is between its last look at the flag and its leaving the registry. */
  predicate Quiet(s: State) {
    forall r <- s.runs :: !s.runs[r].phase.Releasing? && !s.runs[r].phase.Deregistering?
  }

  /** The run has a connection checked out of the pool. */
  predicate Holds(run: Run) {
    !run.phase.Acquiring? && !run.phase.Deregistering? && !run.phase.Ended?
  }

  predicate Unused(s: State, c: ConnId) {
    c !in s.discarded && forall r <- s.runs :: s.runs[r].conn != Some(c)
  }

  /** The statement loop at a boundary: the flag is looked at, and the next statement sent in the same stretch. */
  function BoundaryRun(run: Run, n: nat, rejected: bool, wrapped: bool): Run {
    if n >= run.total then run.(phase := Probing)
    else if run.cancelled then run.(interrupted := true, phase := Probing)
    else if rejected then
      run.(phase := ReportingError(n), tried := run.tried + [Rejected(n)]) // a psql meta-command, or COPY where it is not supported
    else run.(phase := OnWire(n, wrapped), inFlight := true, tried := run.tried + [Sent(n, wrapped)])
  }

  /** A statement failed: one that only the wrapper breaks is run again as written, unless cancelled. */
  function WireErrorRun(run: Run, n: nat, wrapped: bool, wrapperOnly: bool): Run {
    if wrapped && wrapperOnly && !run.cancelled then run.(phase := OnWire(n, false), tried := run.tried + [Sent(n, false)])
    else run.(phase := ReportingError(n), inFlight := false)
  }

  /** What an event of the run does to its own entry. */
  function RunNext(run: Run, e: RunEvent): Option<Run> {
    match (e, run.phase)
    case (Acquire(c), Acquiring) => Some(run.(phase := Borrowed, conn := Some(c)))
    case (AcquireFailed, Acquiring) => Some(run.(phase := Deregistering))
    case (BorrowDone(ok), Borrowed) => Some(run.(phase := if ok then SettingUp else Deregistering))
    case (SetupDone(ok), SettingUp) =>
      if !ok then Some(run.(phase := Probing))
      else if run.queryId.Some? && run.conn.Some? then
        Some(run.(phase := AtBoundary(0), backend := Published(run.conn.value)))
      else Some(run.(phase := AtBoundary(0)))
    case (Boundary(rejected, wrapped), AtBoundary(n)) => Some(BoundaryRun(run, n, rejected, wrapped))
    case (WireOk, OnWire(n, _)) => Some(run.(phase := Reporting(n), inFlight := false))
    case (WireError(wrapperOnly), OnWire(n, wrapped)) => Some(WireErrorRun(run, n, wrapped, wrapperOnly))
    case (Reported(ok), Reporting(n)) => Some(run.(phase := if ok then AtBoundary(n + 1) else ReportingError(n)))
    case (ErrorReported(ok), ReportingError(n)) =>
      if !ok then Some(run.(phase := Probing)) // the caller's callback threw
      else Some(run.(interrupted := run.interrupted || run.cancelled,
                     phase := if run.stopOnError then Probing else AtBoundary(n + 1)))
    case (Probed, Probing) => Some(run.(phase := if run.cancelled then Releasing(true) else RollingBack))
    case (RolledBack, RollingBack) => Some(run.(phase := Resetting))
    case (ResetDone, Resetting) => Some(run.(phase := Releasing(run.cancelled)))
    case (Release, Releasing(_)) => Some(run.(phase := Deregistering))
    case (Deregister, Deregistering) =>
      Some(run.(phase := Ended, backend := if run.backend.Unpublished? then Withheld else run.backend))
    case _ => None
  }

  /** What an event of run `r` does to the pool and the registry; `s` is the state before it, `t` has the new entry. */
  function RunEffect(s: State, t: State, r: RunId, e: RunEvent): Option<State>
    requires r in s.runs
  {
    var run := s.runs[r];
    match e
    case Acquire(c) => if c in s.pool || Unused(s, c) then Some(t.(pool := s.pool - {c})) else None
    case BorrowDone(ok) => Some(if ok || run.conn.None? then t else t.(pool := s.pool + {run.conn.value}))
    case Release =>
      Some(if run.conn.None? then t
           else if run.phase == Releasing(true) then t.(discarded := s.discarded + {run.conn.value})
           else t.(pool := s.pool + {run.conn.value}))
    case Deregister =>
      // An id registered again meanwhile maps to another run, and keeps doing so.
      Some(if Registered(s, r) then t.(running := s.running - {run.queryId.value}) else t)
    case _ => Some(t)
  }

  /** Whether the event sends a signal: only one that looked at the registry in the same stretch does. */
  predicate Signals(run: Run, registered: bool, e: SenderEvent) {
    match (e, run.cancelling)
    case (Opened(ok), Opening) => ok && registered
    case (PauseOver, Pausing(n)) => n < CANCEL_RETRIES && registered && run.inFlight
    case _ => false
  }

  /** What an event of the run's `sendCancel` does to its entry. */
  function SenderNext(run: Run, registered: bool, e: SenderEvent): Option<Run> {
    match (e, run.cancelling)
    case (Opened(ok), Opening) =>
      Some(run.(cancelling := if !ok then Idle else if registered then Signalling(run.inFlight)
                              else Closing(Some(run.interrupted))))
    case (SignalDone(ok), Signalling(wasInFlight)) =>
      if ok then Some(run.(signalled := run.signalled || (wasInFlight && run.inFlight), cancelling := Pausing(0)))
      else Some(run.(cancelling := if registered then Closing(None) else Pausing(0)))
    case (PauseOver, Pausing(n)) =>
      Some(run.(cancelling := if Signals(run, registered, e) then Resignalling(n) else Settling))
    case (Resignalled(ok), Resignalling(n)) =>
      Some(run.(signalled := run.signalled || (ok && run.inFlight), cancelling := Pausing(n + 1)))
    case (Settle(timedOut), Settling) =>
      if run.phase.Ended? then Some(run.(cancelling := Closing(Some(run.interrupted || run.signalled))))
      else if timedOut then Some(run.(cancelling := Closing(Some(true))))
      else None
    case (Closed, Closing(answer)) =>
      Some(run.(cancelling := if answer.None? then Idle else Answered(answer.value)))
    case _ => None
  }

  /** A cancel request whose backend id arrived: the flag is set, and one `sendCancel` started unless one is there. */
  function Flagged(run: Run, registered: bool): Run {
    if !run.backend.Published? then run
    else
      run.(cancelled := true,
           cancelling := if !run.cancelling.Idle? then run.cancelling
                         else if registered then Opening else Answered(run.interrupted))
  }

  /** A run's entry, registered under its id over any earlier one. */
  function Started(s: State, r: RunId, queryId: Option<QueryId>, total: nat, stopOnError: bool): State {
    var run := Run(queryId, total, stopOnError, Acquiring, None, Unpublished, false, false, false, false, Idle, []);
    var t := Put(s, r, run);
    if queryId.Some? then t.(running := s.running[queryId.value := r]) else t
  }

  function Step(s: State, a: Action): Option<State> {
    match a
    case Start(r, queryId, total, stopOnError) =>
      if r in s.runs then None else Some(Started(s, r, queryId, total, stopOnError))
    case OfRun(r, e) =>
      if r !in s.runs || RunNext(s.runs[r], e).None? then None
      else RunEffect(s, Put(s, r, RunNext(s.runs[r], e).value), r, e)
    case CancelCall(k, q) =>
      if k !in s.waiting && q in s.running then Some(s.(waiting := s.waiting[k := s.running[q]])) else None
    case CancelTimeout(k) => if k in s.waiting then Some(s.(waiting := s.waiting - {k})) else None
    case CancelProceed(k) =>
      if k !in s.waiting || s.waiting[k] !in s.runs || s.runs[s.waiting[k]].backend.Unpublished? then None
      else
        var r := s.waiting[k];
        Some(Put(s, r, Flagged(s.runs[r], Registered(s, r))).(waiting := s.waiting - {k}))
    case OfSender(r, e) =>
      // It resumes after a round trip or a timer, so no run is in its tail.
      if r !in s.runs || !Quiet(s) || SenderNext(s.runs[r], Registered(s, r), e).None? then None
      else
        var run := s.runs[r];
        var t := Put(s, r, SenderNext(run, Registered(s, r), e).value);
        Some(if Signals(run, Registered(s, r), e) && run.backend.Published?
             then t.(sent := s.sent + {(run.backend.conn, r)}) else t)
  }

  // ---------------------------------------------------------------------------------------------------------------
  // The invariant
  // ---------------------------------------------------------------------------------------------------------------

  /** What holds of one run's entry, whatever the others do. */
  ghost predicate Sound(run: Run) {
    && (run.phase.Acquiring? ==> run.conn.None?)
    && (Holds(run) ==> run.conn.Some?)
    && (run.inFlight <==> run.phase.OnWire?)
    && (run.interrupted ==> run.cancelled)
    && (run.signalled ==> run.cancelled)
    && (run.cancelled ==> run.backend.Published?)
    && (run.backend.Published? ==>
          && run.conn == Some(run.backend.conn) && run.queryId.Some?
          && !run.phase.Acquiring? && !run.phase.Borrowed? && !run.phase.SettingUp?)
    && (!run.cancelling.Idle? ==> run.cancelled)
    && (run.phase == Releasing(true) ==> run.cancelled)
    && (run.phase.Ended? ==> !run.backend.Unpublished?)
  }

  /** Every signal was meant for a run that was cancelled and will discard, or has discarded, the connection. */
  ghost predicate SentInv(s: State) {
    forall x <- s.sent ::
      && x.1 in s.runs && s.runs[x.1].conn == Some(x.0) && s.runs[x.1].cancelled
      && (x.0 in s.discarded || (Holds(s.runs[x.1]) && s.runs[x.1].phase != Releasing(false)))
  }

  ghost predicate RegistryInv(s: State) {
    forall q <- s.running ::
      s.running[q] in s.runs && s.runs[s.running[q]].queryId == Some(q) && !s.runs[s.running[q]].phase.Ended?
  }

  /** A checked-out connection belongs to one run, and is neither in the pool nor closed. */
  ghost predicate Exclusive(s: State) {
    && (forall r <- s.runs :: Holds(s.runs[r]) && s.runs[r].conn.Some? ==>
          s.runs[r].conn.value !in s.pool && s.runs[r].conn.value !in s.discarded)
    && (forall r1 <- s.runs, r2 <- s.runs :: r1 != r2 && Holds(s.runs[r1]) && Holds(s.runs[r2]) ==>
          s.runs[r1].conn != s.runs[r2].conn)
  }

  ghost predicate CancelledUser(s: State, c: ConnId) {
    exists r :: r in s.runs && s.runs[r].conn == Some(c) && s.runs[r].cancelled
  }

  /** A connection is closed only because the run that had it was cancelled. */
  ghost predicate DiscardInv(s: State) {
    forall c <- s.discarded :: c !in s.pool && CancelledUser(s, c)
  }

  ghost predicate Inv(s: State) {
    && (forall r <- s.runs :: Sound(s.runs[r]))
    && SentInv(s)
    && RegistryInv(s)
    && Exclusive(s)
    && DiscardInv(s)
    && (forall k <- s.waiting :: s.waiting[k] in s.runs)
  }

  lemma RunNextSound(run: Run, e: RunEvent)
    requires Sound(run) && RunNext(run, e).Some?
    ensures var next := RunNext(run, e).value;
            && Sound(next)
            && next.queryId == run.queryId
            && (run.conn.Some? ==> next.conn == run.conn)
            && (next.cancelled == run.cancelled)
  {
  }

  lemma SenderNextSound(run: Run, registered: bool, e: SenderEvent)
    requires Sound(run) && SenderNext(run, registered, e).Some?
    ensures var next := SenderNext(run, registered, e).value;
            Sound(next) && next == run.(signalled := next.signalled, cancelling := next.cancelling)
            && (Signals(run, registered, e) ==> run.backend.Published?)
  {
  }

  /** Entries keep their connection and their flag, so a closed connection keeps its cancelled user. */
  lemma UserKept(s: State, t: State, c: ConnId)
    requires CancelledUser(s, c)
    requires forall r <- s.runs :: r in t.runs
               && (s.runs[r].conn.Some? ==> t.runs[r].conn == s.runs[r].conn)
               && (s.runs[r].cancelled ==> t.runs[r].cancelled)
    ensures CancelledUser(t, c)
  {
    var u :| u in s.runs && s.runs[u].conn == Some(c) && s.runs[u].cancelled;
    assert t.runs[u].conn == Some(c);
  }

  lemma StaysDiscarded(s: State, t: State)
    requires DiscardInv(s) && t.discarded == s.discarded && t.pool <= s.pool
    requires forall r <- s.runs :: r in t.runs
               && (s.runs[r].conn.Some? ==> t.runs[r].conn == s.runs[r].conn)
               && (s.runs[r].cancelled ==> t.runs[r].cancelled)
    ensures DiscardInv(t)
  {
    forall c <- t.discarded ensures c !in t.pool && CancelledUser(t, c) { UserKept(s, t, c); }
  }

  /** Nobody checks anything out. */
  lemma StaysExclusive(s: State, t: State, r: RunId)
    requires Exclusive(s) && r in t.runs && t.pool <= s.pool && t.discarded <= s.discarded
    requires forall u <- t.runs :: u != r ==> u in s.runs && t.runs[u] == s.runs[u]
    requires Holds(t.runs[r]) ==> r in s.runs && Holds(s.runs[r]) && s.runs[r].conn == t.runs[r].conn
    ensures Exclusive(t)
  {
  }

  /** An action that leaves the pool, the registry and the signals alone keeps what is said of them. */
  lemma LocalKeepsInv(s: State, r: RunId, next: Run)
    requires Inv(s) && r in s.runs && Sound(next)
    requires next.queryId == s.runs[r].queryId && next.conn == s.runs[r].conn
    requires Holds(next) == Holds(s.runs[r]) && (next.phase.Ended? <==> s.runs[r].phase.Ended?)
    requires s.runs[r].cancelled ==> next.cancelled
    requires next.phase == Releasing(false) && s.runs[r].phase != Releasing(false) ==> !s.runs[r].cancelled
    ensures Inv(Put(s, r, next))
  {
    hide Exclusive, DiscardInv;
    StaysExclusive(s, Put(s, r, next), r);
    StaysDiscarded(s, Put(s, r, next));
  }

  function Acquired(s: State, r: RunId, c: ConnId): State
    requires r in s.runs
  {
    Put(s, r, s.runs[r].(phase := Borrowed, conn := Some(c))).(pool := s.pool - {c})
  }

  /** A connection taken from the pool, or a new one, is nobody else's and has no signal on the way to it. */
  lemma AcquireKeepsInv(s: State, r: RunId, c: ConnId)
    requires Inv(s) && r in s.runs && s.runs[r].phase.Acquiring? && (c in s.pool || Unused(s, c))
    ensures Inv(Acquired(s, r, c))
  {
    AcquireExclusive(s, r, c);
    hide Exclusive, DiscardInv;
    StaysDiscarded(s, Acquired(s, r, c));
  }

  lemma AcquireExclusive(s: State, r: RunId, c: ConnId)
    requires Exclusive(s) && DiscardInv(s) && r in s.runs && s.runs[r].phase.Acquiring? && (c in s.pool || Unused(s, c))
    ensures Exclusive(Acquired(s, r, c))
  {
  }

  /** The connection is let go: closed where the run was cancelled in time, else back in the pool. */
  ghost predicate LetsGo(s: State, t: State, r: RunId, next: Run) {
    && r in s.runs && Holds(s.runs[r]) && !Holds(next) && s.runs[r].conn.Some?
    && next.conn == s.runs[r].conn && next.cancelled == s.runs[r].cancelled
    && next.queryId == s.runs[r].queryId && !next.phase.Ended?
    && t.runs == s.runs[r := next] && t.running == s.running && t.sent == s.sent && t.waiting == s.waiting
    && (|| (t.pool == s.pool && t.discarded == s.discarded + {next.conn.value} && next.cancelled)
        || (t.pool == s.pool + {next.conn.value} && t.discarded == s.discarded && (next.conn.value, r) !in s.sent))
  }

  lemma LetGoExclusive(s: State, t: State, r: RunId, next: Run)
    requires Inv(s) && LetsGo(s, t, r, next)
    ensures Exclusive(t) && SentInv(t)
  {
    var c := next.conn.value;
    assert forall u <- s.runs :: u != r && Holds(s.runs[u]) ==> s.runs[u].conn != Some(c);
    forall x <- t.sent
      ensures x.0 in t.discarded || (Holds(t.runs[x.1]) && t.runs[x.1].phase != Releasing(false))
    {
      assert x in s.sent;
    }
  }

  lemma LetGoKeepsInv(s: State, t: State, r: RunId, next: Run)
    requires Inv(s) && LetsGo(s, t, r, next) && Sound(next)
    ensures Inv(t)
  {
    LetGoExclusive(s, t, r, next);
    forall d <- t.discarded ensures d !in t.pool && CancelledUser(t, d) {
      if d in s.discarded { UserKept(s, t, d); } else { assert t.runs[r].conn == Some(d); }
    }
  }

  /** A run that released nothing is never one a signal was sent to. */
  lemma UnpublishedUnsent(s: State, r: RunId, c: ConnId)
    requires Inv(s) && r in s.runs && (s.runs[r].phase == Releasing(false) || !s.runs[r].backend.Published?)
    requires Holds(s.runs[r]) && s.runs[r].conn == Some(c)
    ensures (c, r) !in s.sent
  {
  }

  lemma ReleaseKeepsInv(s: State, r: RunId, e: RunEvent)
    requires Inv(s) && (e.Release? || e == BorrowDone(false)) && Step(s, OfRun(r, e)).Some?
    ensures Inv(Step(s, OfRun(r, e)).value)
  {
    RunNextSound(s.runs[r], e);
    if s.runs[r].phase != Releasing(true) { UnpublishedUnsent(s, r, s.runs[r].conn.value); }
    LetGoKeepsInv(s, Step(s, OfRun(r, e)).value, r, RunNext(s.runs[r], e).value);
  }

  /** Only its own registration goes, so what stays registered is what was, without this run. */
  ghost predicate Leaves(s: State, t: State, r: RunId, next: Run) {
    && r in s.runs && s.runs[r].phase.Deregistering? && next == s.runs[r].(phase := Ended, backend := next.backend)
    && t.runs == s.runs[r := next] && t.waiting == s.waiting
    && t.pool == s.pool && t.discarded == s.discarded && t.sent == s.sent
    && (forall q <- t.running :: q in s.running && t.running[q] == s.running[q] && t.running[q] != r)
  }

  lemma LeaveKeepsInv(s: State, t: State, r: RunId, next: Run)
    requires Inv(s) && Leaves(s, t, r, next) && Sound(next)
    ensures Inv(t)
  {
    hide Exclusive, DiscardInv;
    StaysExclusive(s, t, r);
    StaysDiscarded(s, t);
  }

  lemma DeregisterLeaves(s: State, r: RunId)
    requires RegistryInv(s) && Step(s, OfRun(r, Deregister)).Some?
    ensures Leaves(s, Step(s, OfRun(r, Deregister)).value, r, RunNext(s.runs[r], Deregister).value)
  {
    var t := Step(s, OfRun(r, Deregister)).value;
    forall q <- t.running ensures q in s.running && t.running[q] == s.running[q] && t.running[q] != r {
      assert s.runs[s.running[q]].queryId == Some(q);
    }
  }

  /** A signal leaves only while the registry shows the run, and then its last look at the flag is still to come. */
  lemma SenderKeepsInv(s: State, r: RunId, e: SenderEvent)
    requires Inv(s) && Step(s, OfSender(r, e)).Some?
    ensures Inv(Step(s, OfSender(r, e)).value)
  {
    var run := s.runs[r];
    SenderNextSound(run, Registered(s, r), e);
    LocalKeepsInv(s, r, SenderNext(run, Registered(s, r), e).value);
  }

  lemma NewEntryKeepsInv(s: State, r: RunId, run: Run)
    requires Inv(s) && r !in s.runs && Sound(run) && run.phase.Acquiring?
    ensures Inv(Put(s, r, run))
  {
    hide Exclusive, DiscardInv, Sound, CancelledUser;
    StaysExclusive(s, Put(s, r, run), r);
    StaysDiscarded(s, Put(s, r, run));
  }

  lemma RegisteringKeepsInv(s: State, r: RunId, q: QueryId)
    requires Inv(s) && r in s.runs && s.runs[r].queryId == Some(q) && !s.runs[r].phase.Ended?
    ensures Inv(s.(running := s.running[q := r]))
  {
    StaysDiscarded(s, s.(running := s.running[q := r]));
  }

  lemma StartKeepsInv(s: State, r: RunId, queryId: Option<QueryId>, total: nat, stopOnError: bool)
    requires Inv(s) && r !in s.runs
    ensures Inv(Started(s, r, queryId, total, stopOnError))
  {
    hide Inv;
    var t := Started(s, r, queryId, total, stopOnError);
    NewEntryKeepsInv(s, r, t.runs[r]);
    if queryId.Some? { RegisteringKeepsInv(Put(s, r, t.runs[r]), r, queryId.value); }
  }

  lemma RunStepKeepsInv(s: State, r: RunId, e: RunEvent)
    requires Inv(s) && Step(s, OfRun(r, e)).Some?
    ensures Inv(Step(s, OfRun(r, e)).value)
  {
    if e.Acquire? {
      AcquireKeepsInv(s, r, e.c);
    } else if e.Release? || e == BorrowDone(false) {
      ReleaseKeepsInv(s, r, e);
    } else if e.Deregister? {
      RunNextSound(s.runs[r], e);
      DeregisterLeaves(s, r);
      LeaveKeepsInv(s, Step(s, OfRun(r, e)).value, r, RunNext(s.runs[r], e).value);
    } else {
      RunNextSound(s.runs[r], e);
      var next := RunNext(s.runs[r], e).value;
      assert Step(s, OfRun(r, e)).value == Put(s, r, next);
      LocalKeepsInv(s, r, next);
    }
  }

  lemma WaitingKeepsInv(s: State, k: RequestId)
    requires Inv(s)
    ensures Inv(s.(waiting := s.waiting - {k}))
    ensures forall q <- s.running :: Inv(s.(waiting := s.waiting[k := s.running[q]]))
  {
    forall q <- s.running ensures Inv(s.(waiting := s.waiting[k := s.running[q]])) {
      var t := s.(waiting := s.waiting[k := s.running[q]]);
      assert SentInv(t) && Exclusive(t) && RegistryInv(t);
      StaysDiscarded(s, t);
    }
    StaysDiscarded(s, s.(waiting := s.waiting - {k}));
  }

  /** The flag is set, and the request waits no longer. */
  lemma FlagKeepsInv(s: State, k: RequestId)
    requires Inv(s) && Step(s, CancelProceed(k)).Some?
    ensures Inv(Step(s, CancelProceed(k)).value)
  {
    var r := s.waiting[k];
    var next := Flagged(s.runs[r], Registered(s, r));
    assert Sound(s.runs[r]);
    FlaggedSound(s.runs[r], Registered(s, r));
    hide Inv, Sound, Flagged, Registered;
    LocalKeepsInv(s, r, next);
    WaitingKeepsInv(Put(s, r, next), k);
  }

  lemma FlaggedSound(run: Run, registered: bool)
    requires Sound(run)
    ensures var next := Flagged(run, registered);
            Sound(next) && next == run.(cancelled := next.cancelled, cancelling := next.cancelling)
            && (run.cancelled ==> next.cancelled)
  {
  }

  lemma StepKeepsInv(s: State, a: Action)
    requires Inv(s) && Step(s, a).Some?
    ensures Inv(Step(s, a).value)
  {
    hide Inv, RunNext, RunEffect, SenderNext, Flagged, Started;
    match a
    case Start(r, queryId, total, stopOnError) => StartKeepsInv(s, r, queryId, total, stopOnError);
    case OfRun(r, e) => RunStepKeepsInv(s, r, e);
    case CancelCall(k, _) => WaitingKeepsInv(s, k);
    case CancelTimeout(k) => WaitingKeepsInv(s, k);
    case CancelProceed(k) => FlagKeepsInv(s, k);
    case OfSender(r, e) => SenderKeepsInv(s, r, e);
  }

  // ---------------------------------------------------------------------------------------------------------------
  // Over every interleaving
  // ---------------------------------------------------------------------------------------------------------------

  ghost predicate Next(s: State, t: State) {
    exists a :: Step(s, a) == Some(t)
  }

  /** The states an interleaving goes through: one action between each two. */
  ghost predicate IsTrace(tr: seq<State>) {
    && |tr| > 0 && tr[0] == INIT
    && forall i :: 0 <= i < |tr| - 1 ==> Next(tr[i], tr[i + 1])
  }

  lemma NextKeepsInv(s: State, t: State)
    requires Inv(s) && Next(s, t)
    ensures Inv(t)
  {
    var a :| Step(s, a) == Some(t);
    StepKeepsInv(s, a);
  }

  lemma {:induction false} TraceInv(tr: seq<State>, i: nat)
    requires IsTrace(tr) && i < |tr|
    ensures Inv(tr[i])
  {
    if i > 0 {
      TraceInv(tr, i - 1);
      NextKeepsInv(tr[i - 1], tr[(i - 1) + 1]);
    }
  }

  /**
   * A signal, whenever it lands, finds its own cancelled run or nobody: its connection is not in the pool and no
   * other run holds it, at no moment from the sending on.
   */
  lemma {:induction false} SignalHitsOnlyItsRun(tr: seq<State>, i: nat, c: ConnId, r: RunId)
    requires IsTrace(tr) && i < |tr| && (c, r) in tr[i].sent
    ensures forall j :: i <= j < |tr| ==>
              && (c, r) in tr[j].sent && c !in tr[j].pool
              && r in tr[j].runs && tr[j].runs[r].cancelled
              && forall u <- tr[j].runs :: Holds(tr[j].runs[u]) && tr[j].runs[u].conn == Some(c) ==> u == r
  {
    forall j | i <= j < |tr|
      ensures (c, r) in tr[j].sent && c !in tr[j].pool && r in tr[j].runs && tr[j].runs[r].cancelled
      ensures forall u <- tr[j].runs :: Holds(tr[j].runs[u]) && tr[j].runs[u].conn == Some(c) ==> u == r
    {
      SentStays(tr, i, j, (c, r));
      TraceInv(tr, j);
    }
  }

  lemma SendingOnlyAdds(s: State, t: State)
    requires Next(s, t)
    ensures s.sent <= t.sent
  {
    var a :| Step(s, a) == Some(t);
    match a
    case OfRun(r, e) => assert t.sent == s.sent;
    case _ =>
  }

  lemma {:induction false} SentStays(tr: seq<State>, i: nat, j: nat, x: (ConnId, RunId))
    requires IsTrace(tr) && i <= j < |tr| && x in tr[i].sent
    ensures x in tr[j].sent
  {
    if i < j {
      SentStays(tr, i, j - 1, x);
      SendingOnlyAdds(tr[j - 1], tr[(j - 1) + 1]);
    }
  }

  /** An action of a run changes no other run's entry, and sends nothing for a cancelled one. */
  lemma RunSendsNothing(s: State, u: RunId, e: RunEvent, r: RunId)
    requires Step(s, OfRun(u, e)).Some? && r in s.runs && s.runs[r].cancelled
    ensures var t := Step(s, OfRun(u, e)).value;
            r in t.runs && t.runs[r].cancelled && t.runs[r].tried == s.runs[r].tried
  {
    var next := RunNext(s.runs[u], e).value;
    var put := Put(s, u, next);
    assert RunEffect(s, put, u, e).value.runs == put.runs;
  }

  lemma SenderSendsNothing(s: State, u: RunId, e: SenderEvent, r: RunId)
    requires Step(s, OfSender(u, e)).Some? && r in s.runs && s.runs[r].cancelled
    ensures var t := Step(s, OfSender(u, e)).value;
            r in t.runs && t.runs[r].cancelled && t.runs[r].tried == s.runs[r].tried
  {
    var next := SenderNext(s.runs[u], Registered(s, u), e).value;
    assert Step(s, OfSender(u, e)).value.runs == Put(s, u, next).runs;
    assert next.tried == s.runs[u].tried;
  }

  lemma FlagSendsNothing(s: State, k: RequestId, r: RunId)
    requires Step(s, CancelProceed(k)).Some? && r in s.runs && s.runs[r].cancelled
    ensures var t := Step(s, CancelProceed(k)).value;
            r in t.runs && t.runs[r].cancelled && t.runs[r].tried == s.runs[r].tried
  {
  }

  /** One action: a cancelled run puts nothing more on the wire, and stays cancelled. */
  lemma CancelledSendsNothing(s: State, t: State, r: RunId)
    requires Next(s, t) && r in s.runs && s.runs[r].cancelled
    ensures r in t.runs && t.runs[r].cancelled && t.runs[r].tried == s.runs[r].tried
  {
    var a :| Step(s, a) == Some(t);
    match a
    case OfRun(u, e) => RunSendsNothing(s, u, e, r);
    case OfSender(u, e) => SenderSendsNothing(s, u, e, r);
    case CancelProceed(k) => FlagSendsNothing(s, k, r);
    case Start(u, _, _, _) => assert t.runs[r] == s.runs[r];
    case _ => assert t.runs == s.runs;
  }

  /** Once the flag is set, no user statement of the run goes on the wire again: no next one, no unwrapped re-run. */
  lemma {:induction false} CancelledStops(tr: seq<State>, i: nat, j: nat, r: RunId)
    requires IsTrace(tr) && i <= j < |tr| && r in tr[i].runs && tr[i].runs[r].cancelled
    ensures r in tr[j].runs && tr[j].runs[r].cancelled && tr[j].runs[r].tried == tr[i].runs[r].tried
  {
    if i < j {
      CancelledStops(tr, i, j - 1, r);
      CancelledSendsNothing(tr[j - 1], tr[(j - 1) + 1], r);
    }
  }

  /**
   * What the flags and the registry say in every reachable state: a run stopped by the flag was cancelled, what the
   * registry maps an id to has that id and has not ended, and a closed connection had a cancelled user.
   */
  lemma FlagsAndRegistry(tr: seq<State>, i: nat)
    requires IsTrace(tr) && i < |tr|
    ensures forall r <- tr[i].runs :: tr[i].runs[r].interrupted || tr[i].runs[r].signalled ==> tr[i].runs[r].cancelled
    ensures forall q <- tr[i].running ::
              var r := tr[i].running[q];
              r in tr[i].runs && !tr[i].runs[r].phase.Ended? && tr[i].runs[r].queryId == Some(q)
    ensures forall c <- tr[i].discarded :: c !in tr[i].pool && CancelledUser(tr[i], c)
  {
    TraceInv(tr, i);
  }
}
