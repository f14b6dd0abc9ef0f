/**
 * `ScriptRunner` as the object it is: the registry, the entries and the pool are its fields, and each method is one
 * stretch of code between two awaits. Each does what the action of the same name does in `Console`, and every action
 * has its method, so that the sequences of calls are the interleavings the theorems there are about (`Execute`).
 */
module ConsoleRunner {
  import opened Wrappers
  import opened Console
  import opened ConsoleScripts

  /** An interleaving ends in this state. */
  ghost predicate Reached(s: State) {
    exists tr :: IsTrace(tr) && tr[|tr| - 1] == s
  }

  lemma ReachedAtFirst()
    ensures Reached(INIT)
  {
    assert IsTrace([INIT]) && [INIT][0] == INIT;
  }

  lemma ReachedOn(s: State, a: Action)
    requires Reached(s) && Step(s, a).Some?
    ensures Reached(Step(s, a).value)
  {
    var tr :| IsTrace(tr) && tr[|tr| - 1] == s;
    var t := Step(s, a).value;
    var next := tr + [t];
    assert Next(s, t);
    forall i | 0 <= i < |next| - 1 ensures Next(next[i], next[i + 1]) {
      if i < |tr| - 1 { assert Next(tr[i], tr[i + 1]); }
    }
    assert IsTrace(next) && next[|next| - 1] == t;
  }

  lemma ReachedInv(s: State)
    requires Reached(s)
    ensures Inv(s)
  {
    var tr :| IsTrace(tr) && tr[|tr| - 1] == s;
    TraceInv(tr, |tr| - 1);
  }

  /** What a list of actions comes to, those that cannot happen where they stand left out. */
  function After(s: State, actions: seq<Action>): State {
    if actions == [] then s
    else
      var t, a := After(s, actions[..|actions| - 1]), actions[|actions| - 1];
      if Step(t, a).Some? then Step(t, a).value else t
  }

  lemma {:induction false} OutcomeIsAfter(actions: seq<Action>)
    requires Outcome(actions).Some?
    ensures After(INIT, actions) == Outcome(actions).value
  {
    if actions != [] { OutcomeIsAfter(actions[..|actions| - 1]); }
  }

  /** And every interleaving is such a list. */
  lemma TraceIsAList(tr: seq<State>, i: nat) returns (actions: seq<Action>)
    requires IsTrace(tr) && i < |tr|
    ensures |actions| == i && After(INIT, actions) == tr[i]
  {
    actions := TraceIsOutcome(tr, i);
    OutcomeIsAfter(actions);
  }

  class ScriptRunner {
    var runs: map<RunId, Run>
    var running: map<QueryId, RunId>
    var pool: set<ConnId>
    var discarded: set<ConnId>
    var waiting: map<RequestId, RunId>
    /** The signals sent so far: no field of the object, but what the theorems speak of. */
    var sent: set<(ConnId, RunId)>

    function Now(): State
      reads this
    {
      State(runs, running, pool, discarded, waiting, sent)
    }

    /** The object is in a state some interleaving ends in. */
    ghost predicate Valid()
      reads this
    {
      Reached(Now())
    }

    constructor ()
      ensures Now() == INIT && Valid()
    {
      runs, running, pool, discarded, waiting, sent := map[], map[], {}, {}, map[], {};
      new;
      ReachedAtFirst();
    }

    function StillRunning(r: RunId): bool
      requires r in runs
      reads this
    {
      var q := runs[r].queryId;
      q.Some? && q.value in running && running[q.value] == r
    }

    /** `execute` up to its first await: the entry is registered at once, over an earlier one of the same id. */
    method Begin(r: RunId, queryId: Option<QueryId>, total: nat, stopOnError: bool)
      requires Valid() && r !in runs
      modifies this
      ensures Some(Now()) == Step(old(Now()), Action.Start(r, queryId, total, stopOnError)) && Valid()
    {
      ReachedOn(Now(), Action.Start(r, queryId, total, stopOnError));
      runs := runs[r := Run(queryId, total, stopOnError, Acquiring, None, Unpublished, false, false, false, false, Idle, [])];
      if queryId.Some? { running := running[queryId.value := r]; }
    }

    /** A connection from the pool, or a new one. */
    method Acquired(r: RunId, c: ConnId)
      requires Valid() && r in runs && runs[r].phase.Acquiring? && (c in pool || Unused(Now(), c))
      modifies this
      ensures Some(Now()) == Step(old(Now()), OfRun(r, Acquire(c))) && Valid()
    {
      ReachedOn(Now(), OfRun(r, Acquire(c)));
      pool := pool - {c};
      runs := runs[r := runs[r].(phase := Borrowed, conn := Some(c))];
    }

    /** No connection is to be had. */
    method NoConnection(r: RunId)
      requires Valid() && r in runs && runs[r].phase.Acquiring?
      modifies this
      ensures Some(Now()) == Step(old(Now()), OfRun(r, AcquireFailed)) && Valid()
    {
      ReachedOn(Now(), OfRun(r, AcquireFailed));
      runs := runs[r := runs[r].(phase := Deregistering)];
    }

    /** The statement timeout is set, or the connection goes straight back. */
    method Lent(r: RunId, ok: bool)
      requires Valid() && r in runs && runs[r].phase.Borrowed?
      modifies this
      ensures Some(Now()) == Step(old(Now()), OfRun(r, BorrowDone(ok))) && Valid()
    {
      ReachedOn(Now(), OfRun(r, BorrowDone(ok)));
      var entry := runs[r];
      if ok {
        entry := entry.(phase := SettingUp);
      } else {
        if entry.conn.Some? { pool := pool + {entry.conn.value}; }
        entry := entry.(phase := Deregistering);
      }
      runs := runs[r := entry];
    }

    /** The session is set up: only now is the backend id there for a cancel. */
    method Publish(r: RunId, ok: bool)
      requires Valid() && r in runs && runs[r].phase.SettingUp?
      modifies this
      ensures Some(Now()) == Step(old(Now()), OfRun(r, SetupDone(ok))) && Valid()
    {
      ReachedOn(Now(), OfRun(r, SetupDone(ok)));
      var entry := runs[r];
      if ok {
        if entry.queryId.Some? && entry.conn.Some? { entry := entry.(backend := Published(entry.conn.value)); }
        entry := entry.(phase := AtBoundary(0));
      } else {
        entry := entry.(phase := Probing);
      }
      runs := runs[r := entry];
    }

    /** The head of the statement loop: the flag is looked at, and the statement sent in the same stretch. */
    method NextStatement(r: RunId, rejected: bool, wrapped: bool)
      requires Valid() && r in runs && runs[r].phase.AtBoundary?
      modifies this
      ensures Some(Now()) == Step(old(Now()), OfRun(r, Boundary(rejected, wrapped))) && Valid()
      ensures old(runs[r].cancelled) ==> runs[r].tried == old(runs[r].tried)
    {
      ReachedOn(Now(), OfRun(r, Boundary(rejected, wrapped)));
      var entry, n := runs[r], runs[r].phase.next;
      if n >= entry.total {
        entry := entry.(phase := Probing);
      } else if entry.cancelled {
        entry := entry.(interrupted := true);
        entry := entry.(phase := Probing);
      } else if rejected {
        entry := entry.(phase := ReportingError(n), tried := entry.tried + [Rejected(n)]);
      } else {
        entry := entry.(inFlight := true);
        entry := entry.(phase := OnWire(n, wrapped), tried := entry.tried + [Sent(n, wrapped)]);
      }
      runs := runs[r := entry];
    }

    /** A statement ran. */
    method StatementDone(r: RunId)
      requires Valid() && r in runs && runs[r].phase.OnWire?
      modifies this
      ensures Some(Now()) == Step(old(Now()), OfRun(r, WireOk)) && Valid()
    {
      ReachedOn(Now(), OfRun(r, WireOk));
      var entry := runs[r];
      entry := entry.(inFlight := false);
      runs := runs[r := entry.(phase := Reporting(entry.phase.stmt))];
    }

    /** A statement failed: run again as written where only the wrapper broke it, never after an interruption. */
    method StatementFailed(r: RunId, wrapperOnly: bool)
      requires Valid() && r in runs && runs[r].phase.OnWire?
      modifies this
      ensures Some(Now()) == Step(old(Now()), OfRun(r, WireError(wrapperOnly))) && Valid()
      ensures old(runs[r].cancelled) ==> runs[r].tried == old(runs[r].tried)
    {
      ReachedOn(Now(), OfRun(r, WireError(wrapperOnly)));
      var entry, n := runs[r], runs[r].phase.stmt;
      if entry.phase.wrapped && wrapperOnly && !entry.cancelled {
        entry := entry.(phase := OnWire(n, false), tried := entry.tried + [Sent(n, false)]);
      } else {
        entry := entry.(inFlight := false);
        entry := entry.(phase := ReportingError(n));
      }
      runs := runs[r := entry];
    }

    /** The caller has a statement's results, or its callback threw. */
    method ResultsOut(r: RunId, ok: bool)
      requires Valid() && r in runs && runs[r].phase.Reporting?
      modifies this
      ensures Some(Now()) == Step(old(Now()), OfRun(r, Reported(ok))) && Valid()
    {
      ReachedOn(Now(), OfRun(r, Reported(ok)));
      var n := runs[r].phase.stmt;
      runs := runs[r := runs[r].(phase := if ok then AtBoundary(n + 1) else ReportingError(n))];
    }

    /** The caller has the error: an interruption if the flag is set, and the end if a script stops on its first one. */
    method ErrorOut(r: RunId, ok: bool)
      requires Valid() && r in runs && runs[r].phase.ReportingError?
      modifies this
      ensures Some(Now()) == Step(old(Now()), OfRun(r, ErrorReported(ok))) && Valid()
    {
      ReachedOn(Now(), OfRun(r, ErrorReported(ok)));
      var entry, n := runs[r], runs[r].phase.stmt;
      if !ok {
        entry := entry.(phase := Probing);
      } else {
        if entry.cancelled { entry := entry.(interrupted := true); }
        entry := entry.(phase := if entry.stopOnError then Probing else AtBoundary(n + 1));
      }
      runs := runs[r := entry];
    }

    /** In the finally, with the transaction asked about: a cancelled run's connection is not cleaned up but closed. */
    method CleanUp(r: RunId)
      requires Valid() && r in runs && runs[r].phase.Probing?
      modifies this
      ensures Some(Now()) == Step(old(Now()), OfRun(r, Probed)) && Valid()
    {
      ReachedOn(Now(), OfRun(r, Probed));
      if runs[r].cancelled {
        runs := runs[r := runs[r].(phase := Releasing(true))];
      } else {
        runs := runs[r := runs[r].(phase := RollingBack)];
      }
    }

    /** The transaction is rolled back. */
    method AfterRollback(r: RunId)
      requires Valid() && r in runs && runs[r].phase.RollingBack?
      modifies this
      ensures Some(Now()) == Step(old(Now()), OfRun(r, RolledBack)) && Valid()
    {
      ReachedOn(Now(), OfRun(r, RolledBack));
      runs := runs[r := runs[r].(phase := Resetting)];
    }

    /** After the reset the flag is looked at once more. */
    method AfterReset(r: RunId)
      requires Valid() && r in runs && runs[r].phase.Resetting?
      modifies this
      ensures Some(Now()) == Step(old(Now()), OfRun(r, ResetDone)) && Valid()
    {
      ReachedOn(Now(), OfRun(r, ResetDone));
      var discard := false;
      if runs[r].cancelled { discard := true; }
      runs := runs[r := runs[r].(phase := Releasing(discard))];
    }

    /** The connection goes back to the pool, or is closed where it was discarded. */
    method LetGo(r: RunId)
      requires Valid() && r in runs && runs[r].phase.Releasing?
      modifies this
      ensures Some(Now()) == Step(old(Now()), OfRun(r, Release)) && Valid()
      ensures old(runs[r].phase) == Releasing(true) ==> pool == old(pool)
    {
      ReachedOn(Now(), OfRun(r, Release));
      var entry := runs[r];
      if entry.conn.Some? {
        if entry.phase.discard {
          discarded := discarded + {entry.conn.value};
        } else {
          pool := pool + {entry.conn.value};
        }
      }
      runs := runs[r := entry.(phase := Deregistering)];
    }

    /** The run leaves the registry, unless the id is another run's by now: that one can still be cancelled. */
    method Finish(r: RunId)
      requires Valid() && r in runs && runs[r].phase.Deregistering?
      modifies this
      ensures Some(Now()) == Step(old(Now()), OfRun(r, Deregister)) && Valid()
      ensures forall q <- old(running) :: old(running)[q] != r ==> q in running && running[q] == old(running)[q]
    {
      hide Reached, Holds, BoundaryRun, WireErrorRun;
      ReachedOn(Now(), OfRun(r, Deregister));
      var entry := runs[r];
      if StillRunning(r) { running := running - {entry.queryId.value}; }
      if entry.backend.Unpublished? { entry := entry.(backend := Withheld); }
      runs := runs[r := entry.(phase := Ended)];
    }

    /** `cancel` up to its first await: it waits for the backend id of the run registered now. */
    method CancelArrives(k: RequestId, q: QueryId)
      requires Valid() && k !in waiting && q in running
      modifies this
      ensures Some(Now()) == Step(old(Now()), CancelCall(k, q)) && Valid()
    {
      ReachedOn(Now(), CancelCall(k, q));
      waiting := waiting[k := running[q]];
    }

    /** No backend id in time. */
    method CancelGivesUp(k: RequestId)
      requires Valid() && k in waiting
      modifies this
      ensures Some(Now()) == Step(old(Now()), CancelTimeout(k)) && Valid()
    {
      ReachedOn(Now(), CancelTimeout(k));
      waiting := waiting - {k};
    }

    /** `cancel` once the backend id is there: the flag first, then at most one `sendCancel` for the run. */
    method Cancel(k: RequestId)
      requires Valid() && k in waiting && waiting[k] in runs && !runs[waiting[k]].backend.Unpublished?
      modifies this
      ensures Some(Now()) == Step(old(Now()), CancelProceed(k)) && Valid()
      ensures runs[old(waiting)[k]].backend.Published? ==> runs[old(waiting)[k]].cancelled
    {
      ReachedOn(Now(), CancelProceed(k));
      var r := waiting[k];
      var entry := runs[r];
      if entry.backend.Published? {
        entry := entry.(cancelled := true);
        if entry.cancelling.Idle? {
          entry := entry.(cancelling := if StillRunning(r) then Opening else Answered(entry.interrupted));
        }
      }
      runs := runs[r := entry];
      waiting := waiting - {k};
    }

    /** The canceller is connected, or is not: the registry is looked at again, and only then a signal is sent. */
    method CancellerOpened(r: RunId, ok: bool)
      requires Valid() && Quiet(Now()) && r in runs && runs[r].cancelling.Opening?
      modifies this
      ensures Some(Now()) == Step(old(Now()), OfSender(r, Opened(ok))) && Valid()
      ensures sent != old(sent) ==> old(StillRunning(r)) && runs[r].cancelled
    {
      ReachedInv(Now());
      ReachedOn(Now(), OfSender(r, Opened(ok)));
      var entry := runs[r];
      if !ok {
        entry := entry.(cancelling := Idle);
      } else if !StillRunning(r) {
        entry := entry.(cancelling := Closing(Some(entry.interrupted)));
      } else {
        entry := entry.(cancelling := Signalling(entry.inFlight));
        if entry.backend.Published? { sent := sent + {(entry.backend.conn, r)}; }
      }
      runs := runs[r := entry];
    }

    /** The first signal is out; it hit if a statement was in flight before and after. */
    method SignalOut(r: RunId, ok: bool)
      requires Valid() && Quiet(Now()) && r in runs && runs[r].cancelling.Signalling?
      modifies this
      ensures Some(Now()) == Step(old(Now()), OfSender(r, SignalDone(ok))) && Valid()
    {
      ReachedOn(Now(), OfSender(r, SignalDone(ok)));
      var entry := runs[r];
      if ok {
        if entry.cancelling.wasInFlight && entry.inFlight { entry := entry.(signalled := true); }
        entry := entry.(cancelling := Pausing(0));
      } else if StillRunning(r) {
        entry := entry.(cancelling := Closing(None));
      } else {
        entry := entry.(cancelling := Pausing(0));
      }
      runs := runs[r := entry];
    }

    /** A pause is over: the signal is sent again only while the run is registered and a statement is in flight. */
    method SendAgain(r: RunId)
      requires Valid() && Quiet(Now()) && r in runs && runs[r].cancelling.Pausing?
      modifies this
      ensures Some(Now()) == Step(old(Now()), OfSender(r, PauseOver)) && Valid()
      ensures sent != old(sent) ==> old(StillRunning(r)) && runs[r].inFlight
    {
      ReachedOn(Now(), OfSender(r, PauseOver));
      var entry, attempt := runs[r], runs[r].cancelling.attempt;
      if attempt < CANCEL_RETRIES && StillRunning(r) && entry.inFlight {
        if entry.backend.Published? { sent := sent + {(entry.backend.conn, r)}; }
        entry := entry.(cancelling := Resignalling(attempt));
      } else {
        entry := entry.(cancelling := Settling);
      }
      runs := runs[r := entry];
    }

    /** A signal sent again is out, or failed, which fails nothing. */
    method SignalOutAgain(r: RunId, ok: bool)
      requires Valid() && Quiet(Now()) && r in runs && runs[r].cancelling.Resignalling?
      modifies this
      ensures Some(Now()) == Step(old(Now()), OfSender(r, Resignalled(ok))) && Valid()
    {
      ReachedOn(Now(), OfSender(r, Resignalled(ok)));
      var entry, attempt := runs[r], runs[r].cancelling.attempt;
      if ok && entry.inFlight { entry := entry.(signalled := true); }
      runs := runs[r := entry.(cancelling := Pausing(attempt + 1))];
    }

    /** The run has ended, and its flags say what the signal did; or it is still stopping. */
    method Settled(r: RunId, timedOut: bool)
      requires Valid() && Quiet(Now()) && r in runs && runs[r].cancelling.Settling? && (timedOut || runs[r].phase.Ended?)
      modifies this
      ensures Some(Now()) == Step(old(Now()), OfSender(r, Settle(timedOut))) && Valid()
    {
      ReachedOn(Now(), OfSender(r, Settle(timedOut)));
      var entry, answer := runs[r], true;
      if entry.phase.Ended? { answer := entry.interrupted || entry.signalled; }
      runs := runs[r := entry.(cancelling := Closing(Some(answer)))];
    }

    /** The canceller is closed: the answer is given, or a later request may try again. */
    method CancellerClosed(r: RunId)
      requires Valid() && Quiet(Now()) && r in runs && runs[r].cancelling.Closing?
      modifies this
      ensures Some(Now()) == Step(old(Now()), OfSender(r, Closed)) && Valid()
    {
      ReachedOn(Now(), OfSender(r, Closed));
      var entry := runs[r];
      if entry.cancelling.answer.None? {
        entry := entry.(cancelling := Idle);
      } else {
        entry := entry.(cancelling := Answered(entry.cancelling.answer.value));
      }
      runs := runs[r := entry];
    }

    // One action, by its method.

    method PerformRun(r: RunId, e: RunEvent)
      requires Valid() && Step(Now(), OfRun(r, e)).Some?
      modifies this
      ensures Some(Now()) == Step(old(Now()), OfRun(r, e)) && Valid()
    {
      match e {
        case Acquire(c) => Acquired(r, c);
        case AcquireFailed => NoConnection(r);
        case BorrowDone(ok) => Lent(r, ok);
        case SetupDone(ok) => Publish(r, ok);
        case Boundary(rejected, wrapped) => NextStatement(r, rejected, wrapped);
        case WireOk => StatementDone(r);
        case WireError(wrapperOnly) => StatementFailed(r, wrapperOnly);
        case Reported(ok) => ResultsOut(r, ok);
        case ErrorReported(ok) => ErrorOut(r, ok);
        case Probed => CleanUp(r);
        case RolledBack => AfterRollback(r);
        case ResetDone => AfterReset(r);
        case Release => LetGo(r);
        case Deregister => Finish(r);
      }
    }

    method PerformSender(r: RunId, e: SenderEvent)
      requires Valid() && Step(Now(), OfSender(r, e)).Some?
      modifies this
      ensures Some(Now()) == Step(old(Now()), OfSender(r, e)) && Valid()
    {
      match e {
        case Opened(ok) => CancellerOpened(r, ok);
        case SignalDone(ok) => SignalOut(r, ok);
        case PauseOver => SendAgain(r);
        case Resignalled(ok) => SignalOutAgain(r, ok);
        case Settle(timedOut) => Settled(r, timedOut);
        case Closed => CancellerClosed(r);
      }
    }

    method Perform(a: Action)
      requires Valid() && Step(Now(), a).Some?
      modifies this
      ensures Some(Now()) == Step(old(Now()), a) && Valid()
    {
      match a {
        case Start(r, queryId, total, stopOnError) => Begin(r, queryId, total, stopOnError);
        case OfRun(r, e) => PerformRun(r, e);
        case CancelCall(k, q) => CancelArrives(k, q);
        case CancelTimeout(k) => CancelGivesUp(k);
        case CancelProceed(k) => Cancel(k);
        case OfSender(r, e) => PerformSender(r, e);
      }
    }

    /**
     * A whole execution, in any order: what cannot happen where it stands does not, and the object ends where the
     * interleaving does. No signal that is out is out for a connection of the pool.
     */
    method Execute(actions: seq<Action>)
      requires Valid()
      modifies this
      ensures Now() == After(old(Now()), actions) && Valid()
      ensures forall x <- sent :: x.0 !in pool && x.1 in runs && runs[x.1].cancelled
    {
      for i := 0 to |actions|
        invariant Valid() && Now() == After(old(Now()), actions[..i])
      {
        assert actions[..i + 1][..i] == actions[..i];
        if Step(Now(), actions[i]).Some? { Perform(actions[i]); }
      }
      assert actions[..|actions|] == actions;
      ReachedInv(Now());
    }
  }
}
