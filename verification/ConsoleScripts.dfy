/**
 * What becomes of a script: which of its statements are sent, what ends it, in which state it leaves its connection,
 * and what the cancel requests for it are answered. An interleaving is a list of actions here, so that what happened to
 * one run can be read off it.
 */
module ConsoleScripts {
  import opened Wrappers
  import opened Console

  /** The state a list of actions leads to; None where one of them cannot happen. */
  function Outcome(actions: seq<Action>): Option<State> {
    if actions == [] then Some(INIT)
    else
      var t := Outcome(actions[..|actions| - 1]);
      if t.None? then None else Step(t.value, actions[|actions| - 1])
  }

  /** What happened to one run. */
  function Heard(actions: seq<Action>, r: RunId): seq<RunEvent> {
    if actions == [] then []
    else
      var a := actions[|actions| - 1];
      Heard(actions[..|actions| - 1], r) + (if a.OfRun? && a.r == r then [a.e] else [])
  }

  // ---------------------------------------------------------------------------------------------------------------
  // The rules for a script
  // ---------------------------------------------------------------------------------------------------------------

  /** The statements are taken in their order, none left out; only one sent wrapped is sent again, unwrapped, once. */
  ghost predicate InOrder(tried: seq<Attempt>) {
    && (tried != [] ==> tried[0].stmt == 0)
    && forall i :: 0 <= i < |tried| - 1 ==>
         || tried[i + 1].stmt == tried[i].stmt + 1
         || (tried[i] == Sent(tried[i].stmt, true) && tried[i + 1] == Sent(tried[i].stmt, false))
  }

  /** The first `n` statements were sent or turned down, and no others. */
  predicate UpTo(tried: seq<Attempt>, n: nat) {
    if tried == [] then n == 0 else tried[|tried| - 1].stmt + 1 == n
  }

  /** No connection, none set up, or the caller's own callback threw. */
  predicate Fails(e: RunEvent) {
    e.AcquireFailed? || e == BorrowDone(false) || e == SetupDone(false) || e == ErrorReported(false)
  }

  /** A statement failed, was turned down, or its results could not be handed over. */
  predicate Errs(e: RunEvent) {
    e.WireError? || e == Reported(false) || (e.Boundary? && e.rejected)
  }

  /** An error was reported to the caller. */
  ghost predicate ToldOfError(heard: seq<RunEvent>) {
    exists k :: 0 < k < |heard| && heard[k] == ErrorReported(true) && Errs(heard[k - 1])
  }

  ghost predicate HasFailed(heard: seq<RunEvent>) {
    exists e <- heard :: Fails(e)
  }

  /** Why a script is not gone on with: every statement was taken; or it was interrupted, failed, or stops on an error. */
  ghost predicate HasReason(run: Run, heard: seq<RunEvent>) {
    || UpTo(run.tried, run.total) || run.interrupted || HasFailed(heard) || (run.stopOnError && ToldOfError(heard))
  }

  const CLEANING := [Probed, RolledBack, ResetDone, Release, Deregister]

  /** The last thing that happened was the cleaning up, so far. */
  predicate Cleaned(heard: seq<RunEvent>, steps: nat) {
    steps <= 5 && steps <= |heard| && forall i :: 0 <= i < steps ==> heard[|heard| - steps + i] == CLEANING[i]
  }

  lemma CleanedOn(heard: seq<RunEvent>, steps: nat)
    requires steps < 5 && Cleaned(heard, steps)
    ensures Cleaned(heard + [CLEANING[steps]], steps + 1)
  {
  }

  /** Where a run stands, by what happened to it. */
  ghost predicate RunFits(run: Run, heard: seq<RunEvent>) {
    && InOrder(run.tried)
    && match run.phase
       case Acquiring => run.tried == []
       case Borrowed => run.tried == []
       case SettingUp => run.tried == []
       case AtBoundary(n) => UpTo(run.tried, n) && n <= run.total
       case OnWire(n, wrapped) => n < run.total && run.tried != [] && run.tried[|run.tried| - 1] == Sent(n, wrapped)
       case Reporting(n) => n < run.total && UpTo(run.tried, n + 1)
       case ReportingError(n) =>
         n < run.total && UpTo(run.tried, n + 1) && heard != [] && Errs(heard[|heard| - 1])
       case Probing => HasReason(run, heard)
       case RollingBack => HasReason(run, heard) && Cleaned(heard, 1)
       case Resetting => HasReason(run, heard) && Cleaned(heard, 2)
       case Releasing(discard) => HasReason(run, heard) && (!discard ==> Cleaned(heard, 3))
       case Deregistering => HasReason(run, heard)
       case Ended => HasReason(run, heard)
  }

  lemma ReasonStays(run: Run, next: Run, heard: seq<RunEvent>, e: RunEvent)
    requires HasReason(run, heard) && next.total == run.total && next.tried == run.tried
    requires next.stopOnError == run.stopOnError && (run.interrupted ==> next.interrupted)
    ensures HasReason(next, heard + [e])
  {
    if HasFailed(heard) {
      var x :| x in heard && Fails(x);
      assert x in heard + [e];
    }
    if ToldOfError(heard) {
      var k :| 0 < k < |heard| && heard[k] == ErrorReported(true) && Errs(heard[k - 1]);
      assert (heard + [e])[k] == heard[k] && (heard + [e])[k - 1] == heard[k - 1];
    }
  }

  lemma NowFails(heard: seq<RunEvent>, e: RunEvent)
    requires Fails(e)
    ensures HasFailed(heard + [e])
  {
    assert (heard + [e])[|heard|] == e;
  }

  lemma NowTold(heard: seq<RunEvent>)
    requires heard != [] && Errs(heard[|heard| - 1])
    ensures ToldOfError(heard + [ErrorReported(true)])
  {
    var all := heard + [ErrorReported(true)];
    assert all[|heard|] == ErrorReported(true) && Errs(all[|heard| - 1]);
  }

  lemma NextInOrder(tried: seq<Attempt>, a: Attempt)
    requires InOrder(tried)
    requires UpTo(tried, a.stmt) || (tried != [] && tried[|tried| - 1] == Sent(a.stmt, true) && a == Sent(a.stmt, false))
    ensures InOrder(tried + [a]) && UpTo(tried + [a], a.stmt + 1)
  {
  }

  lemma LastOf(tried: seq<Attempt>, a: Attempt)
    ensures (tried + [a])[|tried + [a]| - 1] == a
  {
  }

  lemma TakenOrInterrupted(run: Run, heard: seq<RunEvent>)
    requires UpTo(run.tried, run.total) || run.interrupted
    ensures HasReason(run, heard)
  {
  }

  /** The statement loop: what is sent next, and what ends it. */
  lemma BoundaryFits(run: Run, heard: seq<RunEvent>, n: nat, rejected: bool, wrapped: bool)
    requires RunFits(run, heard) && run.phase == AtBoundary(n)
    ensures RunFits(BoundaryRun(run, n, rejected, wrapped), heard + [Boundary(rejected, wrapped)])
  {
    hide InOrder, HasReason;
    var next := BoundaryRun(run, n, rejected, wrapped);
    if n >= run.total || run.cancelled {
      TakenOrInterrupted(next, heard + [Boundary(rejected, wrapped)]);
    } else {
      hide UpTo;
      NextInOrder(run.tried, if rejected then Rejected(n) else Sent(n, wrapped));
      LastOf(run.tried, Sent(n, wrapped));
    }
  }

  lemma WireErrorFits(run: Run, heard: seq<RunEvent>, n: nat, wrapped: bool, wrapperOnly: bool)
    requires RunFits(run, heard) && run.phase == OnWire(n, wrapped)
    ensures RunFits(WireErrorRun(run, n, wrapped, wrapperOnly), heard + [WireError(wrapperOnly)])
  {
    if wrapped { NextInOrder(run.tried, Sent(n, false)); }
    hide InOrder, HasReason;
  }

  lemma ErrorReportedFits(run: Run, heard: seq<RunEvent>, ok: bool)
    requires RunFits(run, heard) && run.phase.ReportingError?
    ensures RunFits(RunNext(run, ErrorReported(ok)).value, heard + [ErrorReported(ok)])
  {
    if ok { NowTold(heard); } else { NowFails(heard, ErrorReported(false)); }
    hide InOrder, HasFailed, ToldOfError;
  }

  lemma LoopFits(run: Run, heard: seq<RunEvent>, e: RunEvent)
    requires RunFits(run, heard) && RunNext(run, e).Some?
    requires run.phase.AtBoundary? || run.phase.OnWire? || run.phase.Reporting? || run.phase.ReportingError?
    ensures RunFits(RunNext(run, e).value, heard + [e])
  {
    hide HasReason, InOrder;
    match e
    case Boundary(rejected, wrapped) => BoundaryFits(run, heard, run.phase.next, rejected, wrapped);
    case WireError(wrapperOnly) => WireErrorFits(run, heard, run.phase.stmt, run.phase.wrapped, wrapperOnly);
    case ErrorReported(ok) => ErrorReportedFits(run, heard, ok);
    case _ =>
  }

  lemma SetupFits(run: Run, heard: seq<RunEvent>, e: RunEvent)
    requires RunFits(run, heard) && RunNext(run, e).Some?
    requires run.phase.Acquiring? || run.phase.Borrowed? || run.phase.SettingUp?
    ensures RunFits(RunNext(run, e).value, heard + [e])
  {
    if Fails(e) { NowFails(heard, e); }
    hide InOrder, HasFailed, ToldOfError;
  }

  lemma TailFits(run: Run, heard: seq<RunEvent>, e: RunEvent)
    requires RunFits(run, heard) && RunNext(run, e).Some?
    requires e.Probed? || e.RolledBack? || e.ResetDone? || e.Release? || e.Deregister?
    ensures RunFits(RunNext(run, e).value, heard + [e])
  {
    hide HasReason, InOrder, BoundaryRun, WireErrorRun, UpTo;
    ReasonStays(run, RunNext(run, e).value, heard, e);
    match e {
      case Probed => CleanedOn(heard, 0);
      case RolledBack => CleanedOn(heard, 1);
      case ResetDone => CleanedOn(heard, 2);
      case _ =>
    }
    hide Cleaned;
  }

  lemma StepFits(run: Run, heard: seq<RunEvent>, e: RunEvent)
    requires RunFits(run, heard) && RunNext(run, e).Some?
    ensures RunFits(RunNext(run, e).value, heard + [e])
  {
    hide RunFits;
    if run.phase.Acquiring? || run.phase.Borrowed? || run.phase.SettingUp? { SetupFits(run, heard, e); }
    else if run.phase.AtBoundary? || run.phase.OnWire? || run.phase.Reporting? || run.phase.ReportingError? {
      LoopFits(run, heard, e);
    } else { TailFits(run, heard, e); }
  }

  // ---------------------------------------------------------------------------------------------------------------
  // Nothing after an error
  // ---------------------------------------------------------------------------------------------------------------

  predicate GoesOn(phase: Phase) {
    phase.AtBoundary? || phase.OnWire? || phase.Reporting? || phase.ReportingError?
  }

  predicate StillGoes(phase: Phase) {
    GoesOn(phase) || phase.Acquiring? || phase.Borrowed? || phase.SettingUp?
  }

  /** While statements are still taken, nothing failed, and no error was reported by a run that stops on one. */
  ghost predicate NoErrorYet(run: Run, heard: seq<RunEvent>) {
    StillGoes(run.phase) ==> !HasFailed(heard) && !(run.stopOnError && ToldOfError(heard))
  }

  lemma FailedOnlyBy(heard: seq<RunEvent>, e: RunEvent)
    requires HasFailed(heard + [e]) && !Fails(e)
    ensures HasFailed(heard)
  {
  }

  lemma ToldOnlyBy(heard: seq<RunEvent>, e: RunEvent)
    requires ToldOfError(heard + [e]) && e != ErrorReported(true)
    ensures ToldOfError(heard)
  {
    var all := heard + [e];
    var k :| 0 < k < |all| && all[k] == ErrorReported(true) && Errs(all[k - 1]);
    assert all[k] == heard[k] && all[k - 1] == heard[k - 1];
  }

  lemma StepNoError(run: Run, heard: seq<RunEvent>, e: RunEvent)
    requires NoErrorYet(run, heard) && RunNext(run, e).Some?
    ensures NoErrorYet(RunNext(run, e).value, heard + [e])
  {
    StillTaking(run, e);
    if ToldOfError(heard + [e]) && e != ErrorReported(true) { ToldOnlyBy(heard, e); }
    if HasFailed(heard + [e]) && !Fails(e) { FailedOnlyBy(heard, e); }
    hide RunNext, ToldOfError, HasFailed, Fails, StillGoes;
  }

  lemma StillTaking(run: Run, e: RunEvent)
    requires RunNext(run, e).Some?
    ensures RunNext(run, e).value.stopOnError == run.stopOnError
    ensures StillGoes(RunNext(run, e).value.phase) ==>
              StillGoes(run.phase) && !Fails(e) && !(e == ErrorReported(true) && run.stopOnError)
  {
    match e {
      case Boundary(_, _) =>
      case WireError(_) =>
      case ErrorReported(_) =>
      case _ => hide BoundaryRun, WireErrorRun;
    }
  }

  /** A statement that failed is sent again, as it is written, exactly where only its wrapper broke it and nobody
      cancelled the run; else its error is reported. */
  lemma SentAgainExactly(run: Run, wrapperOnly: bool)
    requires run.phase.OnWire?
    ensures var n, next := run.phase.stmt, RunNext(run, WireError(wrapperOnly)).value;
            if run.phase.wrapped && wrapperOnly && !run.cancelled
            then next.phase == OnWire(n, false) && next.tried == run.tried + [Sent(n, false)]
            else next.phase == ReportingError(n) && next.tried == run.tried
  {
  }

  /** A cancelled run's connection is closed with nothing more sent on it, where the cancel comes before the cleaning. */
  lemma ClosedAtOnce(run: Run)
    requires run.phase.Probing?
    ensures RunNext(run, Probed).Some? && (RunNext(run, Probed).value.phase == Releasing(true) <==> run.cancelled)
  {
  }

  // ---------------------------------------------------------------------------------------------------------------
  // Sent or turned down
  // ---------------------------------------------------------------------------------------------------------------

  /** The looks at the next statement, in their order. */
  function Looks(heard: seq<RunEvent>): seq<RunEvent> {
    if heard == [] then []
    else
      var e := heard[|heard| - 1];
      Looks(heard[..|heard| - 1]) + if e.Boundary? then [e] else []
  }

  /** A statement is turned down exactly where it is one the runner does not support, and wrapped only where it may be. */
  ghost predicate TakenAsFound(tried: seq<Attempt>, looks: seq<RunEvent>) {
    forall a <- tried ::
      && a.stmt < |looks| && looks[a.stmt].Boundary? && (a.Rejected? <==> looks[a.stmt].rejected)
      && (a.Sent? && a.wrapped ==> looks[a.stmt].wrapped)
  }

  /** How many looks there have been, while the loop goes on. */
  function Looked(phase: Phase): Option<nat> {
    match phase
    case Acquiring => Some(0)
    case Borrowed => Some(0)
    case SettingUp => Some(0)
    case AtBoundary(n) => Some(n)
    case OnWire(n, _) => Some(n + 1)
    case Reporting(n) => Some(n + 1)
    case ReportingError(n) => Some(n + 1)
    case _ => None
  }

  ghost predicate LooksFit(run: Run, heard: seq<RunEvent>) {
    && TakenAsFound(run.tried, Looks(heard))
    && (Looked(run.phase).Some? ==> |Looks(heard)| == Looked(run.phase).value)
    && (run.phase.OnWire? ==> Looks(heard)[run.phase.stmt].Boundary? && !Looks(heard)[run.phase.stmt].rejected)
  }

  lemma LookOn(heard: seq<RunEvent>, e: RunEvent)
    ensures Looks(heard + [e]) == if e.Boundary? then Looks(heard) + [e] else Looks(heard)
  {
    assert (heard + [e])[..|heard|] == heard;
  }

  lemma TakenOn(tried: seq<Attempt>, looks: seq<RunEvent>, more: seq<RunEvent>)
    requires TakenAsFound(tried, looks)
    ensures TakenAsFound(tried, looks + more)
  {
  }

  lemma BoundaryLooks(run: Run, heard: seq<RunEvent>, n: nat, e: RunEvent)
    requires LooksFit(run, heard) && run.phase == AtBoundary(n) && e.Boundary?
    ensures LooksFit(BoundaryRun(run, n, e.rejected, e.wrapped), heard + [e])
  {
    hide Looks, TakenAsFound, BoundaryRun;
    LookOn(heard, e);
    BoundaryTaken(run, Looks(heard), n, e);
    BoundaryGoes(run, n, e.rejected, e.wrapped);
    hide Looked;
    var looks := Looks(heard) + [e];
    assert looks[n] == e;
  }

  lemma BoundaryGoes(run: Run, n: nat, rejected: bool, wrapped: bool)
    ensures var phase := BoundaryRun(run, n, rejected, wrapped).phase;
            && (Looked(phase).Some? ==> Looked(phase).value == n + 1)
            && (phase.OnWire? ==> phase.stmt == n && !rejected)
  {
  }

  lemma WireErrorLooks(run: Run, heard: seq<RunEvent>, n: nat, wrapped: bool, wrapperOnly: bool)
    requires LooksFit(run, heard) && run.phase == OnWire(n, wrapped)
    ensures LooksFit(WireErrorRun(run, n, wrapped, wrapperOnly), heard + [WireError(wrapperOnly)])
  {
    LookOn(heard, WireError(wrapperOnly));
    AgainTaken(run.tried, Looks(heard), n);
    hide Looks, TakenAsFound;
  }

  lemma StepLooks(run: Run, heard: seq<RunEvent>, e: RunEvent)
    requires LooksFit(run, heard) && RunNext(run, e).Some?
    ensures LooksFit(RunNext(run, e).value, heard + [e])
  {
    if e.Boundary? {
      hide LooksFit;
      BoundaryLooks(run, heard, run.phase.next, e);
    } else if e.WireError? {
      hide LooksFit;
      WireErrorLooks(run, heard, run.phase.stmt, run.phase.wrapped, e.wrapperOnly);
    } else {
      LookOn(heard, e);
      OtherwiseSame(run, e);
      hide RunNext, TakenAsFound, Looks, Looked;
    }
  }

  lemma OtherwiseSame(run: Run, e: RunEvent)
    requires RunNext(run, e).Some? && !e.Boundary? && !e.WireError?
    ensures var next := RunNext(run, e).value;
            && next.tried == run.tried && !next.phase.OnWire?
            && (Looked(next.phase).None? || Looked(next.phase) == Looked(run.phase))
  {
    hide BoundaryRun, WireErrorRun;
    match e {
      case Reported(_) =>
      case WireOk =>
      case ErrorReported(_) =>
      case SetupDone(_) =>
      case BorrowDone(_) =>
      case _ =>
    }
  }

  lemma BoundaryTaken(run: Run, looks: seq<RunEvent>, n: nat, e: RunEvent)
    requires TakenAsFound(run.tried, looks) && |looks| == n && e.Boundary?
    ensures TakenAsFound(BoundaryRun(run, n, e.rejected, e.wrapped).tried, looks + [e])
  {
  }

  lemma AgainTaken(tried: seq<Attempt>, looks: seq<RunEvent>, n: nat)
    requires TakenAsFound(tried, looks) && n < |looks| && looks[n].Boundary? && !looks[n].rejected
    ensures TakenAsFound(tried + [Sent(n, false)], looks)
  {
  }

  // ---------------------------------------------------------------------------------------------------------------
  // In every interleaving
  // ---------------------------------------------------------------------------------------------------------------

  /** The parts of an entry that only what happens to the run itself changes. */
  ghost predicate SameRun(run: Run, next: Run) {
    next == run.(cancelled := next.cancelled, cancelling := next.cancelling, signalled := next.signalled)
  }

  lemma SameRunFits(run: Run, next: Run, heard: seq<RunEvent>)
    requires RunFits(run, heard) && LooksFit(run, heard) && NoErrorYet(run, heard) && SameRun(run, next)
    ensures RunFits(next, heard) && LooksFit(next, heard) && NoErrorYet(next, heard)
  {
  }

  /** What an action does to one run's entry. */
  lemma StepOfRun(s: State, a: Action, r: RunId)
    requires Step(s, a).Some?
    ensures var t := Step(s, a).value;
            && (r in s.runs ==> r in t.runs)
            && (a.OfRun? && a.r == r ==> r in s.runs && RunNext(s.runs[r], a.e) == Some(t.runs[r]))
            && (!(a.OfRun? && a.r == r) && r in s.runs ==> SameRun(s.runs[r], t.runs[r]))
            && (r !in s.runs && r in t.runs ==> a.Start? && a.r == r && t == Started(s, r, a.queryId, a.total, a.stopOnError))
  {
    hide RunNext, Registered;
    match a
    case OfRun(u, e) => EffectKeepsRuns(s, Put(s, u, RunNext(s.runs[u], e).value), u, e);
    case OfSender(u, e) => SenderKeepsRun(s.runs[u], Registered(s, u), e);
    case _ =>
  }

  lemma EffectKeepsRuns(s: State, t: State, r: RunId, e: RunEvent)
    requires r in s.runs && RunEffect(s, t, r, e).Some?
    ensures RunEffect(s, t, r, e).value.runs == t.runs
  {
  }

  lemma SenderKeepsRun(run: Run, registered: bool, e: SenderEvent)
    requires SenderNext(run, registered, e).Some?
    ensures SameRun(run, SenderNext(run, registered, e).value)
  {
  }

  lemma {:induction false} NothingHeard(actions: seq<Action>, r: RunId)
    requires Outcome(actions).Some? && r !in Outcome(actions).value.runs
    ensures Heard(actions, r) == []
  {
    if actions != [] {
      var before, a := actions[..|actions| - 1], actions[|actions| - 1];
      StepOfRun(Outcome(before).value, a, r);
      NothingHeard(before, r);
    }
  }

  lemma FitsOn(s: State, a: Action, r: RunId, heard: seq<RunEvent>)
    requires Step(s, a).Some? && r in Step(s, a).value.runs
    requires if r in s.runs then RunFits(s.runs[r], heard) && LooksFit(s.runs[r], heard) && NoErrorYet(s.runs[r], heard)
             else heard == []
    ensures RunFits(Step(s, a).value.runs[r], heard + if a.OfRun? && a.r == r then [a.e] else [])
    ensures LooksFit(Step(s, a).value.runs[r], heard + if a.OfRun? && a.r == r then [a.e] else [])
    ensures NoErrorYet(Step(s, a).value.runs[r], heard + if a.OfRun? && a.r == r then [a.e] else [])
  {
    hide RunFits, LooksFit, NoErrorYet, RunNext, Step;
    StepOfRun(s, a, r);
    if r !in s.runs {
      NewRunFits(s, a);
      assert [] + [] == heard;
    } else if a.OfRun? && a.r == r {
      StepFits(s.runs[r], heard, a.e);
      StepLooks(s.runs[r], heard, a.e);
      StepNoError(s.runs[r], heard, a.e);
    } else {
      SameRunFits(s.runs[r], Step(s, a).value.runs[r], heard);
      assert heard + [] == heard;
    }
  }

  lemma {:induction false} ScriptFits(actions: seq<Action>, r: RunId)
    requires Outcome(actions).Some? && r in Outcome(actions).value.runs
    ensures RunFits(Outcome(actions).value.runs[r], Heard(actions, r))
    ensures LooksFit(Outcome(actions).value.runs[r], Heard(actions, r))
    ensures NoErrorYet(Outcome(actions).value.runs[r], Heard(actions, r))
  {
    hide RunFits, LooksFit, NoErrorYet, Step;
    if actions != [] {
      var before, a := actions[..|actions| - 1], actions[|actions| - 1];
      var s := Outcome(before).value;
      if r in s.runs { ScriptFits(before, r); } else { NothingHeard(before, r); }
      FitsOn(s, a, r, Heard(before, r));
    }
  }

  lemma FitsMeans(run: Run, heard: seq<RunEvent>)
    requires RunFits(run, heard)
    ensures InOrder(run.tried)
    ensures run.phase.Ended? ==>
              UpTo(run.tried, run.total) || run.interrupted || HasFailed(heard) || (run.stopOnError && ToldOfError(heard))
  {
    hide InOrder, HasFailed, ToldOfError, UpTo;
  }

  lemma NewRunFits(s: State, a: Action)
    requires a.Start?
    ensures RunFits(Started(s, a.r, a.queryId, a.total, a.stopOnError).runs[a.r], [])
    ensures LooksFit(Started(s, a.r, a.queryId, a.total, a.stopOnError).runs[a.r], [])
    ensures NoErrorYet(Started(s, a.r, a.queryId, a.total, a.stopOnError).runs[a.r], [])
  {
  }

  /** An interleaving is a list of actions, each of which can happen where it stands. */
  lemma {:induction false} TraceIsOutcome(tr: seq<State>, i: nat) returns (actions: seq<Action>)
    requires IsTrace(tr) && i < |tr|
    ensures |actions| == i && Outcome(actions) == Some(tr[i])
  {
    if i == 0 {
      actions := [];
    } else {
      var before := TraceIsOutcome(tr, i - 1);
      assert Next(tr[i - 1], tr[(i - 1) + 1]);
      var a :| Step(tr[i - 1], a) == Some(tr[i]);
      actions := before + [a];
      assert actions[..|actions| - 1] == before;
    }
  }

  lemma {:induction false} OutcomeInv(actions: seq<Action>)
    requires Outcome(actions).Some?
    ensures Inv(Outcome(actions).value)
  {
    hide Inv, Step;
    if actions == [] {
      TraceInv([INIT], 0);
    } else {
      OutcomeInv(actions[..|actions| - 1]);
      StepKeepsInv(Outcome(actions[..|actions| - 1]).value, actions[|actions| - 1]);
    }
  }

  /**
   * Whatever else happens, a run takes its statements in their order and leaves none out; it turns down only those it
   * does not support. Once it has ended it has
   * taken all of them, unless it was interrupted by a cancel, could not begin, lost its caller, or reported an error
   * where it stops on one; and then it takes no more.
   */
  lemma EveryStatementIsTaken(actions: seq<Action>, r: RunId)
    requires Outcome(actions).Some? && r in Outcome(actions).value.runs
    ensures var run, heard := Outcome(actions).value.runs[r], Heard(actions, r);
            && InOrder(run.tried) && TakenAsFound(run.tried, Looks(heard))
            && (run.phase.Ended? && !HasFailed(heard) && !run.interrupted && !(run.stopOnError && ToldOfError(heard)) ==>
                  UpTo(run.tried, run.total))
            && (HasFailed(heard) || (run.stopOnError && ToldOfError(heard)) ==> !GoesOn(run.phase))
            && (run.interrupted ==> run.cancelled)
  {
    hide RunFits, InOrder, HasFailed, ToldOfError, UpTo, Outcome, Heard, TakenAsFound, Looks;
    ScriptFits(actions, r);
    FitsMeans(Outcome(actions).value.runs[r], Heard(actions, r));
    OutcomeInv(actions);
    hide SentInv, RegistryInv, Exclusive, DiscardInv;
  }

  /** In numbers: without a cancel or an error on the way, every statement below `total` was sent or turned down. */
  lemma {:induction false} TakenMeansEach(tried: seq<Attempt>, n: nat, k: nat)
    requires InOrder(tried) && UpTo(tried, n)
    ensures (exists a <- tried :: a.stmt == k) <==> k < n
    decreases |tried|
  {
    if tried != [] {
      var last := |tried| - 1;
      var before := tried[..last];
      assert forall i :: 0 <= i < last ==> before[i] == tried[i];
      var m: nat := if last == 0 then 0 else tried[last - 1].stmt + 1;
      assert InOrder(before) && UpTo(before, m);
      TakenMeansEach(before, m, k);
      assert forall a <- tried :: a in before || a == tried[last];
      assert forall a <- before :: a in tried;
      assert tried[last] in tried;
    }
  }

  // ---------------------------------------------------------------------------------------------------------------
  // The connection it leaves
  // ---------------------------------------------------------------------------------------------------------------

  /** Rolled back, reset and then let go, with nothing in between; or it was never lent. */
  ghost predicate LeftClean(run: Run, heard: seq<RunEvent>) {
    Cleaned(heard, if run.phase.Ended? then 5 else 4) || BorrowDone(false) in heard
  }

  /** What may be said of a run's connection once the run has let it go. */
  ghost predicate LeavesIt(s: State, r: RunId, heard: seq<RunEvent>)
    requires r in s.runs
  {
    var run := s.runs[r];
    run.conn.Some? && (run.phase.Deregistering? || run.phase.Ended?) ==>
      run.conn.value in s.discarded || LeftClean(run, heard)
  }

  lemma DiscardedStay(s: State, a: Action)
    requires Step(s, a).Some?
    ensures s.discarded <= Step(s, a).value.discarded
  {
  }

  lemma ReleaseLeaves(s: State, r: RunId, heard: seq<RunEvent>)
    requires Inv(s) && Step(s, OfRun(r, Release)).Some? && RunFits(s.runs[r], heard)
    ensures LeavesIt(Step(s, OfRun(r, Release)).value, r, heard + [Release])
  {
    assert Sound(s.runs[r]);
    hide Inv, HasReason, InOrder;
    if s.runs[r].phase == Releasing(false) { CleanedOn(heard, 3); }
    hide Cleaned;
  }

  /** The run's own steps. */
  lemma LettingGo(s: State, r: RunId, e: RunEvent, heard: seq<RunEvent>)
    requires Inv(s) && Step(s, OfRun(r, e)).Some? && RunFits(s.runs[r], heard) && LeavesIt(s, r, heard)
    ensures LeavesIt(Step(s, OfRun(r, e)).value, r, heard + [e])
  {
    if e.Release? {
      ReleaseLeaves(s, r, heard);
    } else {
      DiscardedStay(s, OfRun(r, e));
      EffectKeepsRuns(s, Put(s, r, RunNext(s.runs[r], e).value), r, e);
      OtherLeaves(s.runs[r], e, heard);
      assert Sound(s.runs[r]);
      hide RunEffect, RunNext, RunFits, LeftClean, Inv;
    }
  }

  lemma OtherLeaves(run: Run, e: RunEvent, heard: seq<RunEvent>)
    requires RunNext(run, e).Some? && !e.Release? && Sound(run)
    ensures var next := RunNext(run, e).value;
            next.conn.Some? && (next.phase.Deregistering? || next.phase.Ended?) ==>
              && next.conn == run.conn && (run.phase.Deregistering? || e == BorrowDone(false))
              && (LeftClean(run, heard) || e == BorrowDone(false) ==> LeftClean(next, heard + [e]))
  {
    if e.Deregister? && Cleaned(heard, 4) { CleanedOn(heard, 4); }
    assert forall x <- heard :: x in heard + [e];
    assert (heard + [e])[|heard|] == e;
    hide Cleaned;
  }

  lemma LeavesItOn(s: State, a: Action, r: RunId, heard: seq<RunEvent>)
    requires Inv(s) && Step(s, a).Some? && r in Step(s, a).value.runs
    requires if r in s.runs then RunFits(s.runs[r], heard) && LeavesIt(s, r, heard) else heard == []
    ensures LeavesIt(Step(s, a).value, r, heard + if a.OfRun? && a.r == r then [a.e] else [])
  {
    hide RunFits, RunNext, Step, LeftClean, Inv;
    StepOfRun(s, a, r);
    DiscardedStay(s, a);
    if a.OfRun? && a.r == r {
      LettingGo(s, r, a.e, heard);
    } else if r in s.runs {
      assert heard + [] == heard;
      SameLeft(s.runs[r], Step(s, a).value.runs[r], heard);
    }
  }

  lemma SameLeft(run: Run, next: Run, heard: seq<RunEvent>)
    requires SameRun(run, next)
    ensures LeftClean(run, heard) ==> LeftClean(next, heard)
  {
  }

  /**
   * Whatever a script did to its session, the connection it was run on is closed, or it was rolled back and reset after
   * all of it and before it was let go. It is closed only where some run of it was cancelled.
   */
  lemma {:induction false} ConnectionLeftClean(actions: seq<Action>, r: RunId)
    requires Outcome(actions).Some? && r in Outcome(actions).value.runs
    ensures LeavesIt(Outcome(actions).value, r, Heard(actions, r))
  {
    hide RunFits, Step, LeavesIt, Inv;
    if actions != [] {
      var before, a := actions[..|actions| - 1], actions[|actions| - 1];
      var s := Outcome(before).value;
      OutcomeInv(before);
      if r in s.runs { ScriptFits(before, r); ConnectionLeftClean(before, r); } else { NothingHeard(before, r); }
      LeavesItOn(s, a, r, Heard(before, r));
    }
  }

  // ---------------------------------------------------------------------------------------------------------------
  // What a cancel is answered
  // ---------------------------------------------------------------------------------------------------------------

  /**
   * The answer that was true in this state. The run's id was not its own any more: whether the flag had stopped it. The
   * run had ended: whether the flag or a signal had. It had not: it is stopping, so yes.
   */
  ghost predicate IsAnswer(s: State, r: RunId, b: bool)
    requires r in s.runs
  {
    var run := s.runs[r];
    || ((run.cancelling.Idle? || run.cancelling.Opening?) && !Registered(s, r) && b == run.interrupted)
    || (run.cancelling.Settling? && b == (run.phase.Ended? ==> run.interrupted || run.signalled))
  }

  predicate Answers(run: Run, b: bool) {
    run.cancelling == Closing(Some(b)) || run.cancelling == Answered(b)
  }

  /** The signal that was out then hit a statement that was in flight on both sides of it. */
  predicate Hits(run: Run) {
    run.inFlight && (run.cancelling == Signalling(true) || run.cancelling.Resignalling?)
  }

  ghost predicate WasAnswer(actions: seq<Action>, r: RunId, b: bool) {
    exists j :: 0 <= j < |actions| && var s := Outcome(actions[..j]); s.Some? && r in s.value.runs && IsAnswer(s.value, r, b)
  }

  ghost predicate HasHit(actions: seq<Action>, r: RunId) {
    exists j :: 0 <= j < |actions| && var s := Outcome(actions[..j]); s.Some? && r in s.value.runs && Hits(s.value.runs[r])
  }

  lemma WasBefore(actions: seq<Action>, r: RunId)
    requires actions != []
    ensures forall b :: WasAnswer(actions[..|actions| - 1], r, b) ==> WasAnswer(actions, r, b)
    ensures HasHit(actions[..|actions| - 1], r) ==> HasHit(actions, r)
    ensures var s := Outcome(actions[..|actions| - 1]);
            s.Some? && r in s.value.runs ==>
              && (forall b :: IsAnswer(s.value, r, b) ==> WasAnswer(actions, r, b))
              && (Hits(s.value.runs[r]) ==> HasHit(actions, r))
  {
    hide Outcome, IsAnswer, Hits;
    var before := actions[..|actions| - 1];
    assert forall j :: 0 <= j <= |before| ==> before[..j] == actions[..j];
  }

  /** One action: an answer is given where it is true, and a run counts as hit where it is. */
  lemma AnswersTruly(s: State, a: Action, r: RunId)
    requires Step(s, a).Some? && r in Step(s, a).value.runs
    ensures var run := Step(s, a).value.runs[r];
            && (forall b :: Answers(run, b) ==> r in s.runs && (Answers(s.runs[r], b) || IsAnswer(s, r, b)))
            && (run.signalled ==> r in s.runs && (s.runs[r].signalled || Hits(s.runs[r])))
  {
    hide Unused;
    match a
    case OfRun(u, e) =>
      EffectKeepsRuns(s, Put(s, u, RunNext(s.runs[u], e).value), u, e);
      RunKeepsSender(s.runs[u], e);
      hide RunNext, RunEffect;
    case OfSender(u, e) => SenderAnswers(s, u, e);
    case _ =>
  }

  lemma RunKeepsSender(run: Run, e: RunEvent)
    requires RunNext(run, e).Some?
    ensures RunNext(run, e).value.cancelling == run.cancelling && RunNext(run, e).value.signalled == run.signalled
  {
    match e {
      case Boundary(_, _) =>
      case WireError(_) =>
      case SetupDone(_) =>
      case ErrorReported(_) =>
      case _ => hide BoundaryRun, WireErrorRun;
    }
  }

  lemma SenderAnswers(s: State, r: RunId, e: SenderEvent)
    requires r in s.runs && SenderNext(s.runs[r], Registered(s, r), e).Some?
    ensures var run := SenderNext(s.runs[r], Registered(s, r), e).value;
            && (forall b :: Answers(run, b) ==> Answers(s.runs[r], b) || IsAnswer(s, r, b))
            && (run.signalled ==> s.runs[r].signalled || Hits(s.runs[r]))
  {
    hide Registered;
  }

  /**
   * Every answer a cancel gives was true of the run when it was decided, and a run counts as hit by a signal only where
   * one was out during a statement of it.
   */
  lemma {:induction false} CancelTellsTheTruth(actions: seq<Action>, r: RunId, b: bool)
    requires Outcome(actions).Some? && r in Outcome(actions).value.runs
    ensures var run := Outcome(actions).value.runs[r];
            && (Answers(run, b) ==> WasAnswer(actions, r, b))
            && (run.signalled ==> HasHit(actions, r))
  {
    hide Step, Answers, WasAnswer, HasHit, IsAnswer, Hits;
    if actions != [] {
      var before, a := actions[..|actions| - 1], actions[|actions| - 1];
      var s := Outcome(before).value;
      if r in s.runs { CancelTellsTheTruth(before, r, b); }
      AnswersTruly(s, a, r);
      WasBefore(actions, r);
    }
  }

  /** Whoever asks for a cancel waits on a signal that went out, to the connection of the run. */
  ghost predicate SignalIsOut(s: State, r: RunId)
    requires r in s.runs
  {
    var run := s.runs[r];
    run.signalled || run.cancelling.Signalling? || run.cancelling.Pausing? || run.cancelling.Resignalling?
    || run.cancelling.Settling? ==>
      run.conn.Some? && (run.conn.value, r) in s.sent
  }

  lemma SenderSends(s: State, r: RunId, e: SenderEvent)
    requires r in s.runs && Sound(s.runs[r]) && SignalIsOut(s, r) && Step(s, OfSender(r, e)).Some?
    ensures SignalIsOut(Step(s, OfSender(r, e)).value, r)
  {
    hide Registered;
  }

  lemma RunStepSends(s: State, r: RunId, e: RunEvent)
    requires r in s.runs && Sound(s.runs[r]) && SignalIsOut(s, r) && Step(s, OfRun(r, e)).Some?
    ensures SignalIsOut(Step(s, OfRun(r, e)).value, r)
  {
    NextOnlySends(s, OfRun(r, e));
    EffectKeepsRuns(s, Put(s, r, RunNext(s.runs[r], e).value), r, e);
    RunKeepsSender(s.runs[r], e);
    RunNextSound(s.runs[r], e);
    hide RunNext, RunEffect, Sound;
  }

  lemma SignalIsOutOn(s: State, a: Action, r: RunId)
    requires Inv(s) && Step(s, a).Some? && r in Step(s, a).value.runs && (r in s.runs ==> SignalIsOut(s, r))
    ensures SignalIsOut(Step(s, a).value, r)
  {
    assert r in s.runs ==> Sound(s.runs[r]);
    hide Inv, Sound;
    if a.OfRun? && a.r == r {
      RunStepSends(s, r, a.e);
    } else if a.OfSender? && a.r == r {
      SenderSends(s, r, a.se);
    } else {
      NextOnlySends(s, a);
      StepOfRun(s, a, r);
      if r in s.runs { OthersWait(s, a, r); }
      hide Step;
    }
  }

  lemma OthersWait(s: State, a: Action, r: RunId)
    requires Step(s, a).Some? && !(a.OfRun? && a.r == r) && !(a.OfSender? && a.r == r) && r in s.runs
    ensures var run, next := s.runs[r], Step(s, a).value.runs[r];
            && next.signalled == run.signalled
            && (next.cancelling == run.cancelling || next.cancelling.Opening? || next.cancelling.Answered?)
  {
    hide RunNext, SenderNext;
    if a.OfRun? { EffectKeepsRuns(s, Put(s, a.r, RunNext(s.runs[a.r], a.e).value), a.r, a.e); }
    hide RunEffect;
  }

  /**
   * A signal is sent exactly where the canceller has just been connected and the run is still registered, or a pause is
   * over, a statement is in flight, the run is still registered, and it was not sent forty times.
   */
  lemma SentExactly(s: State, r: RunId, e: SenderEvent)
    requires Inv(s) && Step(s, OfSender(r, e)).Some?
    ensures var run, t := s.runs[r], Step(s, OfSender(r, e)).value;
            && (t.runs[r].cancelling.Signalling? || t.runs[r].cancelling.Resignalling? <==>
                  Registered(s, r) && ((run.cancelling.Opening? && e == Opened(true))
                                       || (run.cancelling.Pausing? && run.cancelling.attempt < 40 && run.inFlight)))
            && t.sent == if t.runs[r].cancelling.Signalling? || t.runs[r].cancelling.Resignalling?
                         then s.sent + {(run.conn.value, r)} else s.sent
  {
    assert Sound(s.runs[r]);
    hide Registered, SentInv, RegistryInv, Exclusive, DiscardInv;
  }

  /**
   * A run counts as interrupted exactly where a cancel had come and a statement was left that is not taken any more, or
   * one was told to have failed.
   */
  lemma InterruptedExactly(s: State, r: RunId, e: RunEvent)
    requires r in s.runs && Step(s, OfRun(r, e)).Some?
    ensures var run, t := s.runs[r], Step(s, OfRun(r, e)).value;
            && r in t.runs
            && (t.runs[r].interrupted <==>
                  run.interrupted || (run.cancelled && ((e.Boundary? && run.phase.next < run.total) || e == ErrorReported(true))))
  {
    StepOfRun(s, OfRun(r, e), r);
  }

  lemma NextOnlySends(s: State, a: Action)
    requires Step(s, a).Some?
    ensures s.sent <= Step(s, a).value.sent
  {
    assert Next(s, Step(s, a).value);
    SendingOnlyAdds(s, Step(s, a).value);
  }

  lemma {:induction false} SignalsAreOut(actions: seq<Action>, r: RunId)
    requires Outcome(actions).Some? && r in Outcome(actions).value.runs
    ensures SignalIsOut(Outcome(actions).value, r)
  {
    hide Step, Inv, SignalIsOut;
    if actions != [] {
      var before, a := actions[..|actions| - 1], actions[|actions| - 1];
      OutcomeInv(before);
      if r in Outcome(before).value.runs { SignalsAreOut(before, r); }
      SignalIsOutOn(Outcome(before).value, a, r);
    }
  }

  /** Before its first statement a run that has an id can be reached by a cancel: its backend id is there. */
  ghost predicate CanBeReached(run: Run) {
    GoesOn(run.phase) && run.queryId.Some? ==> run.backend.Published?
  }

  lemma StepReaches(run: Run, e: RunEvent)
    requires Sound(run) && CanBeReached(run) && RunNext(run, e).Some?
    ensures CanBeReached(RunNext(run, e).value)
  {
    match e {
      case Boundary(_, _) =>
      case WireError(_) =>
      case SetupDone(_) =>
      case ErrorReported(_) =>
      case _ => hide BoundaryRun, WireErrorRun;
    }
  }

  lemma CanStillBeReached(s: State, a: Action, r: RunId)
    requires Inv(s) && Step(s, a).Some? && r in Step(s, a).value.runs && (r in s.runs ==> CanBeReached(s.runs[r]))
    ensures CanBeReached(Step(s, a).value.runs[r])
  {
    assert r in s.runs ==> Sound(s.runs[r]);
    hide Inv, Sound, RunNext, Step;
    StepOfRun(s, a, r);
    if a.OfRun? && a.r == r { StepReaches(s.runs[r], a.e); }
  }

  /** Over every interleaving: from its first statement on, no run escapes a cancel of its id. */
  lemma {:induction false} EveryRunCanBeReached(actions: seq<Action>, r: RunId)
    requires Outcome(actions).Some? && r in Outcome(actions).value.runs
    ensures CanBeReached(Outcome(actions).value.runs[r])
  {
    hide Step, Inv, CanBeReached;
    if actions != [] {
      var before, a := actions[..|actions| - 1], actions[|actions| - 1];
      OutcomeInv(before);
      if r in Outcome(before).value.runs { EveryRunCanBeReached(before, r); }
      CanStillBeReached(Outcome(before).value, a, r);
    }
  }
}
