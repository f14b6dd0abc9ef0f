/**
 * How many proofs are looked at in a window of the lock's length, with no accepted proof and no removal meanwhile.
 *
 * The count bounds how many proofs are counted. A proof is looked at later than it is counted, two round trips on, so
 * what a window sees also depends on who stands between the two when it begins: the limit is kept over every way the
 * run may go on exactly when those, and the room the count leaves, are no more than the limit together.
 */
module LookLimit {
  import opened Wrappers
  import opened SecondFactor

  /** A window is one of the stamps proofs are counted with, or one of the moments they are looked at. */
  datatype Of = Stamp | Moment

  predicate Within(t: nat, w: nat) {
    w <= t < w + LOCK_MS
  }

  predicate Seen(e: Event, of: Of, w: nat) {
    e.Looked? && Within(if of.Stamp? then e.t else e.at, w)
  }

  /** How many proofs are looked at in the window that starts at `w`. */
  function Looks(log: seq<Event>, of: Of, w: nat): nat {
    if log == [] then 0
    else Looks(log[..|log| - 1], of, w) + (if Seen(log[|log| - 1], of, w) then 1 else 0)
  }

  lemma {:induction false} LooksAdd(x: seq<Event>, y: seq<Event>, of: Of, w: nat)
    ensures Looks(x + y, of, w) == Looks(x, of, w) + Looks(y, of, w)
  {
    if y == [] {
      assert x + y == x;
    } else {
      LooksAdd(x, y[..|y| - 1], of, w);
      assert (x + y)[..|x + y| - 1] == x + y[..|y| - 1];
    }
  }

  // ---------------------------------------------------------------------------------------------------------------
  // How a run goes on
  // ---------------------------------------------------------------------------------------------------------------

  ghost predicate Path(c: Crypto, run: seq<State>) {
    && |run| > 0
    && forall i :: 0 <= i < |run| - 1 ==> Next(c, run[i], run[i + 1])
  }

  /** From `s` some order of actions ends in `t`. */
  ghost predicate Leads(c: Crypto, s: State, t: State) {
    exists run :: Path(c, run) && run[0] == s && run[|run| - 1] == t
  }

  lemma LeadsToItself(c: Crypto, s: State)
    ensures Leads(c, s, s)
  {
    assert Path(c, [s]) && [s][0] == s;
  }

  lemma LeadsOn(c: Crypto, s: State, t: State, a: Action)
    requires Leads(c, s, t) && Step(c, t, a).Some?
    ensures Leads(c, s, Step(c, t, a).value)
  {
    var run :| Path(c, run) && run[0] == s && run[|run| - 1] == t;
    var u := Step(c, t, a).value;
    var next := run + [u];
    assert Next(c, t, u);
    forall i | 0 <= i < |next| - 1 ensures Next(c, next[i], next[i + 1]) {
      if i < |run| - 1 { assert Next(c, run[i], run[i + 1]); }
    }
    assert Path(c, next) && next[0] == s && next[|next| - 1] == u;
  }

  lemma LeadsThrough(c: Crypto, s: State, t: State, u: State)
    requires Leads(c, s, t) && Leads(c, t, u)
    ensures Leads(c, s, u)
  {
    var run :| Path(c, run) && run[0] == s && run[|run| - 1] == t;
    var more :| Path(c, more) && more[0] == t && more[|more| - 1] == u;
    var all := run + more[1..];
    forall i | 0 <= i < |all| - 1 ensures Next(c, all[i], all[i + 1]) {
      if i < |run| - 1 { assert Next(c, run[i], run[i + 1]); }
      else { assert Next(c, more[i - (|run| - 1)], more[i - (|run| - 1) + 1]); }
    }
    assert Path(c, all) && all[0] == s && all[|all| - 1] == u;
  }

  /** What is logged between `s` and a later state. */
  function Added(s: State, t: State): seq<Event> {
    if |s.log| <= |t.log| then t.log[|s.log|..] else []
  }

  /** At most one event an action. */
  lemma AddedByStep(c: Crypto, s: State, t: State, of: Of, w: nat)
    requires Next(c, s, t)
    ensures s.log <= t.log && |Added(s, t)| <= 1
    ensures Looks(Added(s, t), of, w) == if Added(s, t) != [] && Seen(Added(s, t)[0], of, w) then 1 else 0
  {
    NextExtendsLog(c, s, t);
    if Added(s, t) != [] { assert Added(s, t)[..0] == []; }
  }

  lemma AddedAdds(s: State, t: State, u: State, of: Of, w: nat)
    requires s.log <= t.log <= u.log
    ensures Added(s, u) == Added(s, t) + Added(t, u)
    ensures Looks(Added(s, u), of, w) == Looks(Added(s, t), of, w) + Looks(Added(t, u), of, w)
  {
    LooksAdd(Added(s, t), Added(t, u), of, w);
  }

  // ---------------------------------------------------------------------------------------------------------------
  // What may still be looked at
  // ---------------------------------------------------------------------------------------------------------------

  /** The request is counted and its proof is not looked at yet. */
  predicate Waits(q: Proc) {
    q.Try? && (q.pc.CountedAt? || q.pc.Fresh?)
  }

  /** Those that wait; in a window of stamps, only where theirs is in it. */
  function Pending(s: State, of: Of, w: nat): set<Pid> {
    set p <- s.procs | Waits(s.procs[p]) && (of.Moment? || Within(s.procs[p].pc.t, w))
  }

  /** How many more may be counted with a stamp in the window, as long as the count does not start again. */
  function Room(s: State, w: nat): int {
    if s.stored.None? then MAX_MISSES
    else
      var f := s.stored.value.factor;
      if f.lastMissAt.None? || f.lastMissAt.value < w then MAX_MISSES
      else if f.lastMissAt.value < w + LOCK_MS then MAX_MISSES - f.misses
      else 0
  }

  /** About to be counted on what is stored, with a stamp from before the window. */
  predicate IsLate(s: State, p: Pid, w: nat) {
    && p in s.procs && s.procs[p].Try? && s.procs[p].pc.Counting? && s.procs[p].pc.t < w
    && SetLands(s, s.procs[p].pc.read.version)
  }

  /** One such request may still be counted, and looked at within the window. */
  ghost predicate Late(s: State, of: Of, w: nat) {
    of.Moment? && exists p :: IsLate(s, p, w)
  }

  /** How many proofs may be looked at in the window from here on: none once a window of moments is over. */
  ghost function MayLook(s: State, of: Of, w: nat): int {
    if of.Moment? && s.now >= w + LOCK_MS then 0
    else |Pending(s, of, w)| + Room(s, w) + if Late(s, of, w) then 1 else 0
  }

  lemma RoomIsLeft(s: State, w: nat)
    requires Inv(s)
    ensures 0 <= Room(s, w) <= MAX_MISSES
  {
    var ts := Trail(s.log);
    assert ts[..|ts|] == ts;
  }

  /** One request moves: the others wait as before. */
  lemma PendingMoves(s: State, t: State, p: Pid, of: Of, w: nat)
    requires p in t.procs && t.procs == s.procs[p := t.procs[p]]
    ensures |Pending(t, of, w)| - (if p in Pending(t, of, w) then 1 else 0)
              == |Pending(s, of, w)| - (if p in Pending(s, of, w) then 1 else 0)
  {
    assert Pending(t, of, w) - {p} == Pending(s, of, w) - {p};
    SizeWithout(Pending(t, of, w), p);
    SizeWithout(Pending(s, of, w), p);
  }

  lemma SizeWithout(x: set<Pid>, p: Pid)
    ensures |x| == |x - {p}| + if p in x then 1 else 0
  {
    assert x == (x - {p}) + if p in x then {p} else {};
  }

  /** Nobody is about to be counted on what is stored. */
  ghost predicate NoneCounting(s: State) {
    forall p <- s.procs :: s.procs[p].Try? && s.procs[p].pc.Counting? ==> !SetLands(s, s.procs[p].pc.read.version)
  }

  /** A version just written was read by nobody yet. */
  lemma NobodyLate(s: State, t: State, p: Pid, w: nat)
    requires Inv(s) && p in s.procs && p in t.procs && t.procs == s.procs[p := t.procs[p]]
    requires t.stored.Some? && t.stored.value.version == s.nextVersion
    requires !(t.procs[p].Try? && t.procs[p].pc.Counting?)
    ensures NoneCounting(t) && !IsLate(t, p, w) && forall q :: !IsLate(t, q, w)
  {
    forall q <- t.procs | t.procs[q].Try? && t.procs[q].pc.Counting?
      ensures !SetLands(t, t.procs[q].pc.read.version)
    {
      assert TrySound(s, q, s.procs[q]);
    }
  }

  // ---------------------------------------------------------------------------------------------------------------
  // No action makes room
  // ---------------------------------------------------------------------------------------------------------------

  /** What is looked at from `s` to `t` and may be after it, against what might be at `s`. */
  ghost function Balance(s: State, t: State, of: Of, w: nat): int {
    Looks(Added(s, t), of, w) + MayLook(t, of, w) - MayLook(s, of, w)
  }

  predicate Moves(c: Crypto, s: State, t: State, p: Pid) {
    p in s.procs && Step(c, s, Move(p)) == Some(t)
  }

  /** A miss that lands takes its place in the window, or the one a late request had. */
  lemma CountingBalance(c: Crypto, s: State, t: State, p: Pid, of: Of, w: nat)
    requires Inv(s) && Moves(c, s, t, p) && s.procs[p].Try? && s.procs[p].pc.Counting?
    requires SetLands(s, s.procs[p].pc.read.version) && (of.Moment? ==> w <= s.now)
    ensures Balance(s, t, of, w) <= 0
    ensures s.now < w + LOCK_MS && (Late(s, of, w) ==> IsLate(s, p, w))
            && (IsLate(s, p, w) || Recent(s.stored.value.factor, s.procs[p].pc.t) + Room(s, w) == MAX_MISSES)
            ==> Balance(s, t, of, w) == 0
  {
    assert TrySound(s, p, s.procs[p]);
    assert Next(c, s, t);
    AddedByStep(c, s, t, of, w);
    PendingMoves(s, t, p, of, w);
    NobodyLate(s, t, p, w);
    RoomIsLeft(s, w);
    if IsLate(s, p, w) { assert of.Moment? ==> Late(s, of, w); }
  }

  /** A proof that is looked at no longer waits. */
  lemma LookingBalance(c: Crypto, s: State, t: State, p: Pid, of: Of, w: nat)
    requires Moves(c, s, t, p) && s.procs[p].Try? && s.procs[p].pc.Fresh? && (of.Moment? ==> w <= s.now)
    ensures Balance(s, t, of, w) == 0
  {
    assert Next(c, s, t);
    AddedByStep(c, s, t, of, w);
    PendingMoves(s, t, p, of, w);
    assert t.log == s.log + [Looked(p, s.procs[p].pc.t, s.now)];
    assert forall q :: IsLate(t, q, w) <==> IsLate(s, q, w);
  }

  /** A request reads, or finds the account locked, or is refused: no more may be looked at. */
  lemma OtherTryBalance(c: Crypto, s: State, t: State, p: Pid, of: Of, w: nat)
    requires Moves(c, s, t, p) && s.procs[p].Try? && !s.procs[p].pc.Fresh? && t.stored == s.stored && t.log == s.log
    requires of.Moment? ==> w <= s.now
    ensures Balance(s, t, of, w) <= 0
    ensures !s.procs[p].pc.Counting? && (s.procs[p].pc.CountedAt? ==> s.stored.Some?) ==> Balance(s, t, of, w) == 0
  {
    assert Next(c, s, t);
    AddedByStep(c, s, t, of, w);
    PendingMoves(s, t, p, of, w);
    assert of.Moment? ==> forall q :: IsLate(t, q, w) ==> IsLate(s, q, w);
    assert !s.procs[p].pc.Counting? ==> forall q :: IsLate(s, q, w) ==> IsLate(t, q, w);
  }

  lemma ChangeMeets(s: State, p: Pid)
    requires Inv(s) && p in s.procs && s.procs[p].Changing?
    ensures ChangeSound(s, p, s.procs[p])
  {
  }

  /** A change that leaves a factor leaves the count. */
  lemma ChangeBalance(c: Crypto, s: State, t: State, p: Pid, of: Of, w: nat)
    requires Inv(s) && Moves(c, s, t, p) && s.procs[p].Changing? && NoClear(Added(s, t))
    ensures Balance(s, t, of, w) <= 0
    ensures s.stored.None? ==> Balance(s, t, of, w) == 0
  {
    hide Inv;
    var q := s.procs[p];
    ChangeMeets(s, p);
    assert Next(c, s, t);
    AddedByStep(c, s, t, of, w);
    PendingMoves(s, t, p, of, w);
    if t.stored == s.stored && (t.log == s.log || t.log == s.log + [Beaten(p)]) {
      assert forall q :: IsLate(t, q, w) <==> IsLate(s, q, w);
    } else {
      assert !Clears(Added(s, t)[0]);
      NobodyLate(s, t, p, w);
      if q.cpc.read.Some? { ApplySound(q.change, q.cpc.read.value.factor); }
    }
  }

  lemma MoveBalance(c: Crypto, s: State, t: State, p: Pid, of: Of, w: nat)
    requires Inv(s) && Moves(c, s, t, p) && NoClear(Added(s, t)) && (of.Moment? ==> w <= s.now)
    ensures Balance(s, t, of, w) <= 0
  {
    if s.procs[p].Changing? {
      ChangeBalance(c, s, t, p, of, w);
    } else if s.procs[p].pc.Fresh? {
      LookingBalance(c, s, t, p, of, w);
    } else if s.procs[p].pc.Counting? && SetLands(s, s.procs[p].pc.read.version) {
      CountingBalance(c, s, t, p, of, w);
    } else {
      if t.log != s.log { assert Clears(Added(s, t)[0]); }
      OtherTryBalance(c, s, t, p, of, w);
    }
  }

  /** A request begins, or time passes: what waits and what room there is stay. */
  lemma QuietBalance(c: Crypto, s: State, t: State, a: Action, of: Of, w: nat)
    requires Inv(s) && Step(c, s, a) == Some(t) && !a.Move? && !a.Reset?
    ensures Balance(s, t, of, w) <= 0
    ensures of.Moment? ==> t.now < w + LOCK_MS ==> Balance(s, t, of, w) == 0
    ensures of.Stamp? ==> Balance(s, t, of, w) == 0
  {
    hide Inv;
    assert Next(c, s, t);
    AddedByStep(c, s, t, of, w);
    assert Pending(t, of, w) == Pending(s, of, w);
    assert forall q :: IsLate(t, q, w) <==> IsLate(s, q, w);
    RoomIsLeft(s, w);
  }

  lemma ResetClears(c: Crypto, s: State, t: State, p: Pid)
    requires Step(c, s, Reset(p)) == Some(t)
    ensures !NoClear(Added(s, t))
  {
    assert Added(s, t) == [Changed(p, None, None, s.stored, None)];
    assert Clears(Added(s, t)[0]);
  }

  /** One action: what it looks at is taken from what might be. */
  lemma StepBalance(c: Crypto, s: State, t: State, of: Of, w: nat)
    requires Inv(s) && Next(c, s, t) && NoClear(Added(s, t)) && (of.Moment? ==> w <= s.now)
    ensures Balance(s, t, of, w) <= 0
  {
    var a :| Step(c, s, a) == Some(t);
    match a
    case Move(p) => MoveBalance(c, s, t, p, of, w);
    case Reset(q) => ResetClears(c, s, t, q);
    case _ => QuietBalance(c, s, t, a, of, w);
  }

  lemma NextGrows(c: Crypto, s: State, t: State)
    requires Next(c, s, t)
    ensures s.log <= t.log && s.now <= t.now
  {
    NextExtendsLog(c, s, t);
    var a :| Step(c, s, a) == Some(t);
  }

  lemma {:induction false} RunGrows(c: Crypto, run: seq<State>, k: nat)
    requires Path(c, run) && k < |run|
    ensures run[0].log <= run[k].log && run[0].now <= run[k].now
  {
    if k > 0 {
      RunGrows(c, run, k - 1);
      NextGrows(c, run[k - 1], run[(k - 1) + 1]);
    }
  }

  /** However the run goes on. */
  lemma {:induction false} RunBalance(c: Crypto, run: seq<State>, k: nat, of: Of, w: nat)
    requires Path(c, run) && k < |run| && Inv(run[0]) && (of.Moment? ==> w <= run[0].now)
    requires NoClear(Added(run[0], run[k]))
    ensures Inv(run[k]) && Balance(run[0], run[k], of, w) <= 0
  {
    hide Inv, MayLook, Next;
    if k == 0 {
      assert Added(run[0], run[0]) == [];
    } else {
      var s, t, u := run[0], run[k - 1], run[(k - 1) + 1];
      assert Next(c, t, u);
      RunGrows(c, run, k - 1);
      NextGrows(c, t, u);
      AddedAdds(s, t, u, of, w);
      forall e <- Added(s, t) ensures !Clears(e) { assert e in Added(s, u); }
      forall e <- Added(t, u) ensures !Clears(e) { assert e in Added(s, u); }
      RunBalance(c, run, k - 1, of, w);
      NextKeepsInv(c, t, u);
      StepBalance(c, t, u, of, w);
    }
  }

  // ---------------------------------------------------------------------------------------------------------------
  // A run that looks at as many as it may
  // ---------------------------------------------------------------------------------------------------------------

  /** `t` is reached from `s` within the window without a clear, and nothing that might be looked at was lost. */
  ghost predicate Best(c: Crypto, s: State, t: State, of: Of, w: nat) {
    && Leads(c, s, t) && Inv(t) && w <= t.now < w + LOCK_MS
    && s.log <= t.log && NoClear(Added(s, t)) && Balance(s, t, of, w) >= 0
  }

  lemma BestAtOnce(c: Crypto, s: State, of: Of, w: nat)
    requires Inv(s) && w <= s.now < w + LOCK_MS
    ensures Best(c, s, s, of, w)
  {
    LeadsToItself(c, s);
    assert Added(s, s) == [];
  }

  lemma BestOn(c: Crypto, s: State, t: State, a: Action, of: Of, w: nat) returns (u: State)
    requires Best(c, s, t, of, w) && Step(c, t, a).Some? && Step(c, t, a).value.now < w + LOCK_MS
    requires var u := Step(c, t, a).value; NoClear(Added(t, u)) && Balance(t, u, of, w) >= 0
    ensures u == Step(c, t, a).value && Best(c, s, u, of, w)
  {
    hide Inv, MayLook, Step;
    u := Step(c, t, a).value;
    LeadsOn(c, s, t, a);
    assert Next(c, t, u);
    NextGrows(c, t, u);
    AddedAdds(s, t, u, of, w);
    NextKeepsInv(c, t, u);
  }

  /** A request that is late is counted at once. */
  lemma CountLate(c: Crypto, s: State, t: State, of: Of, w: nat) returns (u: State)
    requires Best(c, s, t, of, w)
    ensures Best(c, s, u, of, w) && !Late(u, of, w)
  {
    hide Inv, Balance, MayLook, Leads;
    u := t;
    if Late(t, of, w) {
      var p :| IsLate(t, p, w);
      var next := Step(c, t, Move(p)).value;
      CountingBalance(c, t, next, p, of, w);
      assert Added(t, next) == [Missed(p, t.procs[p].pc.t)];
      NobodyLate(t, next, p, w);
      u := BestOn(c, s, t, Move(p), of, w);
    }
  }

  lemma {:induction false} FreshPid(pids: set<Pid>) returns (p: Pid)
    ensures forall q <- pids :: q < p
  {
    p := 0;
    if pids != {} {
      var q :| q in pids;
      p := FreshPid(pids - {q});
      if p <= q { p := q + 1; }
      assert forall r <- pids :: r == q || r in pids - {q};
    }
  }

  /** Where nothing is stored, a first factor is. */
  lemma Enrol(c: Crypto, s: State, t: State, of: Of, w: nat) returns (u: State)
    requires Best(c, s, t, of, w) && !Late(t, of, w)
    ensures Best(c, s, u, of, w) && !Late(u, of, w) && u.stored.Some?
  {
    u := t;
    if t.stored.None? {
      var v, p := BeginFirst(c, s, t, of, w);
      u := CreateFirst(c, s, v, p, of, w);
    }
  }

  lemma BeginFirst(c: Crypto, s: State, t: State, of: Of, w: nat) returns (u: State, p: Pid)
    requires Best(c, s, t, of, w) && t.stored.None?
    ensures Best(c, s, u, of, w) && u.stored.None? && p in u.procs && u.procs[p].Changing? && u.procs[p].cpc.Writing?
    ensures u.procs[p].cpc.read.None? && u.procs[p].cpc.next.Some?
  {
    hide Inv, Balance, MayLook, Leads;
    p := FreshPid(t.procs.Keys);
    var begin := BeginChange(p, ConfirmPasskey(Passkey("", 0), [""]));
    QuietBalance(c, t, Step(c, t, begin).value, begin, of, w);
    u := BestOn(c, s, t, begin, of, w);
    ChangeBalance(c, u, Step(c, u, Move(p)).value, p, of, w);
    u := BestOn(c, s, u, Move(p), of, w);
  }

  lemma CreateFirst(c: Crypto, s: State, t: State, p: Pid, of: Of, w: nat) returns (u: State)
    requires Best(c, s, t, of, w) && t.stored.None? && p in t.procs && t.procs[p].Changing? && t.procs[p].cpc.Writing?
    requires t.procs[p].cpc.read.None? && t.procs[p].cpc.next.Some?
    ensures Best(c, s, u, of, w) && !Late(u, of, w) && u.stored.Some?
  {
    hide Inv, Balance, MayLook, Leads;
    u := Step(c, t, Move(p)).value;
    assert Added(t, u) == [Changed(p, Some(t.procs[p].change), None, None, u.stored)];
    ChangeBalance(c, t, u, p, of, w);
    NobodyLate(t, u, p, w);
    u := BestOn(c, s, t, Move(p), of, w);
  }

  /** What is counted now counts against the room. */
  ghost predicate Ready(s: State, of: Of, w: nat) {
    s.stored.Some? && !Late(s, of, w) && Recent(s.stored.value.factor, s.now) + Room(s, w) == MAX_MISSES
  }

  /** Misses from before the window are waited out. */
  lemma WaitOut(c: Crypto, s: State, t: State, of: Of, w: nat) returns (u: State)
    requires Best(c, s, t, of, w) && !Late(t, of, w) && t.stored.Some?
    ensures Best(c, s, u, of, w) && Ready(u, of, w)
  {
    hide Balance, MayLook, Leads;
    var last := t.stored.value.factor.lastMissAt;
    u := t;
    if last.Some? && last.value < w && t.now < last.value + LOCK_MS {
      var tick := Tick(last.value + LOCK_MS - t.now);
      QuietBalance(c, t, Step(c, t, tick).value, tick, of, w);
      u := BestOn(c, s, t, tick, of, w);
      assert forall q :: IsLate(u, q, w) <==> IsLate(t, q, w);
    }
  }

  /** The moment at hand is ready still when what is stored stays and nobody becomes late. */
  ghost predicate SameBut(t: State, u: State, p: Pid) {
    && u.stored == t.stored && u.now == t.now && u.log == t.log
    && p in u.procs && u.procs == t.procs[p := u.procs[p]]
  }

  lemma StaysReady(t: State, u: State, p: Pid, of: Of, w: nat)
    requires Ready(t, of, w) && SameBut(t, u, p) && !IsLate(u, p, w)
    ensures Ready(u, of, w) && Room(u, w) == Room(t, w)
  {
    assert forall q :: IsLate(u, q, w) ==> IsLate(t, q, w);
  }

  lemma BeginOne(c: Crypto, s: State, t: State, of: Of, w: nat) returns (u: State, p: Pid)
    requires Best(c, s, t, of, w) && Ready(t, of, w)
    ensures Best(c, s, u, of, w) && Ready(u, of, w) && Room(u, w) == Room(t, w)
    ensures p in u.procs && u.procs[p] == Try(Code(""), true, Unread) && u.now == t.now && u.log == t.log
  {
    hide Inv, Balance, MayLook, Leads;
    p := FreshPid(t.procs.Keys);
    var begin := BeginTry(p, Code(""), true);
    QuietBalance(c, t, Step(c, t, begin).value, begin, of, w);
    u := BestOn(c, s, t, begin, of, w);
    StaysReady(t, u, p, of, w);
  }

  /** A request that reads goes on at the same moment. */
  lemma ReadOn(c: Crypto, s: State, t: State, p: Pid, of: Of, w: nat) returns (u: State)
    requires Best(c, s, t, of, w) && Ready(t, of, w) && p in t.procs && t.procs[p].Try?
    requires var pc := t.procs[p].pc;
             pc.Unread? || pc.CountedAt? || (pc == Have(t.stored.value) && Room(t, w) > 0)
    ensures u == Step(c, t, Move(p)).value && Best(c, s, u, of, w) && Ready(u, of, w) && Room(u, w) == Room(t, w)
    ensures SameBut(t, u, p)
  {
    hide Inv, Balance, MayLook, Leads;
    u := Step(c, t, Move(p)).value;
    OtherTryBalance(c, t, u, p, of, w);
    StaysReady(t, u, p, of, w);
    assert Added(t, u) == [];
    u := BestOn(c, s, t, Move(p), of, w);
  }

  /** One more request reads the factor, finds it unlocked and counts itself, at the moment it is. */
  lemma CountOne(c: Crypto, s: State, t: State, of: Of, w: nat) returns (u: State)
    requires Best(c, s, t, of, w) && Ready(t, of, w) && Room(t, w) > 0
    ensures Best(c, s, u, of, w) && Ready(u, of, w) && Room(u, w) == Room(t, w) - 1
    ensures NoneCounting(u) && u.now == t.now && exists p :: u.log == t.log + [Missed(p, t.now)]
  {
    var v, p := BeginOne(c, s, t, of, w);
    v := ReadOn(c, s, v, p, of, w);
    v := ReadOn(c, s, v, p, of, w);
    u := CountIt(c, s, v, p, of, w);
  }

  lemma CountIt(c: Crypto, s: State, t: State, p: Pid, of: Of, w: nat) returns (u: State)
    requires Best(c, s, t, of, w) && Ready(t, of, w) && Room(t, w) > 0
    requires p in t.procs && t.procs[p].Try? && t.procs[p].pc == Counting(t.stored.value, t.now)
    ensures Best(c, s, u, of, w) && Ready(u, of, w) && Room(u, w) == Room(t, w) - 1
    ensures NoneCounting(u) && u.now == t.now && exists p :: u.log == t.log + [Missed(p, t.now)]
  {
    hide Inv, Balance, MayLook, Leads;
    u := Step(c, t, Move(p)).value;
    CountingBalance(c, t, u, p, of, w);
    assert Added(t, u) == [Missed(p, t.now)];
    NobodyLate(t, u, p, w);
    u := BestOn(c, s, t, Move(p), of, w);
  }

  lemma {:induction false} CountAll(c: Crypto, s: State, t: State, of: Of, w: nat) returns (u: State)
    requires Best(c, s, t, of, w) && Ready(t, of, w)
    ensures Best(c, s, u, of, w) && Ready(u, of, w) && Room(u, w) == 0
    ensures u.now == t.now && t.log <= u.log && Looks(Added(t, u), of, w) == 0
    ensures if Room(t, w) > 0 then NoneCounting(u) else u == t
    decreases Room(t, w)
  {
    hide Inv, Balance, MayLook, Leads, NoneCounting;
    RoomIsLeft(t, w);
    u := t;
    if Room(t, w) > 0 {
      var v := CountOne(c, s, t, of, w);
      var p :| v.log == t.log + [Missed(p, t.now)];
      assert Added(t, v) == [Missed(p, t.now)] && [Missed(p, t.now)][..0] == [];
      u := CountAll(c, s, v, of, w);
      AddedAdds(t, v, u, of, w);
    }
  }

  /** One that waits reads the factor back and is looked at, right or wrong. */
  lemma LookOne(c: Crypto, s: State, t: State, p: Pid, of: Of, w: nat) returns (u: State)
    requires Best(c, s, t, of, w) && Ready(t, of, w) && p in Pending(t, of, w)
    ensures Best(c, s, u, of, w) && Ready(u, of, w) && Room(u, w) == Room(t, w) && u.now == t.now
    ensures Pending(u, of, w) == Pending(t, of, w) - {p}
  {
    hide Inv, Balance, MayLook, Leads;
    u := t;
    if t.procs[p].pc.CountedAt? {
      u := ReadOn(c, s, t, p, of, w);
      assert Pending(u, of, w) == Pending(t, of, w);
    }
    u := LookAtIt(c, s, u, p, of, w);
  }

  lemma LookAtIt(c: Crypto, s: State, t: State, p: Pid, of: Of, w: nat) returns (u: State)
    requires Best(c, s, t, of, w) && Ready(t, of, w) && p in t.procs && t.procs[p].Try? && t.procs[p].pc.Fresh?
    ensures Best(c, s, u, of, w) && Ready(u, of, w) && Room(u, w) == Room(t, w) && u.now == t.now
    ensures Pending(u, of, w) == Pending(t, of, w) - {p}
  {
    hide Inv, Balance, MayLook, Leads;
    u := Step(c, t, Move(p)).value;
    LookingBalance(c, t, u, p, of, w);
    assert Added(t, u) == [Looked(p, t.procs[p].pc.t, t.now)];
    assert forall q :: IsLate(u, q, w) <==> IsLate(t, q, w);
    u := BestOn(c, s, t, Move(p), of, w);
  }

  lemma {:induction false} LookAll(c: Crypto, s: State, t: State, of: Of, w: nat) returns (u: State)
    requires Best(c, s, t, of, w) && Ready(t, of, w)
    ensures Best(c, s, u, of, w) && Ready(u, of, w) && Room(u, w) == Room(t, w) && u.now == t.now
    ensures Pending(u, of, w) == {}
    decreases |Pending(t, of, w)|
  {
    u := t;
    hide Inv, Balance, MayLook, Leads;
    if Pending(t, of, w) != {} {
      var p :| p in Pending(t, of, w);
      u := LookOne(c, s, t, p, of, w);
      u := LookAll(c, s, u, of, w);
    }
  }

  lemma AsManyAsMay(c: Crypto, s: State, of: Of, w: nat) returns (u: State)
    requires Inv(s) && w <= s.now < w + LOCK_MS
    ensures Leads(c, s, u) && NoClear(Added(s, u)) && Looks(Added(s, u), of, w) >= MayLook(s, of, w)
  {
    BestAtOnce(c, s, of, w);
    u := CountLate(c, s, s, of, w);
    u := Enrol(c, s, u, of, w);
    u := WaitOut(c, s, u, of, w);
    u := CountAll(c, s, u, of, w);
    u := LookAll(c, s, u, of, w);
  }

  // ---------------------------------------------------------------------------------------------------------------
  // The limit
  // ---------------------------------------------------------------------------------------------------------------

  /** However the run goes on without a clear, the window sees at most the limit of proofs looked at. */
  ghost predicate Limited(c: Crypto, s: State, of: Of, w: nat) {
    forall t :: Leads(c, s, t) && NoClear(Added(s, t)) ==> Looks(Added(s, t), of, w) <= MAX_MISSES
  }

  /** In no continuation without a clear are more looked at than may be, whatever the window of stamps. */
  lemma NeverMoreThanMay(c: Crypto, s: State, t: State, of: Of, w: nat)
    requires Inv(s) && Leads(c, s, t) && NoClear(Added(s, t)) && (of.Moment? ==> w <= s.now)
    ensures Looks(Added(s, t), of, w) <= MayLook(s, of, w)
  {
    var run :| Path(c, run) && run[0] == s && run[|run| - 1] == t;
    RunBalance(c, run, |run| - 1, of, w);
    RoomIsLeft(t, w);
  }

  lemma {:induction false} SubsetSize(x: set<Pid>, y: set<Pid>)
    requires x <= y
    ensures |x| <= |y|
  {
    if x != {} {
      var p :| p in x;
      SubsetSize(x - {p}, y - {p});
    }
  }

  lemma ReachedInv(c: Crypto, s: State)
    requires Leads(c, INIT, s)
    ensures Inv(s)
  {
    var run :| Path(c, run) && run[0] == INIT && run[|run| - 1] == s;
    TraceInv(c, run, |run| - 1);
  }

  /**
   * From any reachable state within the window: the limit is kept over every way to go on exactly when those that
   * wait to be looked at, the room the count leaves, and a late request, are at most the limit together.
   * (A window that begins later is asked about in the state it begins in: before that it sees nothing.)
   */
  lemma LimitedExactly(c: Crypto, s: State, of: Of, w: nat)
    requires Leads(c, INIT, s) && w <= s.now < w + LOCK_MS
    ensures Limited(c, s, of, w)
       <==> |Pending(s, of, w)| + Room(s, w) + (if Late(s, of, w) then 1 else 0) <= MAX_MISSES
  {
    ReachedInv(c, s);
    if MayLook(s, of, w) <= MAX_MISSES {
      forall t | Leads(c, s, t) && NoClear(Added(s, t)) ensures Looks(Added(s, t), of, w) <= MAX_MISSES {
        NeverMoreThanMay(c, s, t, of, w);
      }
    } else {
      var u := AsManyAsMay(c, s, of, w);
    }
  }

  // ---------------------------------------------------------------------------------------------------------------
  // Two runs past the limit
  // ---------------------------------------------------------------------------------------------------------------

  lemma Go(c: Crypto, s: State, a: Action) returns (t: State)
    requires Leads(c, INIT, s) && Step(c, s, a).Some?
    ensures t == Step(c, s, a).value && Leads(c, INIT, t)
  {
    LeadsOn(c, INIT, s, a);
    t := Step(c, s, a).value;
  }

  /** An account with one passkey, just enrolled. */
  lemma Enrolled(c: Crypto) returns (s: State)
    ensures Leads(c, INIT, s) && s.now == 0 && s.procs.Keys == {0} && s.procs[0].Changing?
    ensures s.stored.Some? && s.stored.value.factor == Factor(None, -1, [Passkey("k", 0)], ["h"], 0, None)
  {
    LeadsToItself(c, INIT);
    s := Go(c, INIT, BeginChange(0, ConfirmPasskey(Passkey("k", 0), ["h"])));
    s := Go(c, s, Move(0));
    s := Go(c, s, Move(0));
  }

  /** A request reads the factor, finds it unlocked and counts itself. */
  lemma Counts(c: Crypto, s: State, p: Pid, proof: Proof) returns (t: State)
    requires Leads(c, INIT, s) && p !in s.procs && s.stored.Some?
    requires Recent(s.stored.value.factor, s.now) < MAX_MISSES
    ensures Leads(c, INIT, t) && t.now == s.now && t.stored.Some?
    ensures t.stored.value.factor == WithMiss(s.stored.value.factor, s.now)
    ensures t.procs == s.procs[p := Try(proof, true, CountedAt(s.now))]
  {
    t := Go(c, s, BeginTry(p, proof, true));
    t := Go(c, t, Move(p));
    t := Go(c, t, Move(p));
    t := Go(c, t, Move(p));
  }

  /**
   * One request counts itself, a second is accepted, and the first is looked at only then: with the ten that may
   * follow, more than the limit are looked at in one window after the acceptance.
   */
  lemma ElevenLooks(c: Crypto) returns (s: State, t: State)
    ensures Leads(c, INIT, s) && s.log != [] && s.log[|s.log| - 1].Accepted?
    ensures Leads(c, s, t) && NoClear(Added(s, t)) && Looks(Added(s, t), Stamp, 0) == MAX_MISSES + 1
  {
    hide Inv, Leads;
    s := Enrolled(c);
    s := Counts(c, s, 1, Key("", 0, false));
    s := Counts(c, s, 2, Key("k", 0, true));
    s := Go(c, s, Move(2));
    assert WithoutMisses(s.stored.value.factor).passkeys[0].id == "k";
    s := Go(c, s, Move(2));
    s := Go(c, s, Move(2));
    assert Pending(s, Stamp, 0) == {1};
    ReachedInv(c, s);
    t := AsManyAsMay(c, s, Stamp, 0);
    NeverMoreThanMay(c, s, t, Stamp, 0);
  }

  /** Ten requests count themselves, and wait while the lock runs out. */
  lemma TenWait(c: Crypto, s: State) returns (t: State)
    requires Leads(c, INIT, s) && s.now == 0 && s.procs.Keys == {0} && s.procs[0].Changing?
    requires s.stored.Some? && s.stored.value.factor.lastMissAt.None?
    ensures Leads(c, s, t) && s.log <= t.log && NoClear(Added(s, t)) && t.now == LOCK_MS
    ensures |Pending(t, Moment, LOCK_MS)| >= MAX_MISSES && NoneCounting(t) && t.stored.Some?
    ensures Recent(t.stored.value.factor, LOCK_MS) == 0 && Room(t, LOCK_MS) == MAX_MISSES
  {
    hide Leads;
    ReachedInv(c, s);
    BestAtOnce(c, s, Stamp, 0);
    assert Pending(s, Stamp, 0) == {} && Added(s, s) == [];
    var u := CountAll(c, s, s, Stamp, 0);
    t := Step(c, u, Tick(LOCK_MS)).value;
    LeadsOn(c, s, u, Tick(LOCK_MS));
    assert Pending(u, Stamp, 0) <= Pending(t, Moment, LOCK_MS);
    SubsetSize(Pending(u, Stamp, 0), Pending(t, Moment, LOCK_MS));
  }

  /**
   * Ten requests count themselves, the lock runs out, ten more do, and all twenty are looked at at that moment. In
   * each window of stamps there are ten, but not in that of moments; nothing was accepted or removed meanwhile.
   */
  lemma TwentyAtOnce(c: Crypto) returns (s: State, t: State)
    ensures Leads(c, INIT, s) && s.stored.Some? && (forall q <- s.procs :: !s.procs[q].Try?)
    ensures Leads(c, s, t) && NoClear(Added(s, t)) && t.now == LOCK_MS
    ensures Looks(Added(s, t), Moment, LOCK_MS) >= 2 * MAX_MISSES
  {
    hide Inv, Leads, Step;
    s := Enrolled(c);
    var v := TenWait(c, s);
    LeadsThrough(c, INIT, s, v);
    ReachedInv(c, v);
    t := AllAtOnce(c, v);
    LeadsThrough(c, s, v, t);
    AddedAdds(s, v, t, Moment, LOCK_MS);
  }

  lemma AllAtOnce(c: Crypto, s: State) returns (t: State)
    requires Inv(s) && s.now == LOCK_MS && |Pending(s, Moment, LOCK_MS)| >= MAX_MISSES && NoneCounting(s)
    requires s.stored.Some? && Recent(s.stored.value.factor, LOCK_MS) == 0 && Room(s, LOCK_MS) == MAX_MISSES
    ensures Leads(c, s, t) && s.log <= t.log && NoClear(Added(s, t)) && t.now == LOCK_MS
    ensures Looks(Added(s, t), Moment, LOCK_MS) >= 2 * MAX_MISSES
  {
    hide Inv, Leads;
    BestAtOnce(c, s, Moment, LOCK_MS);
    assert forall q :: !IsLate(s, q, LOCK_MS);
    t := CountAll(c, s, s, Moment, LOCK_MS);
    t := LookAll(c, s, t, Moment, LOCK_MS);
  }
}
