/**
 * What the calls of the Redis store answer: when a call may decline, which list it gives back, and when it may say that
 * the store is busy, over every interleaving.
 */
module RedisAnswers {
  import opened Wrappers
  import opened SavedItems
  import opened RedisItems

  // ---------------------------------------------------------------------------------------------------------------
  // The rules
  // ---------------------------------------------------------------------------------------------------------------

  ghost predicate FirstWith(list: seq<Item>, fits: Item -> bool, x: Option<Item>) {
    if x.None? then forall y <- list :: !fits(y)
    else exists i :: 0 <= i < |list| && list[i] == x.value && fits(x.value) && forall j :: 0 <= j < i ==> !fits(list[j])
  }

  /** The item a call is about, in a list it read. */
  ghost predicate IsCurrent(op: Op, list: seq<Item>, x: Option<Item>) {
    FirstWith(list, if op.Write? then (y: Item) => y.name == op.name else (y: Item) => y.id == op.id, x)
  }

  /** On this list there is nothing to do: `change` gives no body, or the row is missing or not one to remove. */
  ghost predicate Declines(op: Op, list: seq<Item>) {
    exists x :: IsCurrent(op, list, x) && if op.Write? then op.change(x, list).None? else x.None? || !op.when(x.value)
  }

  /** What is given back: the rows after the call, at most as many as the cap; or where nothing was to do, those read. */
  ghost predicate IsAnswer(c: Config, call: Call, list: seq<Item>) {
    if call.op.Remove? then list == call.after
    else if call.decision.Declined? then list == call.judged
    else list <= call.after && |list| == if |call.after| > c.limit then c.limit else |call.after|
  }

  // ---------------------------------------------------------------------------------------------------------------
  // Each call keeps them
  // ---------------------------------------------------------------------------------------------------------------

  ghost predicate DecisionFits(call: Call) {
    && (call.decision.Declined? ==> Declines(call.op, call.judged))
    && (call.decision.Chosen? ==> !Declines(call.op, call.judged))
  }

  ghost predicate CallFits(c: Config, call: Call) {
    && DecisionFits(call)
    && match call.pc
       case Locking(_) => call.decision.Undecided? && call.refused == call.round < LOCK_ROUNDS
       case First(_) => call.decision.Undecided? && call.refused == call.round < LOCK_ROUNDS
       case Judged(body, _) => call.decision.Chosen? && Writes(call.op, call.judged, body) && call.op.update && call.refused == call.round < LOCK_ROUNDS
       case Storing(body, mine, _) =>
         call.decision.Chosen? && Writes(call.op, call.judged, body) && (!call.op.update ==> mine == call.judged) && call.refused == call.round < LOCK_ROUNDS
       case Dropping => call.op.Remove? && call.decision.Chosen? && call.refused == call.round < LOCK_ROUNDS
       case Second(_) => !call.decision.Undecided? && (call.op.Write? ==> call.decision.Chosen?)
       case Trimming(after) => call.op.Write? && call.decision.Chosen? && after == call.after && |after| > c.limit
       case Unlocking(Return(list)) => !call.decision.Undecided? && IsAnswer(c, call, list)
       case Unlocking(Retry) => call.refused == call.round + 1 <= LOCK_ROUNDS
       case Done(list) => !call.decision.Undecided? && IsAnswer(c, call, list)
       case Busy => true
  }

  ghost predicate Writes(op: Op, list: seq<Item>, body: string) {
    op.Write? && exists x :: IsCurrent(op, list, x) && op.change(x, list) == Some(body)
  }

  lemma {:induction false} NamedIsFirst(list: seq<Item>, name: string)
    ensures FirstWith(list, (y: Item) => y.name == name, Named(list, name))
  {
    if list != [] && list[0].name != name {
      NamedIsFirst(list[1..], name);
      FirstOn(list, (y: Item) => y.name == name, Named(list[1..], name));
    }
  }

  lemma {:induction false} WithIdIsFirst(list: seq<Item>, id: Id)
    ensures FirstWith(list, (y: Item) => y.id == id, WithId(list, id))
  {
    if list != [] && list[0].id != id {
      WithIdIsFirst(list[1..], id);
      FirstOn(list, (y: Item) => y.id == id, WithId(list[1..], id));
    }
  }

  lemma FirstOn(list: seq<Item>, fits: Item -> bool, x: Option<Item>)
    requires list != [] && !fits(list[0]) && FirstWith(list[1..], fits, x)
    ensures FirstWith(list, fits, x)
  {
    if x.None? {
      forall y <- list ensures !fits(y) { if y != list[0] { assert y in list[1..]; } }
    } else {
      var i :| 0 <= i < |list[1..]| && list[1..][i] == x.value && fits(x.value) && forall j :: 0 <= j < i ==> !fits(list[1..][j]);
      assert list[i + 1] == x.value;
      forall j | 0 <= j < i + 1 ensures !fits(list[j]) { if j > 0 { assert list[j] == list[1..][j - 1]; } }
    }
  }

  lemma FirstIsOne(list: seq<Item>, fits: Item -> bool, x: Option<Item>, y: Option<Item>)
    requires FirstWith(list, fits, x) && FirstWith(list, fits, y)
    ensures x == y
  {
    if x.Some? && y.Some? {
      var i :| 0 <= i < |list| && list[i] == x.value && fits(x.value) && forall j :: 0 <= j < i ==> !fits(list[j]);
      var k :| 0 <= k < |list| && list[k] == y.value && fits(y.value) && forall j :: 0 <= j < k ==> !fits(list[j]);
      assert i == k;
    }
  }

  /** The decision follows the rule, both ways. */
  lemma DecidedFits(c: Config, call: Call, sorted: seq<Item>, at: int)
    requires CallFits(c, call) && call.pc.First?
    ensures var next := Decided(call, sorted, at);
            && CallFits(c, next) && next.judged == sorted && !next.decision.Undecided?
            && next == call.(pc := next.pc, decision := next.decision, judged := sorted)
  {
    var current := if call.op.Write? then Named(sorted, call.op.name) else WithId(sorted, call.op.id);
    if call.op.Write? { NamedIsFirst(sorted, call.op.name); } else { WithIdIsFirst(sorted, call.op.id); }
    assert IsCurrent(call.op, sorted, current);
    forall x | IsCurrent(call.op, sorted, x) ensures x == current {
      FirstIsOne(sorted, if call.op.Write? then (y: Item) => y.name == call.op.name else (y: Item) => y.id == call.op.id,
                 x, current);
    }
    hide FirstWith, IsCurrent;
  }

  lemma FinishedFits(c: Config, call: Call, sorted: seq<Item>)
    requires CallFits(c, call) && call.pc.Second?
    ensures CallFits(c, Finished(c, call, sorted))
  {
    hide Declines, Writes;
  }

  lemma AnsweredFits(c: Config, p: Pid, call: Call, landed: bool)
    requires CallFits(c, call) && Intent(c, p, call).Some?
    ensures CallFits(c, Answered(c, call, landed))
  {
    hide Declines;
  }

  lemma LocksFit(c: Config, s: State, call: Call)
    requires CallFits(c, call)
    ensures call.pc.Locking? ==> CallFits(c, Locked(s, call).1)
    ensures call.pc.Unlocking? ==> CallFits(c, Unlocked(s, call, call.pc.outcome).1)
  {
    hide Declines;
  }

  lemma ReadFits(c: Config, s: State, call: Call, e: Event)
    requires CallFits(c, call) && ListStep(s, call, e).Some?
    ensures CallFits(c, ListStep(s, call, e).value.1)
  {
    hide Declines, Writes, ReadStep;
  }

  lemma ActFits(c: Config, s: State, p: Pid, call: Call, e: Event)
    requires CallFits(c, call) && ActStep(c, s, p, call, e).Some?
    ensures CallFits(c, ActStep(c, s, p, call, e).value.1) && ActStep(c, s, p, call, e).value.0.calls == s.calls
  {
    if e.Decide? && call.pc.First? { DecidedFits(c, call, e.sorted, e.at); }
    else if e.Decide? && call.pc.Judged? { SecondListFits(c, call, e.sorted, e.at); }
    else if e.Finish? { FinishedFits(c, call, e.sorted); }
    else if e.TryLock? || e.Unlock? { LocksFit(c, s, call); }
    else if e.FencedWrite? { AnsweredFits(c, p, call, HasLock(s.redis, call.op.kind, call.token)); }
    else { ReadFits(c, s, call, e); }
    hide CallFits, Decided, Finished, Answered, Fenced, Intent, ReadStep, IsSorting;
  }

  lemma SecondListFits(c: Config, call: Call, sorted: seq<Item>, at: int)
    requires CallFits(c, call) && call.pc.Judged?
    ensures CallFits(c, call.(pc := Storing(call.pc.body, sorted, at)))
  {
    hide Declines;
  }

  ghost predicate Fits(c: Config, s: State) {
    forall p <- s.calls :: CallFits(c, s.calls[p])
  }

  lemma NextFits(c: Config, s: State, t: State)
    requires Fits(c, s) && Next(c, s, t)
    ensures Fits(c, t)
  {
    var a :| Step(c, s, a) == Some(t);
    match a
    case Begin(p, op) =>
    case Act(p, e) =>
      ActFits(c, s, p, s.calls[p], e);
      hide CallFits, ActStep;
    case Expire(_) =>
  }

  lemma {:induction false} TraceFits(c: Config, tr: seq<State>, i: nat)
    requires IsTrace(c, tr) && i < |tr|
    ensures Fits(c, tr[i])
  {
    if i > 0 {
      hide Next;
      TraceFits(c, tr, i - 1);
      assert Next(c, tr[i - 1], tr[(i - 1) + 1]);
      NextFits(c, tr[i - 1], tr[i]);
    }
  }

  // ---------------------------------------------------------------------------------------------------------------
  // What was read
  // ---------------------------------------------------------------------------------------------------------------

  /** The call has read this list to its end, before its write or after it; what it then has, with the lock held, is
      what is stored. */
  ghost predicate HasRead(s: State, p: Pid, token: Token, again: bool, list: seq<Item>) {
    && p in s.calls && s.calls[p].token == token
    && exists out ::
         && s.calls[p].pc == (if again then Second(Reading([], out, None)) else First(Reading([], out, None)))
         && IsSorting(out, list)
         && (HasLock(s.redis, s.calls[p].op.kind, token) ==> IsListing(Opened(s.redis), s.calls[p].op.kind, list))
  }

  ghost predicate HadRead(tr: seq<State>, i: nat, p: Pid, token: Token, again: bool, list: seq<Item>)
    requires i < |tr|
  {
    exists j :: 0 <= j < i && HasRead(tr[j], p, token, again, list)
  }

  ghost predicate ReadsBehind(tr: seq<State>, i: nat, p: Pid)
    requires i < |tr| && p in tr[i].calls
  {
    var call := tr[i].calls[p];
    && (!call.decision.Undecided? ==> HadRead(tr, i, p, call.token, false, call.judged))
    && (IsOver(call) ==> HadRead(tr, i, p, call.token, true, call.after))
  }

  /** The call is past the list after its write, where it makes one. */
  predicate IsOver(call: Call) {
    && (call.op.Remove? || call.decision.Chosen?)
    && (call.pc.Trimming? || call.pc.Done? || (call.pc.Unlocking? && call.pc.outcome.Return?))
  }

  /** One action: a decision made, or a list finished, is one on a list just read. */
  lemma ActReads(c: Config, m: Items, s: State, p: Pid, e: Event)
    requires Inv(c, m, s) && Fits(c, s) && p in s.calls && ActStep(c, s, p, s.calls[p], e).Some?
    ensures var call, next := s.calls[p], ActStep(c, s, p, s.calls[p], e).value.1;
            && (!next.decision.Undecided? ==>
                  || HasRead(s, p, next.token, false, next.judged)
                  || (!call.decision.Undecided? && next.token == call.token && next.judged == call.judged))
            && (IsOver(next) ==>
                  || HasRead(s, p, next.token, true, next.after)
                  || (IsOver(call) && next.token == call.token && next.after == call.after))
  {
    if e.Decide? && s.calls[p].pc.First? { DecideReads(c, m, s, p, e.sorted, e.at); }
    else if e.Finish? { FinishReads(c, m, s, p, e.sorted); }
    else { OthersRead(c, m, s, p, e); }
  }

  lemma ReadSoFarOf(c: Config, r: Redis, call: Call)
    requires CallSound(c, r, call) && (call.pc.First? || call.pc.Second?)
    ensures HasLock(r, call.op.kind, call.token) ==> ReadSoFar(r, call.op.kind, call.pc.reading)
  {
    hide ReadSoFar;
  }

  lemma ListRead(c: Config, m: Items, s: State, p: Pid, out: seq<Item>, sorted: seq<Item>)
    requires Inv(c, m, s) && p in s.calls && (s.calls[p].pc.First? || s.calls[p].pc.Second?)
    requires s.calls[p].pc.reading == Reading([], out, None) && IsSorting(out, sorted)
    ensures HasRead(s, p, s.calls[p].token, s.calls[p].pc.Second?, sorted)
  {
    var call := s.calls[p];
    CallIsSound(c, m, s, p);
    ReadSoFarOf(c, s.redis, call);
    hide Inv, IsListing, IsSorting, ReadSoFar, CallSound;
    if HasLock(s.redis, call.op.kind, call.token) { ReadIsListing(s.redis, call.op.kind, out, sorted); }
  }

  lemma DecideReads(c: Config, m: Items, s: State, p: Pid, sorted: seq<Item>, at: int)
    requires Inv(c, m, s) && p in s.calls && s.calls[p].pc.First?
    requires ActStep(c, s, p, s.calls[p], Decide(sorted, at)).Some?
    ensures HasRead(s, p, s.calls[p].token, false, sorted)
    ensures ActStep(c, s, p, s.calls[p], Decide(sorted, at)).value.1 == Decided(s.calls[p], sorted, at)
    ensures Decided(s.calls[p], sorted, at).judged == sorted && Decided(s.calls[p], sorted, at).token == s.calls[p].token
    ensures !IsOver(Decided(s.calls[p], sorted, at))
  {
    hide Inv, IsSorting, HasRead;
    ListRead(c, m, s, p, s.calls[p].pc.reading.out, sorted);
  }

  lemma FinishReads(c: Config, m: Items, s: State, p: Pid, sorted: seq<Item>)
    requires Inv(c, m, s) && p in s.calls && ActStep(c, s, p, s.calls[p], Finish(sorted)).Some?
    ensures HasRead(s, p, s.calls[p].token, true, sorted)
    ensures var next := ActStep(c, s, p, s.calls[p], Finish(sorted)).value.1;
            next.after == sorted && next == s.calls[p].(pc := next.pc, after := sorted)
  {
    hide Inv, IsSorting, HasRead;
    ListRead(c, m, s, p, s.calls[p].pc.reading.out, sorted);
  }

  lemma OthersRead(c: Config, m: Items, s: State, p: Pid, e: Event)
    requires Fits(c, s) && p in s.calls && ActStep(c, s, p, s.calls[p], e).Some?
    requires !(e.Decide? && s.calls[p].pc.First?) && !e.Finish?
    ensures var call, next := s.calls[p], ActStep(c, s, p, s.calls[p], e).value.1;
            && (!next.decision.Undecided? ==>
                  !call.decision.Undecided? && next.token == call.token && next.judged == call.judged)
            && (IsOver(next) ==> IsOver(call) && next.token == call.token && next.after == call.after)
  {
    assert CallFits(c, s.calls[p]);
    hide Declines, Writes, IsAnswer, Fits, ReadStep, IsSorting;
  }

  lemma HadReadOn(tr: seq<State>, i: nat, p: Pid, token: Token, again: bool, list: seq<Item>)
    requires 0 < i < |tr| && (HadRead(tr, i - 1, p, token, again, list) || HasRead(tr[i - 1], p, token, again, list))
    ensures HadRead(tr, i, p, token, again, list)
  {
  }

  lemma {:induction false} TraceReads(c: Config, tr: seq<State>, i: nat, p: Pid)
    requires IsTrace(c, tr) && Collisionless(c) && i < |tr| && p in tr[i].calls
    ensures ReadsBehind(tr, i, p)
  {
    hide Inv, Fits, HasRead, HadRead;
    if i > 0 {
      var s, t := tr[i - 1], tr[(i - 1) + 1];
      assert Next(c, s, t);
      TraceInv(c, tr, i - 1);
      TraceFits(c, tr, i - 1);
      var a :| Step(c, s, a) == Some(t);
      if p in s.calls {
        TraceReads(c, tr, i - 1, p);
        if a.Act? && a.p == p { ActReads(c, Opened(tr[0].redis), s, p, a.e); }
        hide Step, ActStep;
        var call := t.calls[p];
        if !call.decision.Undecided? { HadReadOn(tr, i, p, call.token, false, call.judged); }
        if IsOver(call) { HadReadOn(tr, i, p, call.token, true, call.after); }
      }
    }
  }

  // ---------------------------------------------------------------------------------------------------------------
  // The theorems
  // ---------------------------------------------------------------------------------------------------------------

  /** A call declines on exactly the lists on which there is nothing to do, and on one it read under its own token. */
  lemma DeclinesExactly(c: Config, tr: seq<State>, i: nat, p: Pid)
    requires IsTrace(c, tr) && Collisionless(c) && i < |tr| && p in tr[i].calls
    ensures var call := tr[i].calls[p];
            && (call.pc.Done? ==> !call.decision.Undecided?)
            && (!call.decision.Undecided? ==>
                  && (call.decision.Declined? <==> Declines(call.op, call.judged))
                  && HadRead(tr, i, p, call.token, false, call.judged))
  {
    hide HadRead, Declines, Inv;
    TraceFits(c, tr, i);
    TraceReads(c, tr, i, p);
    assert CallFits(c, tr[i].calls[p]);
  }

  /** A save, whose change always gives a body, never declines: once it returns, it has been written. */
  lemma SavesNeverDecline(c: Config, tr: seq<State>, i: nat, p: Pid)
    requires IsTrace(c, tr) && Collisionless(c) && i < |tr| && p in tr[i].calls && tr[i].calls[p].op.Write?
    requires forall x, list :: tr[i].calls[p].op.change(x, list).Some?
    ensures !tr[i].calls[p].decision.Declined?
    ensures tr[i].calls[p].pc.Done? ==> Landings(tr[i].log, p) == 1
  {
    hide IsCurrent, HadRead;
    DeclinesExactly(c, tr, i, p);
    AppliedExactlyOnce(c, tr, i, p);
  }

  /** A call that returned gives back the list it read last under its token, at most as long as the cap; an update with
      nothing to do the one it judged. */
  lemma AnswersWithWhatItRead(c: Config, tr: seq<State>, i: nat, p: Pid)
    requires IsTrace(c, tr) && Collisionless(c) && i < |tr| && p in tr[i].calls && tr[i].calls[p].pc.Done?
    ensures var call := tr[i].calls[p];
            && IsAnswer(c, call, call.pc.list)
            && (if call.op.Write? && call.decision.Declined? then HadRead(tr, i, p, call.token, false, call.judged)
                else HadRead(tr, i, p, call.token, true, call.after))
  {
    hide HadRead, Declines, Inv;
    TraceFits(c, tr, i);
    TraceReads(c, tr, i, p);
    assert CallFits(c, tr[i].calls[p]);
  }

  /** The write of a call is refused exactly where its lock is no longer its own. */
  lemma RefusedExactlyWhereLost(c: Config, s: State, p: Pid)
    requires p in s.calls && Intent(c, p, s.calls[p]).Some? && !s.calls[p].pc.Trimming?
    ensures var call := s.calls[p];
            && ActStep(c, s, p, call, FencedWrite).Some?
            && var (t, next) := ActStep(c, s, p, call, FencedWrite).value;
               if HasLock(s.redis, call.op.kind, call.token)
               then next.applied == call.applied + 1 && next.refused == call.refused && t.log == s.log + [t.log[|s.log|]]
               else next.pc == Unlocking(Retry) && next.refused == call.refused + 1 && t == s
  {
    FencedStep(c, s, p, s.calls[p]);
    hide ActStep, Fenced;
  }

  /** An update comes to write only from a list it read again to its end; every other call from the one it judged. */
  lemma UpdatesReadAgain(c: Config, s: State, p: Pid, e: Event)
    requires Fits(c, s) && p in s.calls && ActStep(c, s, p, s.calls[p], e).Some?
    requires !s.calls[p].pc.Storing? && ActStep(c, s, p, s.calls[p], e).value.1.pc.Storing?
    ensures var call, next := s.calls[p], ActStep(c, s, p, s.calls[p], e).value.1;
            && (call.pc.Judged? <==> call.op.update) && (call.pc.First? <==> !call.op.update)
            && var reading := call.pc.reading;
               && reading.Reading? && reading.todo == [] && IsSorting(reading.out, next.pc.mine)
  {
    assert CallFits(c, s.calls[p]);
  }

  /** A call that gives its lock up no longer has it, and takes nobody else's. */
  lemma ReleasesItsOwn(s: State, call: Call, outcome: Outcome)
    ensures var t := Unlocked(s, call, outcome).0;
            && !HasLock(t.redis, call.op.kind, call.token)
            && (forall k, token :: HasLock(t.redis, k, token) ==> HasLock(s.redis, k, token))
            && (forall k, token :: HasLock(s.redis, k, token) && (k != call.op.kind || token != call.token) ==>
                  HasLock(t.redis, k, token))
  {
  }

  /** The two parts of a listing. */
  lemma CutListing(after: seq<Item>, n: nat)
    requires n <= |after| && Distinct(after) && NewestFirst(after)
    ensures var kept, gone := after[..n], after[n..];
            && (forall x <- kept :: x.id !in Ids(gone)) && (forall x <- after :: x in kept || x in gone)
            && (forall x <- gone, y <- kept :: x.at <= y.at) && Distinct(kept) && NewestFirst(kept)
  {
    var kept, gone := after[..n], after[n..];
    assert after == kept + gone;
    forall x <- gone, y <- kept ensures x.id != y.id && x.at <= y.at {
      var k :| 0 <= k < |gone| && gone[k] == x;
      var i :| 0 <= i < |kept| && kept[i] == y;
      assert after[i] == y && after[n + k] == x;
    }
  }

  /** What a trim leaves of a kind: the rows at the head of the listing, as many as the cap allows. */
  lemma TrimLeaves(c: Config, m: Items, kind: Kind, after: seq<Item>)
    requires WellKeyed(m) && IsListing(m, kind, after) && |after| > c.limit
    ensures IsListing(m - Excess(c, after), kind, after[..c.limit])
  {
    CutListing(after, c.limit);
    hide Distinct, NewestFirst;
    var n, kept, gone := m - Excess(c, after), after[..c.limit], after[c.limit..];
    forall i | 0 <= i < |kept| ensures kept[i].id in n && n[kept[i].id] == kept[i] && kept[i].kind == kind {
      assert kept[i] in kept && kept[i] == after[i];
    }
    assert forall x <- gone :: x.id in Ids(gone);
    forall id <- n | n[id].kind == kind ensures n[id] in kept {
      assert m[id] in after;
    }
  }

  /** A trim leaves as many rows of the kind as the cap allows, none older than one it takes, and all other kinds. */
  lemma TrimTakesTheOldest(c: Config, m: Items, kind: Kind, after: seq<Item>)
    requires WellKeyed(m) && IsListing(m, kind, after) && |after| > c.limit
    ensures var n := m - Excess(c, after);
            && (forall id <- m :: m[id].kind != kind ==> id in n) && |KindIds(n, kind)| == c.limit
            && (forall id <- m, x <- n :: m[id].kind == kind && n[x].kind == kind && id !in n ==> m[id].at <= n[x].at)
  {
    var n, kept, gone := m - Excess(c, after), after[..c.limit], after[c.limit..];
    TrimLeaves(c, m, kind, after);
    ListingIds(n, kind, kept);
    CutListing(after, c.limit);
    hide Distinct, NewestFirst, KindIds;
    forall id <- m | m[id].kind != kind ensures id in n {
      assert forall x <- gone :: x in after;
      assert forall x <- after :: m[x.id] == x && x.kind == kind;
    }
    forall id <- m, x <- n | m[id].kind == kind && n[x].kind == kind && id !in n ensures m[id].at <= n[x].at {
      assert m[id] in after && n[x] in kept;
      assert m[id] in kept ==> id in n;
    }
  }

  /** The lock was somebody's the last of the times it was tried for. */
  ghost predicate LockedOut(s: State, p: Pid) {
    p in s.calls && s.calls[p].pc == Locking(LOCK_TRIES) && s.calls[p].op.kind in s.redis.locks
  }

  lemma ActGivesUp(c: Config, s: State, p: Pid, e: Event)
    requires Fits(c, s) && p in s.calls && ActStep(c, s, p, s.calls[p], e).Some? && LocksTried(s.calls[p])
    ensures var next := ActStep(c, s, p, s.calls[p], e).value.1;
            && LocksTried(next)
            && (next.pc.Busy? ==> LockedOut(s, p) || next.refused == LOCK_ROUNDS || s.calls[p].pc.Busy?)
  {
    assert CallFits(c, s.calls[p]);
    hide DecisionFits, Fits, IsAnswer, IsSorting, ReadStep, Fenced;
  }

  predicate LocksTried(call: Call) {
    call.pc.Locking? ==> call.pc.attempt <= LOCK_TRIES
  }

  lemma NextGivesUp(c: Config, s: State, t: State, p: Pid)
    requires Fits(c, s) && Next(c, s, t) && p in t.calls && (p in s.calls ==> LocksTried(s.calls[p]))
    ensures LocksTried(t.calls[p])
    ensures t.calls[p].pc.Busy? ==>
              p in s.calls && (LockedOut(s, p) || t.calls[p].refused == LOCK_ROUNDS || t.calls[p] == s.calls[p])
  {
    hide Fits, LockedOut;
    var a :| Step(c, s, a) == Some(t);
    if a.Act? && a.p == p { ActGivesUp(c, s, p, a.e); BusyStays(c, s, p, a.e); }
    hide ActStep;
  }

  lemma BusyStays(c: Config, s: State, p: Pid, e: Event)
    requires p in s.calls
    ensures s.calls[p].pc.Busy? ==> ActStep(c, s, p, s.calls[p], e).None?
  {
  }

  ghost predicate WasLockedOut(tr: seq<State>, i: nat, p: Pid)
    requires i < |tr|
  {
    exists j :: 0 <= j < i && LockedOut(tr[j], p)
  }

  lemma LockedOutOn(tr: seq<State>, i: nat, p: Pid)
    requires 0 < i < |tr| && (WasLockedOut(tr, i - 1, p) || LockedOut(tr[i - 1], p))
    ensures WasLockedOut(tr, i, p)
  {
  }

  /** A call ends as busy only after three refused writes, or where the lock was not to be had. */
  lemma {:induction false} BusyOnlyWhereBeaten(c: Config, tr: seq<State>, i: nat, p: Pid)
    requires IsTrace(c, tr) && i < |tr| && p in tr[i].calls
    ensures LocksTried(tr[i].calls[p])
    ensures tr[i].calls[p].pc.Busy? ==> tr[i].calls[p].refused == 3 || WasLockedOut(tr, i, p)
  {
    hide Fits, LockedOut, WasLockedOut;
    if i > 0 {
      var s, t := tr[i - 1], tr[(i - 1) + 1];
      assert Next(c, s, t);
      TraceFits(c, tr, i - 1);
      if p in s.calls { BusyOnlyWhereBeaten(c, tr, i - 1, p); }
      hide Next;
      NextGivesUp(c, s, t, p);
      if p in s.calls && (WasLockedOut(tr, i - 1, p) || LockedOut(s, p)) { LockedOutOn(tr, i, p); }
    }
  }
}
