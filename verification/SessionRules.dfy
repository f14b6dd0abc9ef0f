/**
 * Which sessions a get returns and which ones it, a sweep or the account limit deletes: the rules said outright, and
 * proved of every call of every interleaving, and of a call that nothing comes between.
 */
module SessionRules {
  import opened Wrappers
  import opened Sessions

  // ---------------------------------------------------------------------------------------------------------------
  // The rules
  // ---------------------------------------------------------------------------------------------------------------

  ghost predicate Noted(s: State, e: Event) {
    e in s.log
  }

  ghost predicate FoundInTime(s: State, p: Pid, id: Id) {
    exists at, clock :: Noted(s, InTime(p, id, at, clock))
  }

  ghost predicate BeganToEnd(s: State, p: Pid, id: Id) {
    exists why :: Noted(s, Ending(p, id, why))
  }

  ghost predicate IsVictim(s: State, p: Pid, id: Id) {
    exists keep, members, replies, victims :: Noted(s, Limited(p, keep, members, replies, victims)) && id in victims
  }

  ghost predicate WasListed(s: State, p: Pid, members: seq<Id>) {
    exists identity :: Noted(s, Listed(p, identity, members))
  }

  /** A member still held, as far as the replies tell, and not the one to keep. */
  predicate Counts(members: seq<Id>, replies: seq<Option<bool>>, keep: Id, i: nat)
    requires i < |members| == |replies|
  {
    replies[i] != Some(false) && members[i] != keep
  }

  function HowMany(members: seq<Id>, replies: seq<Option<bool>>, keep: Id): (n: nat)
    requires |members| == |replies|
    ensures n <= |members|
  {
    var last := |members| - 1;
    if members == [] then 0
    else HowMany(members[..last], replies[..last], keep) + if Counts(members, replies, keep, last) then 1 else 0
  }

  /** As many as are over the cap with the one to keep, the ones used longest ago. */
  ghost predicate RightVictims(c: Limits, keep: Id, members: seq<Id>, replies: seq<Option<bool>>, victims: seq<Id>) {
    && |members| == |replies|
    && (var n := HowMany(members, replies, keep);
        |victims| == if n + 1 <= c.maxPerIdentity then 0 else if c.maxPerIdentity == 0 then n else n + 1 - c.maxPerIdentity)
    && (forall id <- victims :: exists i :: 0 <= i < |members| && members[i] == id && Counts(members, replies, keep, i))
    && forall i, j :: 0 <= i < j < |members| && Counts(members, replies, keep, i) && members[j] in victims ==>
         members[i] in victims
  }

  /** What is logged was so in the state it was logged in. */
  ghost predicate Justified(c: Limits, s: State, e: Event) {
    match e
    case InTime(_, id, at, clock) => at == LastUse(s, id) && clock - at <= c.ttlMs
    case Returned(p, id) => HasSession(s, id) && FoundInTime(s, p, id)
    case Ending(_, id, NoPayload) => !HasSession(s, id)
    case Ending(_, id, TooOld(at, clock)) => at == LastUse(s, id) && clock - at > c.ttlMs
    case Ending(p, id, Unopenable(payload)) =>
      !payload.opens && p in s.procs && (s.procs[p].replica, id) !in s.live && s.procs[p].pc == GetAt(id, payload)
    case Ending(p, _, Asked) => p !in s.procs
    case Ending(p, id, OverCap) => IsVictim(s, p, id)
    case Listed(_, identity, members) => IsByUse(Members(s, identity), members)
    case Limited(p, keep, members, replies, victims) =>
      WasListed(s, p, members) && RightVictims(c, keep, members, replies, victims)
    case DroppedStale(ids) => forall id <- ids :: Gone(s, id)
  }

  // ---------------------------------------------------------------------------------------------------------------
  // The account limit
  // ---------------------------------------------------------------------------------------------------------------

  lemma {:induction false} OthersAre(held: seq<Id>, keep: Id)
    ensures forall id :: id in Others(held, keep) <==> id in held && id != keep
  {
    if held != [] { OthersAre(held[1..], keep); }
  }

  /** The held members but the one to keep, in their order: what the cap is counted over. */
  function Counted(members: seq<Id>, replies: seq<Option<bool>>, keep: Id): seq<Id>
    requires |members| == |replies|
  {
    if members == [] then []
    else (if Counts(members, replies, keep, 0) then [members[0]] else []) + Counted(members[1..], replies[1..], keep)
  }

  lemma {:induction false} OthersHeld(members: seq<Id>, replies: seq<Option<bool>>, keep: Id)
    requires |members| == |replies|
    ensures Others(StillHeld(members, replies), keep) == Counted(members, replies, keep)
  {
    if members != [] {
      OthersHeld(members[1..], replies[1..], keep);
      var rest := StillHeld(members[1..], replies[1..]);
      assert StillHeld(members, replies) == if replies[0] == Some(false) then rest else [members[0]] + rest;
      assert ([members[0]] + rest)[1..] == rest;
    }
  }

  lemma {:induction false} CountedAdds(members: seq<Id>, replies: seq<Option<bool>>, keep: Id, id: Id, reply: Option<bool>)
    requires |members| == |replies|
    ensures Counted(members + [id], replies + [reply], keep)
              == Counted(members, replies, keep) + if reply != Some(false) && id != keep then [id] else []
  {
    if members != [] {
      assert (members + [id])[1..] == members[1..] + [id] && (replies + [reply])[1..] == replies[1..] + [reply];
      CountedAdds(members[1..], replies[1..], keep, id, reply);
    }
  }

  /** The first `n` of them are those of a beginning of the members. */
  lemma {:induction false} CountedIs(members: seq<Id>, replies: seq<Option<bool>>, keep: Id)
    requires |members| == |replies|
    ensures |Counted(members, replies, keep)| == HowMany(members, replies, keep)
    ensures forall id <- Counted(members, replies, keep) ::
              exists i :: 0 <= i < |members| && members[i] == id && Counts(members, replies, keep, i)
  {
    if members != [] {
      var last := |members| - 1;
      var ms, rs := members[..last], replies[..last];
      CountedIs(ms, rs, keep);
      CountedAdds(ms, rs, keep, members[last], replies[last]);
      assert members == ms + [members[last]] && replies == rs + [replies[last]];
      forall id <- Counted(members, replies, keep)
        ensures exists i :: 0 <= i < |members| && members[i] == id && Counts(members, replies, keep, i)
      {
        if id in Counted(ms, rs, keep) {
          var i :| 0 <= i < |ms| && ms[i] == id && Counts(ms, rs, keep, i);
          assert members[i] == id && Counts(members, replies, keep, i);
        } else {
          assert members[last] == id && Counts(members, replies, keep, last);
        }
      }
    }
  }

  /** Whoever is among the first is preceded only by such. */
  lemma {:induction false} EarlierFirst(members: seq<Id>, replies: seq<Option<bool>>, keep: Id, n: nat, i: nat, j: nat)
    requires |members| == |replies| && i < j < |members| && n <= |Counted(members, replies, keep)|
    requires forall k, l :: 0 <= k < l < |members| ==> members[k] != members[l]
    requires Counts(members, replies, keep, i) && members[j] in Counted(members, replies, keep)[..n]
    ensures members[i] in Counted(members, replies, keep)[..n]
  {
    var ms, rs := members[1..], replies[1..];
    var all, rest := Counted(members, replies, keep), Counted(ms, rs, keep);
    var first := Counts(members, replies, keep, 0);
    CountedIs(ms, rs, keep);
    assert members[j] != members[0];
    if i == 0 {
      assert all[0] == members[0];
      if n > 0 { assert all[..n][0] == members[0]; }
    } else {
      var m := if first then n - 1 else n;
      assert all[..n] == if first && n > 0 then [members[0]] + rest[..n - 1] else rest[..n];
      assert members[j] == ms[j - 1];
      EarlierFirst(ms, rs, keep, m, i - 1, j - 1);
    }
  }

  /** The account limit never ends the session to keep, ends as many as are too many, and those used longest ago. */
  lemma VictimsAreRight(c: Limits, keep: Id, members: seq<Id>, replies: seq<Option<bool>>)
    requires |members| == |replies| && forall k, l :: 0 <= k < l < |members| ==> members[k] != members[l]
    ensures RightVictims(c, keep, members, replies, Victims(StillHeld(members, replies), keep, c.maxPerIdentity))
  {
    hide Counted, StillHeld, Others, HowMany, Counts;
    var all := Counted(members, replies, keep);
    OthersHeld(members, replies, keep);
    CountedIs(members, replies, keep);
    var n := |Victims(StillHeld(members, replies), keep, c.maxPerIdentity)|;
    assert Victims(StillHeld(members, replies), keep, c.maxPerIdentity) == all[..n];
    FirstsCount(members, replies, keep, n);
  }

  lemma FirstsCount(members: seq<Id>, replies: seq<Option<bool>>, keep: Id, n: nat)
    requires |members| == |replies| && forall k, l :: 0 <= k < l < |members| ==> members[k] != members[l]
    requires n <= |Counted(members, replies, keep)|
    ensures var victims := Counted(members, replies, keep)[..n];
            && (forall id <- victims :: exists i :: 0 <= i < |members| && members[i] == id && Counts(members, replies, keep, i))
            && forall i, j :: 0 <= i < j < |members| && Counts(members, replies, keep, i) && members[j] in victims ==>
                 members[i] in victims
  {
    hide Counted, HowMany, Counts;
    CountedIs(members, replies, keep);
    var all := Counted(members, replies, keep);
    assert forall id <- all[..n] :: id in all;
    forall i, j | 0 <= i < j < |members| && Counts(members, replies, keep, i) && members[j] in all[..n]
      ensures members[i] in all[..n]
    {
      EarlierFirst(members, replies, keep, n, i, j);
    }
  }

  // ---------------------------------------------------------------------------------------------------------------
  // Each step
  // ---------------------------------------------------------------------------------------------------------------

  ghost predicate RestFits(s: State, p: Pid, rest: Rest) {
    rest.EvictOn? ==> forall id <- rest.ids :: IsVictim(s, p, id)
  }

  /** Where a call stands follows from what was logged for it. */
  ghost predicate PcFits(s: State, p: Pid, pc: Pc) {
    match pc
    case Sliding(id, _, _) => FoundInTime(s, p, id)
    case Deleting(id, _, rest) => BeganToEnd(s, p, id) && RestFits(s, p, rest)
    case Deriving(id, rest) => BeganToEnd(s, p, id) && RestFits(s, p, rest)
    case Unindexing(id, _, rest) => BeganToEnd(s, p, id) && RestFits(s, p, rest)
    case Removing(id, rest) => BeganToEnd(s, p, id) && RestFits(s, p, rest)
    case Checking(_, _, members, replies) =>
      |replies| <= |members| && WasListed(s, p, members) && forall k, l :: 0 <= k < l < |members| ==> members[k] != members[l]
    case Dropping(_, _, members, replies) =>
      |replies| == |members| && WasListed(s, p, members) && forall k, l :: 0 <= k < l < |members| ==> members[k] != members[l]
    case Evicting(ids) => forall id <- ids :: IsVictim(s, p, id)
    case _ => true
  }

  lemma NotedStay(s: State, t: State)
    requires s.log <= t.log
    ensures forall e :: Noted(s, e) ==> Noted(t, e)
    ensures forall p, id :: FoundInTime(s, p, id) ==> FoundInTime(t, p, id)
    ensures forall p, id :: BeganToEnd(s, p, id) ==> BeganToEnd(t, p, id)
    ensures forall p, id :: IsVictim(s, p, id) ==> IsVictim(t, p, id)
    ensures forall p, members :: WasListed(s, p, members) ==> WasListed(t, p, members)
  {
    assert forall e <- s.log :: e in t.log;
  }

  lemma PcStillFits(s: State, t: State, p: Pid, pc: Pc)
    requires PcFits(s, p, pc) && s.log <= t.log
    ensures PcFits(t, p, pc)
  {
    NotedStay(s, t);
    hide FoundInTime, BeganToEnd, IsVictim, WasListed, Noted;
  }

  /** All that a step logs is so, and what it leaves the call at follows. */
  ghost predicate MoveFits(c: Limits, s: State, t: State, p: Pid) {
    && s.log <= t.log && (forall e <- t.log[|s.log|..] :: Justified(c, s, e))
    && p in t.procs && PcFits(t, p, t.procs[p].pc)
  }

  lemma NoNews(c: Limits, s: State, t: State, p: Pid)
    requires t.log == s.log && p in t.procs && PcFits(s, p, t.procs[p].pc)
    ensures MoveFits(c, s, t, p)
  {
    PcStillFits(s, t, p, t.procs[p].pc);
    assert t.log[|s.log|..] == [];
  }

  /** A delete that begins for a reason that holds. */
  lemma BeginsToEnd(c: Limits, s: State, p: Pid, q: Proc, id: Id, rest: Rest, why: Why)
    requires Justified(c, s, Ending(p, id, why)) && RestFits(s, p, rest)
    ensures MoveFits(c, s, BeginDeleteAt(s, p, q, id, rest, why), p)
  {
    var t := BeginDeleteAt(s, p, q, id, rest, why);
    assert t.log[|s.log|..] == [Ending(p, id, why)];
    NotedStay(s, t);
    assert Noted(t, Ending(p, id, why));
    hide Justified, IsVictim;
  }

  lemma GetFits(c: Limits, s: State, p: Pid, q: Proc, now: int)
    requires p in s.procs && s.procs[p] == q && PcFits(s, p, q.pc) && (q.pc.GetPayload? || q.pc.GetAt? || q.pc.Sliding?)
    ensures MoveFits(c, s, GetStep(c, s, p, q, now), p)
  {
    var t := GetStep(c, s, p, q, now);
    match q.pc
    case GetPayload(id) =>
      if HasSession(s, id) { NoNews(c, s, t, p); } else { BeginsToEnd(c, s, p, q, id, Stop, NoPayload); }
    case GetAt(id, payload) =>
      var at := LastUse(s, id);
      if now - at > c.ttlMs { BeginsToEnd(c, s, p, q, id, Stop, TooOld(at, now)); }
      else if (q.replica, id) !in s.live && !payload.opens { BeginsToEnd(c, s, p, q, id, Stop, Unopenable(payload)); }
      else { FindsInTime(c, s, t, p, id, at, now); }
    case Sliding(id, identity, at) =>
      if HasSession(s, id) { Returns(c, s, t, p, id); } else { NoNews(c, s, t, p); }
  }

  lemma FindsInTime(c: Limits, s: State, t: State, p: Pid, id: Id, at: int, now: int)
    requires t.log == s.log + [InTime(p, id, at, now)] && at == LastUse(s, id) && now - at <= c.ttlMs
    requires p in t.procs && t.procs[p].pc.Sliding? && t.procs[p].pc.id == id
    ensures MoveFits(c, s, t, p)
  {
    assert t.log[|s.log|..] == [InTime(p, id, at, now)];
    assert Noted(t, InTime(p, id, at, now));
  }

  lemma Returns(c: Limits, s: State, t: State, p: Pid, id: Id)
    requires HasSession(s, id) && FoundInTime(s, p, id) && t.log == s.log + [Returned(p, id)]
    requires p in t.procs && t.procs[p].pc.Done?
    ensures MoveFits(c, s, t, p)
  {
    assert t.log[|s.log|..] == [Returned(p, id)];
  }

  lemma DeleteFits(c: Limits, s: State, p: Pid, q: Proc)
    requires PcFits(s, p, q.pc) && (q.pc.Deleting? || q.pc.Deriving? || q.pc.Unindexing? || q.pc.Removing?)
    ensures MoveFits(c, s, DeleteStep(s, p, q), p)
  {
    DeleteGoesOn(s, p, q);
    hide PcFits, MoveFits, DeleteStep;
    NoNews(c, s, DeleteStep(s, p, q), p);
  }

  lemma DeleteGoesOn(s: State, p: Pid, q: Proc)
    requires PcFits(s, p, q.pc) && (q.pc.Deleting? || q.pc.Deriving? || q.pc.Unindexing? || q.pc.Removing?)
    ensures var t := DeleteStep(s, p, q); t.log == s.log && p in t.procs && PcFits(s, p, t.procs[p].pc)
  {
    hide BeganToEnd, IsVictim, HasSession, Own, WithoutMembers, WithoutHash, CloseLive;
    LessKeepsLog(s);
    match q.pc
    case Removing(id, rest) =>
      var u := CloseLive(WithoutHash(s, id), q.replica, id);
      AfterDelete(s, u, p, q, rest);
    case _ =>
  }

  lemma AfterDelete(s: State, u: State, p: Pid, q: Proc, rest: Rest)
    requires RestFits(s, p, rest)
    ensures var t := GoOn(u, p, q, rest); t.log == u.log && p in t.procs && PcFits(s, p, t.procs[p].pc)
  {
    hide IsVictim;
  }

  lemma SweepFits(c: Limits, s: State, p: Pid, q: Proc, ids: seq<Id>, now: int)
    ensures MoveFits(c, s, SweepStep(c, s, p, q, ids, now), p)
  {
    var t := SweepStep(c, s, p, q, ids, now);
    if ids != [] && ids[0] in s.hashes && s.hashes[ids[0]].at.Some? && now - s.hashes[ids[0]].at.value > c.ttlMs {
      BeginsToEnd(c, s, p, q, ids[0], SweepOn(ids[1..]), TooOld(s.hashes[ids[0]].at.value, now));
    } else {
      NoNews(c, s, t, p);
    }
  }

  lemma DropLogs(c: Limits, s: State, p: Pid, q: Proc, now: int, order: seq<Id>, fails: bool)
    requires q.pc.Dropping?
    ensures var members, replies, keep := q.pc.members, q.pc.replies, q.pc.keep;
            var victims := Victims(StillHeld(members, replies), keep, c.maxPerIdentity);
            var t := LimitStep(c, s, p, q, now, order, fails);
            && t.log == s.log + DropsOf(members, replies) + [Limited(p, keep, members, replies, victims)]
            && p in t.procs && t.procs[p].pc == Evicting(victims)
  {
    hide Stale, StillHeld, Victims, WithoutMembers;
    LessKeepsLog(s);
  }

  function DropsOf(members: seq<Id>, replies: seq<Option<bool>>): seq<Event> {
    if Stale(members, replies) == [] then [] else [DroppedStale(Stale(members, replies))]
  }

  lemma DropFits(c: Limits, s: State, p: Pid, q: Proc, now: int, order: seq<Id>, fails: bool)
    requires PcFits(s, p, q.pc) && q.pc.Dropping? && PcSound(s, q.pc)
    ensures MoveFits(c, s, LimitStep(c, s, p, q, now, order, fails), p)
  {
    hide Stale, StillHeld, Victims, RightVictims, Gone, LimitStep;
    var members, replies, keep := q.pc.members, q.pc.replies, q.pc.keep;
    var victims := Victims(StillHeld(members, replies), keep, c.maxPerIdentity);
    DropLogs(c, s, p, q, now, order, fails);
    StaleGone(s, members, replies);
    VictimsAreRight(c, keep, members, replies);
    var t := LimitStep(c, s, p, q, now, order, fails);
    var limited := Limited(p, keep, members, replies, victims);
    assert t.log[|s.log|..] == DropsOf(members, replies) + [limited];
    hide WasListed, IsVictim;
    NotedNow(t, limited);
    VictimsOf(t, p, keep, members, replies, victims);
  }

  lemma NotedNow(t: State, e: Event)
    requires t.log != [] && t.log[|t.log| - 1] == e
    ensures Noted(t, e)
  {
  }

  lemma VictimsOf(t: State, p: Pid, keep: Id, members: seq<Id>, replies: seq<Option<bool>>, victims: seq<Id>)
    requires Noted(t, Limited(p, keep, members, replies, victims))
    ensures forall id <- victims :: IsVictim(t, p, id)
  {
  }

  lemma LimitFits(c: Limits, s: State, p: Pid, q: Proc, now: int, order: seq<Id>, fails: bool)
    requires PcFits(s, p, q.pc) && PcSound(s, q.pc) && p in s.procs && s.procs[p] == q
    requires q.pc.Trimming? || q.pc.Listing? || q.pc.Checking? || q.pc.Dropping? || q.pc.Evicting?
    ensures MoveFits(c, s, LimitStep(c, s, p, q, now, order, fails), p)
  {
    var t := LimitStep(c, s, p, q, now, order, fails);
    match q.pc
    case Dropping(_, _, _, _) => DropFits(c, s, p, q, now, order, fails);
    case Listing(identity, keep) =>
      if IsByUse(Members(s, identity), order) { ListFits(c, s, t, p, identity, order); } else { NoNews(c, s, t, p); }
    case Evicting(ids) =>
      if ids == [] { NoNews(c, s, t, p); } else { BeginsToEnd(c, s, p, q, ids[0], EvictOn(ids[1..]), OverCap); }
    case _ =>
      hide MoveFits;
      NoNews(c, s, t, p);
  }

  lemma ListFits(c: Limits, s: State, t: State, p: Pid, identity: Identity, order: seq<Id>)
    requires IsByUse(Members(s, identity), order) && t.log == s.log + [Listed(p, identity, order)]
    requires p in t.procs && t.procs[p].pc.Checking? && t.procs[p].pc.members == order && t.procs[p].pc.replies == []
    ensures MoveFits(c, s, t, p)
  {
    assert t.log[|s.log|..] == [Listed(p, identity, order)];
    assert Noted(t, Listed(p, identity, order));
  }

  lemma AnyMoveFits(c: Limits, s: State, p: Pid, q: Proc, now: int, order: seq<Id>, fails: bool)
    requires PcFits(s, p, q.pc) && PcSound(s, q.pc) && p in s.procs && s.procs[p] == q
    ensures MoveFits(c, s, MoveStep(c, s, p, q, now, order, fails), p)
  {
    hide MoveFits, PcFits, PcSound, GetStep, DeleteStep, SweepStep, LimitStep;
    match q.pc
    case GetPayload(_) => GetFits(c, s, p, q, now);
    case GetAt(_, _) => GetFits(c, s, p, q, now);
    case Sliding(_, _, _) => GetFits(c, s, p, q, now);
    case Deleting(_, _, _) => DeleteFits(c, s, p, q);
    case Deriving(_, _) => DeleteFits(c, s, p, q);
    case Unindexing(_, _, _) => DeleteFits(c, s, p, q);
    case Removing(_, _) => DeleteFits(c, s, p, q);
    case Sweeping(ids) => SweepFits(c, s, p, q, ids, now);
    case Trimming(_, _) => LimitFits(c, s, p, q, now, order, fails);
    case Listing(_, _) => LimitFits(c, s, p, q, now, order, fails);
    case Checking(_, _, _, _) => LimitFits(c, s, p, q, now, order, fails);
    case Dropping(_, _, _, _) => LimitFits(c, s, p, q, now, order, fails);
    case Evicting(_) => LimitFits(c, s, p, q, now, order, fails);
    case Done => NoNews(c, s, s, p);
  }

  ghost predicate Fits(s: State) {
    forall p <- s.procs :: PcFits(s, p, s.procs[p].pc)
  }

  lemma FitsAfter(c: Limits, s: State, t: State, p: Pid)
    requires Fits(s) && MoveFits(c, s, t, p) && MovesOn(s, t, p)
    ensures Fits(t)
  {
    hide PcFits;
    forall x <- t.procs ensures PcFits(t, x, t.procs[x].pc) {
      if x != p { PcStillFits(s, t, x, s.procs[x].pc); }
    }
  }

  ghost predicate NewsFit(c: Limits, s: State, t: State) {
    s.log <= t.log && forall e <- t.log[|s.log|..] :: Justified(c, s, e)
  }

  lemma StepFits(c: Limits, s: State, a: Action)
    requires Fits(s) && Inv(s)
    ensures Fits(Step(c, s, a)) && NewsFit(c, s, Step(c, s, a))
  {
    hide Fits, MoveFits, MoveStep, Inv, PcFits, NewsFit, Created;
    var t := Step(c, s, a);
    match a {
      case Move(p, now, order, fails) =>
        if p in s.procs { MovesFit(c, s, p, now, order, fails); } else { SameFits(c, s, t); }
      case BeginDelete(p, r, id) => if p in s.procs { SameFits(c, s, t); } else { DeleteBegins(c, s, p, r, id); }
      case ExpireHash(_) => SameFits(c, s, t);
      case ExpireIndex(_) => SameFits(c, s, t);
      case Create(p, r, id, identity, now, _) =>
        assert Created(s, r, id, identity, now).log == s.log && Created(s, r, id, identity, now).procs == s.procs by {
          CreatedKeeps(s, r, id, identity, now);
        }
        BeginFits(c, s, t, p);
      case BeginGet(p, _, _) => BeginFits(c, s, t, p);
      case BeginSweep(p, _, _) => BeginFits(c, s, t, p);
      case BeginLimit(p, _, _, _) => BeginFits(c, s, t, p);
    }
  }

  lemma CreatedKeeps(s: State, r: Replica, id: Id, identity: Identity, now: int)
    ensures Created(s, r, id, identity, now).log == s.log && Created(s, r, id, identity, now).procs == s.procs
  {
  }

  lemma MovesFit(c: Limits, s: State, p: Pid, now: int, order: seq<Id>, fails: bool)
    requires Fits(s) && Inv(s) && p in s.procs
    ensures var t := Step(c, s, Move(p, now, order, fails)); Fits(t) && NewsFit(c, s, t)
  {
    hide Fits, MoveFits, MoveStep, Inv, PcFits, NewsFit;
    var t := Step(c, s, Move(p, now, order, fails));
    FitsFor(s, p);
    AnyMoveFits(c, s, p, s.procs[p], now, order, fails);
    NextPcSound(c, s, p, s.procs[p], now, order, fails);
    MoveNews(c, s, t, p);
    FitsAfter(c, s, t, p);
  }

  lemma DeleteBegins(c: Limits, s: State, p: Pid, r: Replica, id: Id)
    requires Fits(s) && p !in s.procs
    ensures var t := Step(c, s, BeginDelete(p, r, id)); Fits(t) && NewsFit(c, s, t)
  {
    hide Fits, PcFits, NewsFit;
    var t := Step(c, s, BeginDelete(p, r, id));
    BeginsToEnd(c, s, p, Proc(r, Done), id, Stop, Asked);
    MoveNews(c, s, t, p);
    FitsAfter(c, s, t, p);
  }

  lemma FitsFor(s: State, p: Pid)
    requires Fits(s) && Inv(s) && p in s.procs
    ensures PcFits(s, p, s.procs[p].pc) && PcSound(s, s.procs[p].pc) && Tracked(s)
  {
  }

  lemma MoveNews(c: Limits, s: State, t: State, p: Pid)
    requires MoveFits(c, s, t, p)
    ensures NewsFit(c, s, t)
  {
  }

  lemma SameFits(c: Limits, s: State, t: State)
    requires Fits(s) && t.log == s.log && t.procs == s.procs
    ensures Fits(t) && NewsFit(c, s, t)
  {
    assert t.log[|s.log|..] == [];
    forall x <- t.procs ensures PcFits(t, x, t.procs[x].pc) { PcStillFits(s, t, x, s.procs[x].pc); }
  }

  lemma BeginFits(c: Limits, s: State, t: State, p: Pid)
    requires Fits(s) && t.log == s.log && (t.procs == s.procs || (p in t.procs && t.procs == s.procs[p := t.procs[p]]))
    requires t.procs != s.procs ==>
               var pc := t.procs[p].pc; pc.Done? || pc.GetPayload? || pc.Sweeping? || pc.Trimming?
    ensures Fits(t) && NewsFit(c, s, t)
  {
    assert t.log[|s.log|..] == [];
    forall x <- t.procs ensures PcFits(t, x, t.procs[x].pc) {
      if x in s.procs && t.procs[x] == s.procs[x] { PcStillFits(s, t, x, s.procs[x].pc); }
    }
  }

  // ---------------------------------------------------------------------------------------------------------------
  // In every run
  // ---------------------------------------------------------------------------------------------------------------

  lemma NextFits(c: Limits, s: State, t: State)
    requires Next(c, s, t) && Fits(s) && Inv(s)
    ensures Fits(t) && NewsFit(c, s, t)
  {
    var a :| t == Step(c, s, a);
    StepFits(c, s, a);
  }

  lemma {:induction false} TraceFits(c: Limits, run: seq<State>, i: nat)
    requires Trace(c, run) && i < |run|
    ensures Fits(run[i])
  {
    if i > 0 {
      hide Fits, Next, Inv;
      TraceFits(c, run, i - 1);
      TraceInv(c, run, i - 1);
      assert Next(c, run[i - 1], run[i - 1 + 1]);
      NextFits(c, run[i - 1], run[i]);
    }
  }

  lemma NewsOfTrace(c: Limits, run: seq<State>, j: nat)
    requires Trace(c, run) && 0 < j < |run|
    ensures NewsFit(c, run[j - 1], run[j])
  {
    TraceFits(c, run, j - 1);
    TraceInv(c, run, j - 1);
    assert Next(c, run[j - 1], run[j - 1 + 1]);
    NextFits(c, run[j - 1], run[j]);
  }

  /** The event was logged in the step from `j`, and was so there. */
  ghost predicate LoggedAt(c: Limits, run: seq<State>, i: nat, k: nat, j: nat)
    requires i < |run| && k < |run[i].log|
  {
    j < i && run[j].log <= run[i].log && |run[j].log| <= k && Justified(c, run[j], run[i].log[k])
  }

  /**
   * Whatever is logged in a run was so in the state it was logged in: a session returned was there, found used within
   * its time to live; a delete began where no payload was read, or a time of last use too long ago, or a payload that
   * does not open and no pool was held, or where it was asked for, or as one of the right victims of the account limit.
   */
  lemma {:induction false} EveryEventIsJustified(c: Limits, run: seq<State>, i: nat, k: nat)
    requires Trace(c, run) && i < |run| && k < |run[i].log|
    ensures exists j :: LoggedAt(c, run, i, k, j)
    decreases i
  {
    hide Justified, Trace;
    if i > 0 {
      NewsOfTrace(c, run, i);
      var s, t := run[i - 1], run[i];
      if k < |s.log| {
        EveryEventIsJustified(c, run, i - 1, k);
        var j :| LoggedAt(c, run, i - 1, k, j);
        assert t.log[k] == s.log[k];
        assert LoggedAt(c, run, i, k, j);
      } else {
        assert t.log[|s.log|..][k - |s.log|] == t.log[k];
        assert LoggedAt(c, run, i, k, i - 1);
      }
    } else {
      assert run[0].log == [] by { TraceBegins(c, run); }
    }
  }

  lemma TraceBegins(c: Limits, run: seq<State>)
    requires Trace(c, run)
    ensures run[0].log == []
  {
  }

  /** A session's hash goes only by its key's expiry, or at the hands of a call that had begun to delete it. */
  lemma SessionsEndOnlySo(c: Limits, run: seq<State>, i: nat, id: Id)
    requires Trace(c, run) && i + 1 < |run| && id in run[i].hashes && id !in run[i + 1].hashes
    ensures run[i + 1] == WithoutHash(run[i], id) || exists p :: BeganToEnd(run[i], p, id)
  {
    TraceFits(c, run, i);
    var s, t := run[i], run[i + 1];
    assert Next(c, run[i], run[i + 1]);
    var a :| t == Step(c, s, a);
    StepEndsOnlySo(c, s, a, id);
  }

  lemma StepEndsOnlySo(c: Limits, s: State, a: Action, id: Id)
    requires Fits(s) && id in s.hashes && id !in Step(c, s, a).hashes
    ensures Step(c, s, a) == WithoutHash(s, id) || exists p :: BeganToEnd(s, p, id)
  {
    if a.Move? && a.p in s.procs {
      MoveEndsOnlySo(c, s, a.p, s.procs[a.p], a.now, a.order, a.fails, id);
      assert PcFits(s, a.p, s.procs[a.p].pc);
    }
    hide Fits, BeganToEnd, MoveStep;
  }

  lemma MoveEndsOnlySo(c: Limits, s: State, p: Pid, q: Proc, now: int, order: seq<Id>, fails: bool, id: Id)
    requires id in s.hashes
    ensures id !in MoveStep(c, s, p, q, now, order, fails).hashes ==> q.pc.Removing? && q.pc.id == id
  {
    hide IsByUse, HasSession, Expired, Own, LastUse, Stale, StillHeld, Victims;
    if q.pc.GetPayload? || q.pc.GetAt? || q.pc.Sliding? { hide DeleteStep, SweepStep, LimitStep; }
    else if q.pc.Deleting? || q.pc.Deriving? || q.pc.Unindexing? || q.pc.Removing? { hide GetStep, SweepStep, LimitStep; }
    else { LimitKeepsHashes(c, s, p, q, now, order, fails); hide GetStep, DeleteStep, LimitStep; }
  }

  lemma LimitKeepsHashes(c: Limits, s: State, p: Pid, q: Proc, now: int, order: seq<Id>, fails: bool)
    ensures q.pc.Trimming? || q.pc.Listing? || q.pc.Checking? || q.pc.Dropping? || q.pc.Evicting? ==>
              LimitStep(c, s, p, q, now, order, fails).hashes == s.hashes
  {
    hide IsByUse, HasSession, Expired, Own, Stale, StillHeld, Victims;
  }

  // ---------------------------------------------------------------------------------------------------------------
  // Every victim is ended
  // ---------------------------------------------------------------------------------------------------------------

  /** The victims a call still has to see to. */
  function Waiting(pc: Pc): seq<Id> {
    match pc
    case Evicting(ids) => ids
    case Deleting(_, _, EvictOn(ids)) => ids
    case Deriving(_, EvictOn(ids)) => ids
    case Unindexing(_, _, EvictOn(ids)) => ids
    case Removing(_, EvictOn(ids)) => ids
    case _ => []
  }

  ghost predicate SeenTo(s: State, p: Pid, pc: Pc) {
    forall id :: IsVictim(s, p, id) ==> BeganToEnd(s, p, id) || id in Waiting(pc)
  }

  /** Only calls there are leave anything in the log. */
  ghost predicate NoVictimsBefore(s: State) {
    forall p, id :: IsVictim(s, p, id) ==> p in s.procs
  }

  lemma MoreVictims(s: State, t: State)
    requires s.log <= t.log && forall e <- t.log[|s.log|..] :: !e.Limited?
    ensures forall p, id :: IsVictim(t, p, id) ==> IsVictim(s, p, id)
  {
    forall p, id | IsVictim(t, p, id) ensures IsVictim(s, p, id) {
      var keep, members, replies, victims :| Noted(t, Limited(p, keep, members, replies, victims)) && id in victims;
      assert t.log == s.log + t.log[|s.log|..];
      assert Noted(s, Limited(p, keep, members, replies, victims));
    }
  }

  lemma StillSeenTo(s: State, t: State, p: Pid, pc: Pc, next: Pc)
    requires SeenTo(s, p, pc) && s.log <= t.log && (forall e <- t.log[|s.log|..] :: !e.Limited?)
    requires forall id <- Waiting(pc) :: id in Waiting(next) || BeganToEnd(t, p, id)
    ensures SeenTo(t, p, next)
  {
    NotedStay(s, t);
    MoreVictims(s, t);
  }

  lemma DropSeesTo(c: Limits, s: State, p: Pid, q: Proc, now: int, order: seq<Id>, fails: bool)
    requires q.pc.Dropping? && SeenTo(s, p, q.pc) && NoVictimsBefore(s) && p in s.procs
    ensures var t := LimitStep(c, s, p, q, now, order, fails);
            SeenTo(t, p, t.procs[p].pc) && forall x, id :: IsVictim(t, x, id) ==> x == p || IsVictim(s, x, id)
  {
    DropLogs(c, s, p, q, now, order, fails);
    hide LimitStep, Stale, StillHeld, Victims;
    var t := LimitStep(c, s, p, q, now, order, fails);
    NotedStay(s, t);
    var members, replies, keep := q.pc.members, q.pc.replies, q.pc.keep;
    var victims := Victims(StillHeld(members, replies), keep, c.maxPerIdentity);
    forall x, id | IsVictim(t, x, id) ensures IsVictim(s, x, id) || (x == p && id in victims) {
      var k, ms, rs, vs :| Noted(t, Limited(x, k, ms, rs, vs)) && id in vs;
      assert Noted(s, Limited(x, k, ms, rs, vs)) || Limited(x, k, ms, rs, vs) == Limited(p, keep, members, replies, victims);
    }
  }

  lemma MoveSeesTo(c: Limits, s: State, p: Pid, q: Proc, now: int, order: seq<Id>, fails: bool)
    requires p in s.procs && s.procs[p] == q && !q.pc.Dropping? && SeenTo(s, p, q.pc)
    requires MovesOn(s, MoveStep(c, s, p, q, now, order, fails), p)
    ensures var t := MoveStep(c, s, p, q, now, order, fails);
            SeenTo(t, p, t.procs[p].pc) && forall x, id :: IsVictim(t, x, id) ==> IsVictim(s, x, id)
  {
    var t := MoveStep(c, s, p, q, now, order, fails);
    LogsOneMore(c, s, p, q, now, order, fails);
    WaitsOn(c, s, p, q, now, order, fails);
    hide MoveStep, IsVictim, BeganToEnd;
    assert t.log[|s.log|..] == if t.log == s.log then [] else [t.log[|s.log|]];
    MoreVictims(s, t);
    forall id <- Waiting(q.pc) ensures id in Waiting(t.procs[p].pc) || BeganToEnd(t, p, id) {
      if id !in Waiting(t.procs[p].pc) { NotedNow(t, Ending(p, id, OverCap)); BeginsNow(t, p, id); }
    }
    StillSeenTo(s, t, p, q.pc, t.procs[p].pc);
  }

  lemma BeginsNow(t: State, p: Pid, id: Id)
    requires Noted(t, Ending(p, id, OverCap))
    ensures BeganToEnd(t, p, id)
  {
  }

  /** Who no longer waits has begun to be ended. */
  lemma WaitsOn(c: Limits, s: State, p: Pid, q: Proc, now: int, order: seq<Id>, fails: bool)
    requires p in s.procs && s.procs[p] == q && !q.pc.Dropping?
    requires MovesOn(s, MoveStep(c, s, p, q, now, order, fails), p)
    ensures var t := MoveStep(c, s, p, q, now, order, fails);
            forall id <- Waiting(q.pc) ::
              id in Waiting(t.procs[p].pc) || (t.log != [] && t.log[|t.log| - 1] == Ending(p, id, OverCap))
  {
    hide MovesOn, GetStep, SweepStep;
    if q.pc.Deleting? || q.pc.Deriving? || q.pc.Unindexing? || q.pc.Removing? { DeleteWaits(s, p, q); hide DeleteStep; }
    else if q.pc.Evicting? { hide DeleteStep; }
    else { hide DeleteStep, LimitStep; }
  }

  lemma DeleteWaits(s: State, p: Pid, q: Proc)
    requires q.pc.Deleting? || q.pc.Deriving? || q.pc.Unindexing? || q.pc.Removing?
    ensures var t := DeleteStep(s, p, q); p in t.procs && forall id <- Waiting(q.pc) :: id in Waiting(t.procs[p].pc)
  {
    hide HasSession, Own, WithoutMembers, WithoutHash, CloseLive;
  }

  ghost predicate VictimsSeenTo(s: State) {
    NoVictimsBefore(s) && forall p <- s.procs :: SeenTo(s, p, s.procs[p].pc)
  }

  lemma NextSeesTo(c: Limits, s: State, t: State)
    requires Next(c, s, t) && Fits(s) && Inv(s) && VictimsSeenTo(s)
    ensures VictimsSeenTo(t)
  {
    var a :| t == Step(c, s, a);
    if a.Move? && a.p in s.procs {
      OneSeesTo(c, s, a.p, a.now, a.order, a.fails);
    } else {
      OtherActionsSeeTo(c, s, a);
    }
  }

  lemma OwnSeesTo(c: Limits, s: State, p: Pid, now: int, order: seq<Id>, fails: bool)
    requires Fits(s) && Inv(s) && VictimsSeenTo(s) && p in s.procs
    ensures var t := MoveStep(c, s, p, s.procs[p], now, order, fails);
            && MovesOn(s, t, p) && s.log <= t.log && SeenTo(t, p, t.procs[p].pc)
            && forall x, id :: IsVictim(t, x, id) ==> x == p || IsVictim(s, x, id)
  {
    var q := s.procs[p];
    FitsFor(s, p);
    AnyMoveFits(c, s, p, q, now, order, fails);
    NextPcSound(c, s, p, q, now, order, fails);
    assert SeenTo(s, p, q.pc);
    hide SeenTo, IsVictim, Fits, Inv, PcFits, PcSound;
    if q.pc.Dropping? { DropSeesTo(c, s, p, q, now, order, fails); } else { MoveSeesTo(c, s, p, q, now, order, fails); }
    hide MovesOn;
  }

  lemma OneSeesTo(c: Limits, s: State, p: Pid, now: int, order: seq<Id>, fails: bool)
    requires Fits(s) && Inv(s) && VictimsSeenTo(s) && p in s.procs
    ensures VictimsSeenTo(Step(c, s, Move(p, now, order, fails)))
  {
    OwnSeesTo(c, s, p, now, order, fails);
    hide MoveStep, IsVictim, BeganToEnd, Fits, Inv;
    var t := MoveStep(c, s, p, s.procs[p], now, order, fails);
    NotedStay(s, t);
    forall x <- t.procs ensures SeenTo(t, x, t.procs[x].pc) {
      if x != p { assert t.procs[x] == s.procs[x] && SeenTo(s, x, s.procs[x].pc); }
    }
  }

  lemma OtherActionsSeeTo(c: Limits, s: State, a: Action)
    requires VictimsSeenTo(s) && !(a.Move? && a.p in s.procs)
    ensures VictimsSeenTo(Step(c, s, a))
  {
    var t := Step(c, s, a);
    assert t.log[|s.log|..] == if t.log == s.log then [] else [t.log[|s.log|]];
    MoreVictims(s, t);
    NotedStay(s, t);
    hide IsVictim, BeganToEnd;
    forall x <- t.procs ensures SeenTo(t, x, t.procs[x].pc) {
      if x in s.procs { assert t.procs[x] == s.procs[x] && SeenTo(s, x, s.procs[x].pc); }
    }
  }

  lemma {:induction false} TraceSeesTo(c: Limits, run: seq<State>, i: nat)
    requires Trace(c, run) && i < |run|
    ensures VictimsSeenTo(run[i])
  {
    if i > 0 {
      hide Fits, Next, Inv, VictimsSeenTo;
      TraceSeesTo(c, run, i - 1);
      TraceInv(c, run, i - 1);
      TraceFits(c, run, i - 1);
      assert Next(c, run[i - 1], run[i - 1 + 1]);
      NextSeesTo(c, run[i - 1], run[i]);
    }
  }

  /** A call that is done has begun to end every victim of the account limit it enforced. */
  lemma EveryVictimIsEnded(c: Limits, run: seq<State>, i: nat, p: Pid, id: Id)
    requires Trace(c, run) && i < |run| && p in run[i].procs && run[i].procs[p].pc.Done? && IsVictim(run[i], p, id)
    ensures BeganToEnd(run[i], p, id)
  {
    TraceSeesTo(c, run, i);
    assert SeenTo(run[i], p, run[i].procs[p].pc);
  }

  // ---------------------------------------------------------------------------------------------------------------
  // A call that nothing comes between
  // ---------------------------------------------------------------------------------------------------------------

  /** The next steps of one call, all at one moment. */
  function Steps(c: Limits, s: State, p: Pid, now: int, n: nat): State {
    if n == 0 then s else Step(c, Steps(c, s, p, now, n - 1), Move(p, now, [], false))
  }

  function Moved(c: Limits, s: State, p: Pid, now: int): State {
    Step(c, s, Move(p, now, [], false))
  }

  lemma {:induction false} StepsOn(c: Limits, s: State, p: Pid, now: int, n: nat)
    ensures Steps(c, s, p, now, n + 1) == Steps(c, Moved(c, s, p, now), p, now, n)
  {
    hide Step;
    if n > 0 { StepsOn(c, s, p, now, n - 1); }
  }

  lemma DoneStep(c: Limits, s: State, p: Pid, now: int)
    requires p in s.procs && s.procs[p].pc.Done?
    ensures Moved(c, s, p, now) == s
  {
    hide GetStep, DeleteStep, SweepStep, LimitStep;
  }

  /** Further steps change nothing once the call is done. */
  lemma {:induction false} Enough(c: Limits, s: State, p: Pid, now: int, n: nat, m: nat)
    requires n <= m && p in Steps(c, s, p, now, n).procs && Steps(c, s, p, now, n).procs[p].pc.Done?
    ensures Steps(c, s, p, now, m) == Steps(c, s, p, now, n)
  {
    hide Step;
    if n < m {
      Enough(c, s, p, now, n, m - 1);
      DoneStep(c, Steps(c, s, p, now, m - 1), p, now);
    }
  }

  /** The hash and this process's pool are gone, and nothing else of any session. */
  ghost predicate IsEnded(s: State, t: State, p: Pid, r: Replica, id: Id) {
    && p in t.procs && t.procs[p].pc.Done? && t.hashes == s.hashes - {id} && t.live == s.live - {(r, id)}
    && (forall identity, x :: x != id ==> (x in Members(t, identity) <==> x in Members(s, identity)))
    && s.log <= t.log && forall e <- t.log[|s.log|..] :: e.Ending?
  }

  /** The session is out of the index of this account, and of no other. */
  ghost predicate LeftIndexOf(s: State, t: State, id: Id, account: Option<Identity>) {
    forall identity :: id in Members(t, identity) <==> id in Members(s, identity) && account != Some(identity)
  }

  /** The account the hash names; an old hash names none, but there may be a pool. */
  function NamedOrHeld(s: State, own: Option<Identity>, id: Id): Option<Identity> {
    if id in s.hashes && s.hashes[id].identity.Some? then s.hashes[id].identity else own
  }

  /** The account a payload that opens tells. */
  function Told(s: State, id: Id): Option<Identity> {
    if HasSession(s, id) && s.hashes[id].payload.value.opens then Some(s.hashes[id].payload.value.account) else None
  }

  /** Whose session it is; nobody's, where nothing tells. */
  function AccountOf(s: State, own: Option<Identity>, id: Id): Option<Identity> {
    if NamedOrHeld(s, own, id).Some? then NamedOrHeld(s, own, id) else Told(s, id)
  }

  /** The last steps of a delete. */
  lemma RemoveAlone(c: Limits, s: State, p: Pid, now: int)
    requires p in s.procs && s.procs[p].pc.Removing? && s.procs[p].pc.rest.Stop?
    ensures IsEnded(s, Moved(c, s, p, now), p, s.procs[p].replica, s.procs[p].pc.id)
    ensures LeftIndexOf(s, Moved(c, s, p, now), s.procs[p].pc.id, None)
  {
  }

  lemma UnindexingMoves(c: Limits, s: State, p: Pid, now: int)
    requires p in s.procs && s.procs[p].pc.Unindexing?
    ensures var q := s.procs[p];
            Moved(c, s, p, now) == Goto(WithoutMembers(s, q.pc.identity, {q.pc.id}), p, q, Removing(q.pc.id, q.pc.rest))
  {
    hide GetStep, SweepStep, LimitStep, WithoutMembers;
  }

  lemma UnindexAlone(c: Limits, s: State, p: Pid, now: int)
    requires p in s.procs && s.procs[p].pc.Unindexing? && s.procs[p].pc.rest.Stop?
    ensures IsEnded(s, Steps(c, s, p, now, 2), p, s.procs[p].replica, s.procs[p].pc.id)
    ensures LeftIndexOf(s, Steps(c, s, p, now, 2), s.procs[p].pc.id, Some(s.procs[p].pc.identity))
  {
    var t := Moved(c, s, p, now);
    var id, identity := s.procs[p].pc.id, s.procs[p].pc.identity;
    UnindexingMoves(c, s, p, now);
    hide Step;
    StepsOn(c, s, p, now, 1);
    assert Steps(c, t, p, now, 1) == Moved(c, t, p, now) by { assert Steps(c, t, p, now, 0) == t; }
    RemoveAlone(c, t, p, now);
    hide Steps;
  }

  lemma DeletingMoves(c: Limits, s: State, p: Pid, now: int)
    requires p in s.procs && s.procs[p].pc.Deleting?
    ensures var q, account := s.procs[p], NamedOrHeld(s, s.procs[p].pc.own, s.procs[p].pc.id);
            Moved(c, s, p, now) == Goto(s, p, q, if account.Some? then Unindexing(q.pc.id, account.value, q.pc.rest)
                                                 else Deriving(q.pc.id, q.pc.rest))
    ensures Told(Moved(c, s, p, now), s.procs[p].pc.id) == Told(s, s.procs[p].pc.id)
  {
    hide GetStep, SweepStep, LimitStep;
  }

  lemma DerivingMoves(c: Limits, s: State, p: Pid, now: int)
    requires p in s.procs && s.procs[p].pc.Deriving?
    ensures var q, account := s.procs[p], Told(s, s.procs[p].pc.id);
            Moved(c, s, p, now) == Goto(s, p, q, if account.Some? then Unindexing(q.pc.id, account.value, q.pc.rest)
                                                 else Removing(q.pc.id, q.pc.rest))
  {
    hide GetStep, SweepStep, LimitStep, HasSession;
  }

  lemma DeriveAlone(c: Limits, s: State, p: Pid, now: int)
    requires p in s.procs && s.procs[p].pc.Deriving? && s.procs[p].pc.rest.Stop?
    ensures IsEnded(s, Steps(c, s, p, now, 3), p, s.procs[p].replica, s.procs[p].pc.id)
    ensures LeftIndexOf(s, Steps(c, s, p, now, 3), s.procs[p].pc.id, Told(s, s.procs[p].pc.id))
  {
    hide Step, Told;
    DerivingMoves(c, s, p, now);
    StepsOn(c, s, p, now, 2);
    var t := Moved(c, s, p, now);
    if t.procs[p].pc.Unindexing? {
      UnindexAlone(c, t, p, now);
    } else {
      RemoveAlone(c, t, p, now);
      assert Steps(c, t, p, now, 1) == Step(c, Steps(c, t, p, now, 0), Move(p, now, [], false)) == Moved(c, t, p, now);
      Enough(c, t, p, now, 1, 2);
    }
    hide Steps;
  }

  /** A delete ends its session, and takes it out of the index of its account and of no other, whatever was held of it. */
  lemma DeleteAlone(c: Limits, s: State, p: Pid, now: int)
    requires p in s.procs && s.procs[p].pc.Deleting? && s.procs[p].pc.rest.Stop?
    ensures var q, t := s.procs[p], Steps(c, s, p, now, 4);
            IsEnded(s, t, p, q.replica, q.pc.id) && LeftIndexOf(s, t, q.pc.id, AccountOf(s, q.pc.own, q.pc.id))
  {
    hide Step, Steps, Told;
    DeletingMoves(c, s, p, now);
    StepsOn(c, s, p, now, 3);
    var t := Moved(c, s, p, now);
    if t.procs[p].pc.Unindexing? {
      UnindexAlone(c, t, p, now);
      Enough(c, t, p, now, 2, 3);
    } else {
      DeriveAlone(c, t, p, now);
    }
  }

  /** There is a session, used within its time to live, and it opens or this process still has its pool. */
  predicate IsLive(c: Limits, s: State, r: Replica, id: Id, now: int) {
    HasSession(s, id) && now - LastUse(s, id) <= c.ttlMs && ((r, id) in s.live || s.hashes[id].payload.value.opens)
  }

  /** Returned: its last use is now, in its hash and in the index of its account, and nothing else changed. */
  ghost predicate IsReturned(s: State, t: State, p: Pid, r: Replica, id: Id, now: int)
    requires HasSession(s, id)
  {
    var identity := if (r, id) in s.live then s.live[(r, id)] else s.hashes[id].payload.value.account;
    && p in t.procs && t.procs[p].pc.Done?
    && t.hashes == s.hashes[id := s.hashes[id].(at := Some(now), identity := Some(identity))]
    && t.indexes == s.indexes[identity := Members(s, identity)[id := now]] && t.live == s.live[(r, id) := identity]
    && t.log == s.log + [InTime(p, id, LastUse(s, id), now), Returned(p, id)]
  }

  lemma PayloadMoves(c: Limits, s: State, p: Pid, id: Id, now: int)
    requires p in s.procs && s.procs[p].pc == GetPayload(id)
    ensures var q, t := s.procs[p], Moved(c, s, p, now);
            t == if HasSession(s, id) then Goto(s, p, q, GetAt(id, s.hashes[id].payload.value))
                 else BeginDeleteAt(s, p, q, id, Stop, NoPayload)
  {
    hide DeleteStep, SweepStep, LimitStep, HasSession;
  }

  lemma SlideMoves(c: Limits, s: State, p: Pid, id: Id, identity: Identity, now: int)
    requires p in s.procs && s.procs[p].pc == Sliding(id, identity, now) && HasSession(s, id)
    ensures Moved(c, s, p, now) == Goto(Slide(s, id, identity, now).(log := s.log + [Returned(p, id)]), p, s.procs[p], Done)
  {
    hide DeleteStep, SweepStep, LimitStep, HasSession, Slide;
  }

  /** A get whose session went while it was looked at gives nothing back, keeps no pool of it, and brings nothing back. */
  lemma GoneMeanwhile(c: Limits, s: State, p: Pid, id: Id, identity: Identity, at: int, now: int)
    requires p in s.procs && s.procs[p].pc == Sliding(id, identity, at) && !HasSession(s, id)
    ensures var r, t := s.procs[p].replica, Moved(c, s, p, now);
            && p in t.procs && t.procs[p].pc.Done? && t.log == s.log && t.live == s.live - {(r, id)}
            && t.hashes == s.hashes && t.indexes == s.indexes
  {
    hide DeleteStep, SweepStep, LimitStep, HasSession, Slide;
  }

  lemma FoundMoves(c: Limits, s: State, p: Pid, id: Id, now: int)
    requires p in s.procs && HasSession(s, id) && s.procs[p].pc == GetAt(id, s.hashes[id].payload.value)
    requires IsLive(c, s, s.procs[p].replica, id, now)
    ensures IsReturned(s, Steps(c, s, p, now, 2), p, s.procs[p].replica, id, now)
  {
    var q := s.procs[p];
    var r := q.replica;
    var identity := if (r, id) in s.live then s.live[(r, id)] else s.hashes[id].payload.value.account;
    var t := Moved(c, s, p, now);
    assert t == Goto(s.(log := s.log + [InTime(p, id, LastUse(s, id), now)], live := s.live[(r, id) := identity]),
                     p, q, Sliding(id, identity, now));
    SlideMoves(c, t, p, id, identity, now);
    StepsOn(c, s, p, now, 1);
    hide Step, MoveStep;
  }

  lemma NotLiveMoves(c: Limits, s: State, p: Pid, id: Id, now: int)
    requires p in s.procs && HasSession(s, id) && s.procs[p].pc == GetAt(id, s.hashes[id].payload.value)
    requires !IsLive(c, s, s.procs[p].replica, id, now)
    ensures var q, t := s.procs[p], Moved(c, s, p, now);
            exists why :: t == BeginDeleteAt(s, p, q, id, Stop, why)
  {
    hide DeleteStep, SweepStep, LimitStep;
    var why := if now - LastUse(s, id) > c.ttlMs then TooOld(LastUse(s, id), now) else Unopenable(s.hashes[id].payload.value);
    assert Moved(c, s, p, now) == BeginDeleteAt(s, p, s.procs[p], id, Stop, why);
  }

  /**
   * A get that nothing comes between returns the session exactly where it is live, with its last use now; else it ends
   * whatever was left of it, and returns nothing.
   */
  lemma GetReturnsExactlyTheLive(c: Limits, s: State, p: Pid, r: Replica, id: Id, now: int)
    requires p !in s.procs
    ensures var t := Steps(c, Step(c, s, BeginGet(p, r, id)), p, now, 6);
            if IsLive(c, s, r, id, now) then IsReturned(s, t, p, r, id, now)
            else IsEnded(s, t, p, r, id)
  {
    var b := Step(c, s, BeginGet(p, r, id));
    assert b == s.(procs := s.procs[p := Proc(r, GetPayload(id))]);
    PayloadMoves(c, b, p, id, now);
    var t := Moved(c, b, p, now);
    hide Step, Steps, MoveStep, IsReturned, IsEnded;
    StepsOn(c, b, p, now, 5);
    SameBegun(c, s, b, r, id, now);
    if !HasSession(s, id) {
      EndsAlone(c, b, t, p, id, NoPayload, now, 5);
    } else if IsLive(c, s, r, id, now) {
      FoundMoves(c, t, p, id, now);
      Enough(c, t, p, now, 2, 5);
    } else {
      NotLiveMoves(c, t, p, id, now);
      var u := Moved(c, t, p, now);
      StepsOn(c, t, p, now, 4);
      var why :| u == BeginDeleteAt(t, p, t.procs[p], id, Stop, why);
      EndsAlone(c, t, u, p, id, why, now, 4);
    }
  }

  /** The beginning of a call changes nothing that matters for it. */
  lemma SameBegun(c: Limits, s: State, b: State, r: Replica, id: Id, now: int)
    requires b == s.(procs := b.procs)
    ensures IsLive(c, b, r, id, now) <==> IsLive(c, s, r, id, now)
    ensures HasSession(b, id) <==> HasSession(s, id)
    ensures forall t, p :: IsEnded(b, t, p, r, id) ==> IsEnded(s, t, p, r, id)
    ensures forall t, p :: HasSession(s, id) && IsReturned(b, t, p, r, id, now) ==> IsReturned(s, t, p, r, id, now)
  {
  }

  /** A session just created is live for every process until its time to live is over, and in its account's index. */
  lemma NewSessionIsLive(c: Limits, s: State, p: Pid, r: Replica, id: Id, identity: Identity, now: int, keepOthers: bool,
                         other: Replica, later: int)
    requires p !in s.procs && id !in s.known && Tracked(s)
    ensures var t := Step(c, s, Create(p, r, id, identity, now, keepOthers));
            && (IsLive(c, t, other, id, later) <==> later - now <= c.ttlMs)
            && t.hashes == s.hashes[id := t.hashes[id]] && t.hashes[id].payload.value.account == identity
            && t.indexes == s.indexes[identity := Members(s, identity)[id := now]]
  {
  }

  /** The index of an account loses exactly the members last used longer ago than the time to live. */
  lemma TrimTakesExactlyTheOld(c: Limits, s: State, p: Pid, now: int, order: seq<Id>, fails: bool)
    requires p in s.procs && s.procs[p].pc.Trimming?
    ensures var t, identity := Step(c, s, Move(p, now, order, fails)), s.procs[p].pc.identity;
            && (forall id :: id in Members(t, identity) <==>
                  id in Members(s, identity) && now - Members(s, identity)[id] < c.ttlMs)
            && (forall other :: other != identity ==> Members(t, other) == Members(s, other))
            && t.hashes == s.hashes
  {
    hide GetStep, DeleteStep, SweepStep;
  }

  /** And exactly those whose session was answered for with no. */
  lemma DropTakesExactlyTheStale(c: Limits, s: State, p: Pid, now: int, order: seq<Id>, fails: bool)
    requires p in s.procs && s.procs[p].pc.Dropping? && |s.procs[p].pc.replies| == |s.procs[p].pc.members|
    ensures var t, pc := Step(c, s, Move(p, now, order, fails)), s.procs[p].pc;
            forall id :: id in Members(t, pc.identity) <==>
              id in Members(s, pc.identity)
              && forall i :: 0 <= i < |pc.members| && pc.members[i] == id ==> pc.replies[i] != Some(false)
  {
    StaleAre(s.procs[p].pc.members, s.procs[p].pc.replies);
    hide GetStep, DeleteStep, SweepStep, Stale, StillHeld, Victims;
  }

  lemma {:induction false} StaleAre(members: seq<Id>, replies: seq<Option<bool>>)
    requires |members| == |replies|
    ensures forall id :: id in Stale(members, replies) <==>
              exists i :: 0 <= i < |members| && members[i] == id && replies[i] == Some(false)
  {
    if members != [] {
      var ms, rs := members[1..], replies[1..];
      StaleAre(ms, rs);
      forall id ensures id in Stale(members, replies) <==>
                          exists i :: 0 <= i < |members| && members[i] == id && replies[i] == Some(false) {
        if id in Stale(ms, rs) {
          var i :| 0 <= i < |ms| && ms[i] == id && rs[i] == Some(false);
          assert members[i + 1] == id && replies[i + 1] == Some(false);
        }
        if i: nat :| i < |members| && members[i] == id && replies[i] == Some(false) {
          if i > 0 { assert ms[i - 1] == id && rs[i - 1] == Some(false); }
        }
      }
    }
  }

  /** A sweep looks at one session of this process: gone, its pool is closed; too old, it is ended; else left alone. */
  lemma SweepTakesExactly(c: Limits, s: State, p: Pid, now: int, order: seq<Id>, fails: bool)
    requires p in s.procs && s.procs[p].pc.Sweeping? && s.procs[p].pc.ids != []
    ensures var t, r, ids := Step(c, s, Move(p, now, order, fails)), s.procs[p].replica, s.procs[p].pc.ids;
            var id := ids[0];
            && t.hashes == s.hashes && t.indexes == s.indexes
            && t.live == (if id in s.hashes && s.hashes[id].at.Some? then s.live else s.live - {(r, id)})
            && (t.procs[p].pc.Deleting? <==> id in s.hashes && s.hashes[id].at.Some? && now - s.hashes[id].at.value > c.ttlMs)
            && (t.procs[p].pc.Deleting? ==> t.procs[p].pc.id == id && t.procs[p].pc.rest == SweepOn(ids[1..]))
            && (!t.procs[p].pc.Deleting? ==> t.procs[p].pc == Sweeping(ids[1..]))
  {
    hide GetStep, DeleteStep, LimitStep;
  }

  /** The account limit is enforced on a new session's account, unless the others are to be kept for now. */
  lemma CreateEnforcesTheLimit(c: Limits, s: State, p: Pid, r: Replica, id: Id, identity: Identity, now: int, keepOthers: bool)
    requires p !in s.procs && id !in s.known
    ensures var t := Step(c, s, Create(p, r, id, identity, now, keepOthers));
            t.procs[p].pc == if keepOthers then Done else Trimming(identity, id)
  {
  }

  /** Once a delete has begun, it comes to its end. */
  lemma EndsAlone(c: Limits, s: State, t: State, p: Pid, id: Id, why: Why, now: int, n: nat)
    requires p in s.procs && t == BeginDeleteAt(s, p, s.procs[p], id, Stop, why) && n >= 4
    ensures IsEnded(s, Steps(c, t, p, now, n), p, s.procs[p].replica, id)
  {
    DeleteAlone(c, t, p, now);
    Enough(c, t, p, now, 4, n);
    hide Steps;
    var u := Steps(c, t, p, now, n);
    assert u.log[|s.log|..] == [Ending(p, id, why)] + u.log[|t.log|..];
  }
}
