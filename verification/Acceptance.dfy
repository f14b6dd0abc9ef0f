/**
 * Which proofs the second factor accepts, what an accepted one leaves of the factor, and what a change makes of it: the
 * rules said outright, and proved of every request of every interleaving.
 */
module Acceptance {
  import opened Wrappers
  import opened Texts
  import opened SecondFactor
  import Codes = Totp

  // ---------------------------------------------------------------------------------------------------------------
  // The rules
  // ---------------------------------------------------------------------------------------------------------------

  const STEP_MS := 30000

  /** A code of six digits is right for a step not used yet, of which the moment is at most one step away. */
  ghost predicate IsStepOf(c: Crypto, f: Factor, code: string, at: nat, step: int) {
    && f.secret.Some? && step > f.lastStep
    && (step - 1) * STEP_MS <= at < (step + 2) * STEP_MS
    && Codes.SixDigits(Trim(code)) && c.codeFor(f.secret.value, step) == Trim(code)
  }

  ghost predicate Enrolled(f: Factor, id: string) {
    exists i :: 0 <= i < |f.passkeys| && f.passkeys[i].id == id
  }

  /** The proof is right for the factor at that moment, and uses up `spent`. */
  ghost predicate Right(c: Crypto, f: Factor, proof: Proof, login: bool, at: nat, spent: Spent) {
    match (proof, spent)
    case (Key(id, _, verified), UsedKey(used)) => used == id && verified && Enrolled(f, id)
    case (Code(code), Totp(secret, step)) =>
      f.secret == Some(secret) && IsStepOf(c, f, code, at, step) && forall n :: IsStepOf(c, f, code, at, n) ==> n >= step
    case (Code(code), Recovery(hash)) =>
      login && hash == c.hashOf(code) && hash in f.recoveryHashes && forall n :: !IsStepOf(c, f, code, at, n)
    case _ => false
  }

  /** Of what the factor was, only what was used up is different, and the misses are forgotten. */
  ghost predicate Leaves(f: Factor, proof: Proof, spent: Spent, next: Factor) {
    && next.misses == 0 && next.lastMissAt.None? && next.secret == f.secret
    && (spent.Totp? ==> next.lastStep == spent.step) && (!spent.Totp? ==> next.lastStep == f.lastStep)
    && (spent.Recovery? ==> AllBut(f.recoveryHashes, next.recoveryHashes, h => h == spent.hash))
    && (!spent.Recovery? ==> next.recoveryHashes == f.recoveryHashes)
    && (spent.UsedKey? ==>
          proof.Key? && |next.passkeys| == |f.passkeys|
          && forall i :: 0 <= i < |f.passkeys| ==>
               next.passkeys[i] == if f.passkeys[i].id == proof.id then Passkey(proof.id, proof.counter) else f.passkeys[i])
    && (!spent.UsedKey? ==> next.passkeys == f.passkeys)
  }

  /** Of a list, everything but what is gone, in the order it was. */
  ghost predicate AllBut<T(!new)>(list: seq<T>, rest: seq<T>, gone: T -> bool) {
    && (forall x :: multiset(rest)[x] == if gone(x) then 0 else multiset(list)[x])
    && Thins(list, rest)
  }

  /** What is left of a list when some of it is taken out. */
  ghost predicate Thins<T(!new)>(list: seq<T>, rest: seq<T>) {
    if list == [] then rest == []
    else Thins(list[1..], rest) || (rest != [] && rest[0] == list[0] && Thins(list[1..], rest[1..]))
  }

  /** What a change makes of the factor as it was, or of none. */
  ghost predicate Makes(change: Change, was: Option<Factor>, now: Option<Factor>) {
    match change
    case ConfirmTotp(secret, step, hashes) =>
      && now.Some? && now.value.secret == Some(secret) && now.value.lastStep == step
      && (was.None? ==> now.value.passkeys == [] && IsNew(now.value, hashes))
      && (was.Some? ==> now.value.passkeys == was.value.passkeys && SameAside(was.value, now.value))
    case ConfirmPasskey(key, hashes) =>
      && now.Some?
      && (was.None? ==> now.value.passkeys == [key] && now.value.secret.None? && now.value.lastStep == -1
                        && IsNew(now.value, hashes))
      && (was.Some? ==> now.value.passkeys == was.value.passkeys + [key] && SameSecret(was.value, now.value)
                        && SameAside(was.value, now.value))
    case RemoveAll => now.None?
    case RemoveTotp =>
      && (now.Some? <==> was.Some? && was.value.passkeys != [])
      && (now.Some? ==> now.value.secret.None? && now.value.lastStep == -1 && now.value.passkeys == was.value.passkeys
                        && SameAside(was.value, now.value))
    case RemovePasskey(id) =>
      && (now.Some? <==> was.Some? && (was.value.secret.Some? || exists k <- was.value.passkeys :: k.id != id))
      && (now.Some? ==> AllBut(was.value.passkeys, now.value.passkeys, (k: Passkey) => k.id == id)
                        && SameSecret(was.value, now.value) && SameAside(was.value, now.value))
  }

  ghost predicate IsNew(f: Factor, hashes: seq<string>) {
    f.recoveryHashes == hashes && f.misses == 0 && f.lastMissAt.None?
  }

  ghost predicate SameAside(was: Factor, now: Factor) {
    now.recoveryHashes == was.recoveryHashes && now.misses == was.misses && now.lastMissAt == was.lastMissAt
  }

  ghost predicate SameSecret(was: Factor, now: Factor) {
    now.secret == was.secret && now.lastStep == was.lastStep
  }

  // ---------------------------------------------------------------------------------------------------------------
  // A look and a change follow them
  // ---------------------------------------------------------------------------------------------------------------

  lemma StepsOfMoment(at: nat, step: int)
    ensures (step - 1) * STEP_MS <= at < (step + 2) * STEP_MS
       <==> Codes.StepAt(at) - 1 <= step <= Codes.StepAt(at) + 1
  {
    assert Codes.StepAt(at) == at / STEP_MS;
  }

  lemma StepIsFirst(c: Crypto, f: Factor, code: string, at: nat)
    requires f.secret.Some?
    ensures var r := Codes.RightStep(c.codeFor, f.secret.value, code, at, f.lastStep);
            && (r.Some? ==> IsStepOf(c, f, code, at, r.value) && forall n :: IsStepOf(c, f, code, at, n) ==> n >= r.value)
            && (r.None? ==> forall n :: !IsStepOf(c, f, code, at, n))
  {
    var now: int := Codes.StepAt(at);
    forall n ensures IsStepOf(c, f, code, at, n) ==> now - 1 <= n <= now + 1 { StepsOfMoment(at, n); }
    StepsOfMoment(at, now - 1);
    StepsOfMoment(at, now);
    StepsOfMoment(at, now + 1);
    hide Codes.StepAt, Codes.SixDigits, Trim;
  }

  lemma {:induction false} HashPicked(list: seq<string>, hash: string)
    ensures AllBut(list, WithoutHash(list, hash), h => h == hash)
  {
    if list != [] {
      HashPicked(list[1..], hash);
      PickOn(list, WithoutHash(list[1..], hash), h => h == hash);
    }
  }

  lemma {:induction false} KeyPicked(list: seq<Passkey>, id: string)
    ensures AllBut(list, WithoutKey(list, id), (k: Passkey) => k.id == id)
  {
    if list != [] {
      KeyPicked(list[1..], id);
      PickOn(list, WithoutKey(list[1..], id), (k: Passkey) => k.id == id);
    }
  }

  /** One more at the front, kept unless it goes. */
  lemma PickOn<T(!new)>(list: seq<T>, rest: seq<T>, gone: T -> bool)
    requires list != [] && AllBut(list[1..], rest, gone)
    ensures AllBut(list, (if gone(list[0]) then [] else [list[0]]) + rest, gone)
  {
    var front := if gone(list[0]) then [] else [list[0]];
    assert (front + rest)[|front|..] == rest;
    assert Thins(list, front + rest);
    assert list == [list[0]] + list[1..];
    assert multiset(list) == multiset{list[0]} + multiset(list[1..]);
    assert multiset(front + rest) == multiset(front) + multiset(rest);
    hide Thins;
    forall x ensures multiset(front + rest)[x] == if gone(x) then 0 else multiset(list)[x] {
      assert multiset(rest)[x] == if gone(x) then 0 else multiset(list[1..])[x];
    }
  }

  /** A look accepts exactly the proofs that are right, and leaves what such a proof leaves. */
  lemma LookIsRight(c: Crypto, f: Factor, proof: Proof, login: bool, at: nat)
    ensures var seen := Look(c, WithoutMisses(f), proof, login, at);
            && (seen.Some? ==> Right(c, f, proof, login, at, seen.value.1) && Leaves(f, proof, seen.value.1, seen.value.0))
            && (seen.None? ==> forall spent :: !Right(c, f, proof, login, at, spent))
  {
    var g := WithoutMisses(f);
    assert forall code, n :: IsStepOf(c, g, code, at, n) <==> IsStepOf(c, f, code, at, n);
    match proof
    case Code(code) =>
      if f.secret.Some? { StepIsFirst(c, g, code, at); }
      HashPicked(f.recoveryHashes, c.hashOf(code));
      hide IsStepOf, Codes.RightStep, AllBut;
    case Key(id, _, _) =>
      assert forall k <- f.passkeys :: exists i :: 0 <= i < |f.passkeys| && f.passkeys[i] == k;
  }

  lemma ApplyMakes(change: Change, was: Option<Factor>)
    ensures Makes(change, was, Apply(change, was))
  {
    if was.Some? && change.RemovePasskey? {
      KeyPicked(was.value.passkeys, change.id);
      KeysLeft(was.value.passkeys, change.id);
      hide AllBut;
    }
  }

  lemma KeysLeft(list: seq<Passkey>, id: string)
    ensures WithoutKey(list, id) != [] <==> exists k <- list :: k.id != id
  {
    KeyPicked(list, id);
    var rest := WithoutKey(list, id);
    assert forall k :: k in multiset(rest) <==> k in rest;
    assert forall k :: k in multiset(list) <==> k in list;
    if rest != [] { assert rest[0] in rest && rest[0] in list; }
  }

  // ---------------------------------------------------------------------------------------------------------------
  // In every run
  // ---------------------------------------------------------------------------------------------------------------

  function FactorOf(stored: Option<Stored>): Option<Factor> {
    if stored.None? then None else Some(stored.value.factor)
  }

  /** The same but for the misses counted. */
  ghost predicate Alike(f: Option<Factor>, g: Option<Factor>) {
    (f.Some? <==> g.Some?) && (f.Some? ==> WithoutMisses(f.value) == WithoutMisses(g.value))
  }

  /** The factor as the accepted proofs and the changes logged leave it. */
  function Standing(log: seq<Event>): Option<Factor> {
    if log == [] then None
    else
      var e := log[|log| - 1];
      if e.Accepted? then Some(e.use.after)
      else if e.Changed? then FactorOf(e.after)
      else Standing(log[..|log| - 1])
  }

  /** How many writes of a change were refused. */
  function Beatings(log: seq<Event>, p: Pid): nat {
    if log == [] then 0
    else Beatings(log[..|log| - 1], p) + (if log[|log| - 1] == Beaten(p) then 1 else 0)
  }

  lemma OneMore(log: seq<Event>, e: Event)
    ensures Standing(log + [e])
              == if e.Accepted? then Some(e.use.after) else if e.Changed? then FactorOf(e.after) else Standing(log)
    ensures forall p :: Beatings(log + [e], p) == Beatings(log, p) + if e == Beaten(p) then 1 else 0
  {
    assert (log + [e])[..|log + [e]| - 1] == log;
  }

  ghost predicate LookedAt(log: seq<Event>, p: Pid, at: nat) {
    exists e <- log :: e.Looked? && e.p == p && e.at == at
  }

  /** The request came with this proof. */
  predicate CameWith(s: State, p: Pid, proof: Proof, login: bool) {
    p in s.procs && s.procs[p].Try? && s.procs[p].proof == proof && s.procs[p].login == login
  }

  predicate CameFor(s: State, p: Pid, change: Change) {
    p in s.procs && s.procs[p].Changing? && s.procs[p].change == change
  }

  ghost predicate EventFits(c: Crypto, s: State, before: seq<Event>, e: Event) {
    match e
    case Accepted(p, spent, Use(proof, login, at, was, after)) =>
      && CameWith(s, p, proof, login) && LookedAt(before, p, at) && Alike(Standing(before), Some(was))
      && Right(c, was, proof, login, at, spent) && Leaves(was, proof, spent, after)
    case Changed(p, Some(change), read, _, after) =>
      && CameFor(s, p, change) && Makes(change, FactorOf(read), FactorOf(after))
      && (Enrols(change) ==> (read.Some? <==> |change.hashes| == 0))
      && (read.Some? ==> Alike(Standing(before), FactorOf(read)))
    case Changed(_, None, _, _, after) => after.None?
    case _ => true
  }

  ghost predicate ProcFits(c: Crypto, log: seq<Event>, p: Pid, q: Proc) {
    match q
    case Try(proof, login, Spending(reread, next, spent, at)) =>
      Right(c, reread.factor, proof, login, at, spent) && Leaves(reread.factor, proof, spent, next) && LookedAt(log, p, at)
    case Try(_, _, _) => true
    case Changing(change, attempt, cpc, _, _) =>
      && (cpc.Reading? || cpc.Writing? ==> Beatings(log, p) == attempt < CHANGE_ATTEMPTS)
      && (cpc.GaveUp? ==> Beatings(log, p) == CHANGE_ATTEMPTS)
      && (cpc.Writing? ==> Makes(change, FactorOf(cpc.read), cpc.next)
                           && (Enrols(change) ==> (cpc.read.Some? <==> |change.hashes| == 0)))
  }

  ghost predicate Fits(c: Crypto, s: State) {
    && Alike(Standing(s.log), FactorOf(s.stored))
    && (forall p <- s.procs :: ProcFits(c, s.log, p, s.procs[p]))
    && (forall k :: 0 <= k < |s.log| ==> EventFits(c, s, s.log[..k], s.log[k]))
    && (forall e <- s.log :: e.Beaten? ==> e.p in s.procs)
  }

  /** What another request does: nothing logged in this one's name. */
  lemma OthersFit(c: Crypto, log: seq<Event>, more: seq<Event>, p: Pid, q: Proc)
    requires ProcFits(c, log, p, q) && |more| <= 1 && (more != [] ==> more[0] != Beaten(p))
    ensures ProcFits(c, log + more, p, q)
  {
    hide Right, Leaves, Makes;
    if more == [] { assert log + more == log; } else { assert more == [more[0]]; OneMore(log, more[0]); }
    assert forall e <- log :: e in log + more;
  }

  /** Requests keep what they came with. */
  ghost predicate SameAsked(s: State, t: State) {
    forall p <- s.procs ::
      && p in t.procs && (s.procs[p].Try? <==> t.procs[p].Try?)
      && (s.procs[p].Try? ==> CameWith(t, p, s.procs[p].proof, s.procs[p].login))
      && (s.procs[p].Changing? ==> CameFor(t, p, s.procs[p].change))
  }

  lemma EventsFit(c: Crypto, s: State, t: State)
    requires SameAsked(s, t) && (forall k :: 0 <= k < |s.log| ==> EventFits(c, s, s.log[..k], s.log[k]))
    requires t.log == s.log || (|t.log| == |s.log| + 1 && t.log[..|s.log|] == s.log
                                && EventFits(c, t, s.log, t.log[|s.log|]))
    ensures forall k :: 0 <= k < |t.log| ==> EventFits(c, t, t.log[..k], t.log[k])
  {
    hide Right, Leaves, Makes, Standing, LookedAt;
    forall k | 0 <= k < |t.log| ensures EventFits(c, t, t.log[..k], t.log[k]) {
      if k < |s.log| {
        assert t.log[..k] == s.log[..k] && t.log[k] == s.log[k];
        assert EventFits(c, s, s.log[..k], s.log[k]);
      } else {
        assert t.log[..k] == s.log;
      }
    }
  }

  // ---------------------------------------------------------------------------------------------------------------
  // Each action
  // ---------------------------------------------------------------------------------------------------------------

  /** What a move of `p` logs, where the request then stands, and what is stored then. */
  ghost predicate MoveFits(c: Crypto, s: State, t: State, p: Pid, q: Proc)
    requires p in s.procs
  {
    && (t.log == s.log || (|t.log| == |s.log| + 1 && t.log[..|s.log|] == s.log
                           && EventFits(c, s, s.log, t.log[|s.log|])
                           && (t.log[|s.log|].Beaten? ==> t.log[|s.log|].p == p)))
    && ProcFits(c, t.log, p, q) && Alike(Standing(t.log), FactorOf(t.stored))
    && (s.procs[p].Try? ==> q.Try? && q.proof == s.procs[p].proof && q.login == s.procs[p].login)
    && (s.procs[p].Changing? ==> q.Changing? && q.change == s.procs[p].change)
  }

  lemma LookFits(c: Crypto, s: State, p: Pid)
    requires Inv(s) && Fits(c, s) && p in s.procs && s.procs[p].Try? && s.procs[p].pc.Fresh?
    ensures var (t, q) := TryStep(c, s, p, s.procs[p]); MoveFits(c, s, t, p, q)
  {
    var q := s.procs[p];
    var looked := Looked(p, q.pc.t, s.now);
    LookIsRight(c, q.pc.reread.factor, q.proof, q.login, s.now);
    OneMore(s.log, looked);
    hide Right, Leaves, Look, Inv, Standing;
    assert looked in s.log + [looked];
  }

  lemma SpendFits(c: Crypto, s: State, p: Pid)
    requires Inv(s) && Fits(c, s) && p in s.procs && s.procs[p].Try? && s.procs[p].pc.Spending?
    ensures var (t, q) := TryStep(c, s, p, s.procs[p]); MoveFits(c, s, t, p, q)
  {
    var q := s.procs[p];
    assert TrySound(s, p, q) && ProcFits(c, s.log, p, q);
    OneMore(s.log, Accepted(p, q.pc.spent, Use(q.proof, q.login, q.pc.at, q.pc.reread.factor, q.pc.next)));
    hide Right, Leaves, Inv, Standing;
  }

  lemma OtherTriesFit(c: Crypto, s: State, p: Pid)
    requires Inv(s) && Fits(c, s) && p in s.procs && s.procs[p].Try? && !s.procs[p].pc.Fresh? && !s.procs[p].pc.Spending?
    ensures var (t, q) := TryStep(c, s, p, s.procs[p]); MoveFits(c, s, t, p, q)
  {
    var q := s.procs[p];
    assert TrySound(s, p, q);
    if q.pc.Counting? { OneMore(s.log, Missed(p, q.pc.t)); }
    hide Inv, Standing;
  }

  lemma WriteFits(c: Crypto, s: State, p: Pid)
    requires Inv(s) && Fits(c, s) && p in s.procs && s.procs[p].Changing? && s.procs[p].cpc.Writing?
    ensures var (t, q) := ChangeStep(s, p, s.procs[p]); MoveFits(c, s, t, p, q)
  {
    var q := s.procs[p];
    assert ChangeSound(s, p, q) && ProcFits(c, s.log, p, q);
    hide Makes, Inv, Standing, Beatings, ChangeSound, TrySound, StoredSound;
    var t := ChangeStep(s, p, q).0;
    if t == s.(log := s.log + [Beaten(p)]) {
      OneMore(s.log, Beaten(p));
    } else {
      OneMore(s.log, Changed(p, Some(q.change), q.cpc.read, s.stored, t.stored));
    }
  }

  lemma OtherChangesFit(c: Crypto, s: State, p: Pid)
    requires Inv(s) && Fits(c, s) && p in s.procs && s.procs[p].Changing? && !s.procs[p].cpc.Writing?
    ensures var (t, q) := ChangeStep(s, p, s.procs[p]); MoveFits(c, s, t, p, q)
  {
    var q := s.procs[p];
    assert ProcFits(c, s.log, p, q);
    ApplyMakes(q.change, FactorOf(s.stored));
    hide Makes, Inv, Standing, Beatings;
  }

  lemma TryFits(c: Crypto, s: State, p: Pid)
    requires Inv(s) && Fits(c, s) && p in s.procs && s.procs[p].Try?
    ensures var (t, q) := TryStep(c, s, p, s.procs[p]); MoveFits(c, s, t, p, q) && t.procs == s.procs
  {
    MoveLogs(c, s, p);
    hide MoveFits, TryStep, Inv, Fits;
    if s.procs[p].pc.Fresh? { LookFits(c, s, p); }
    else if s.procs[p].pc.Spending? { SpendFits(c, s, p); }
    else { OtherTriesFit(c, s, p); }
  }

  lemma ChangeFits(c: Crypto, s: State, p: Pid)
    requires Inv(s) && Fits(c, s) && p in s.procs && s.procs[p].Changing?
    ensures var (t, q) := ChangeStep(s, p, s.procs[p]); MoveFits(c, s, t, p, q) && t.procs == s.procs
  {
    MoveLogs(c, s, p);
    hide MoveFits, ChangeStep, Inv, Fits;
    if s.procs[p].cpc.Writing? { WriteFits(c, s, p); } else { OtherChangesFit(c, s, p); }
  }

  lemma FitsAfterMove(c: Crypto, s: State, t: State, p: Pid, q: Proc)
    requires Fits(c, s) && p in s.procs && MoveFits(c, s, t, p, q) && t.procs == s.procs
    ensures Fits(c, t.(procs := s.procs[p := q]))
  {
    hide Standing, Beatings;
    var u := t.(procs := s.procs[p := q]);
    assert SameAsked(s, u);
    if t.log != s.log {
      assert t.log == s.log + [t.log[|s.log|]];
      AskedKept(c, s, u, s.log, t.log[|s.log|]);
    }
    EventsFit(c, s, u);
    forall x <- u.procs ensures ProcFits(c, u.log, x, u.procs[x]) {
      if x != p {
        OthersFit(c, s.log, t.log[|s.log|..], x, s.procs[x]);
        assert t.log == s.log + t.log[|s.log|..];
      }
    }
  }

  lemma AskedKept(c: Crypto, s: State, t: State, before: seq<Event>, e: Event)
    requires EventFits(c, s, before, e) && SameAsked(s, t)
    ensures EventFits(c, t, before, e)
  {
    hide Right, Leaves, Makes, Standing, LookedAt;
  }

  lemma NextFits(c: Crypto, s: State, t: State)
    requires Inv(s) && Fits(c, s) && Next(c, s, t)
    ensures Fits(c, t)
  {
    hide Inv, Fits;
    var a :| Step(c, s, a) == Some(t);
    match a
    case Move(p) =>
      if s.procs[p].Changing? { ChangeFits(c, s, p); } else { TryFits(c, s, p); }
      hide MoveFits, TryStep, ChangeStep;
      var step := if s.procs[p].Try? then TryStep(c, s, p, s.procs[p]) else ChangeStep(s, p, s.procs[p]);
      FitsAfterMove(c, s, step.0, p, step.1);
    case Reset(p) => ResetFits(c, s, p);
    case Tick(ms) => TickFits(c, s, ms);
    case BeginTry(p, proof, login) => BeginFits(c, s, p, Try(proof, login, Unread));
    case BeginChange(p, change) => BeginFits(c, s, p, Changing(change, 0, Reading, |s.log|, s.stored.None?));
  }

  lemma ResetFits(c: Crypto, s: State, p: Pid)
    requires Fits(c, s)
    ensures Fits(c, Step(c, s, Reset(p)).value)
  {
    hide Standing, Beatings, ProcFits;
    var t := Step(c, s, Reset(p)).value;
    var e := Changed(p, None, None, s.stored, None);
    OneMore(s.log, e);
    forall x <- t.procs ensures ProcFits(c, t.log, x, t.procs[x]) { OthersFit(c, s.log, [e], x, s.procs[x]); }
    EventsFit(c, s, t);
  }

  lemma TickFits(c: Crypto, s: State, ms: nat)
    requires Fits(c, s)
    ensures Fits(c, Step(c, s, Tick(ms)).value)
  {
    hide Standing, Beatings, ProcFits;
    EventsFit(c, s, Step(c, s, Tick(ms)).value);
  }

  lemma BeginFits(c: Crypto, s: State, p: Pid, q: Proc)
    requires Fits(c, s) && p !in s.procs
    requires (q.Try? && q.pc.Unread?) || (q.Changing? && q.cpc.Reading? && q.attempt == 0)
    ensures Fits(c, s.(procs := s.procs[p := q]))
  {
    hide Standing, Beatings;
    NeverBeaten(s.log, p);
    EventsFit(c, s, s.(procs := s.procs[p := q]));
  }

  lemma {:induction false} NeverBeaten(log: seq<Event>, p: Pid)
    requires forall e <- log :: e.Beaten? ==> e.p != p
    ensures Beatings(log, p) == 0
  {
    if log != [] {
      assert log[|log| - 1] in log;
      assert forall e <- log[..|log| - 1] :: e.Beaten? ==> e in log;
      NeverBeaten(log[..|log| - 1], p);
    }
  }

  lemma {:induction false} TraceFits(c: Crypto, tr: seq<State>, i: nat)
    requires IsTrace(c, tr) && i < |tr|
    ensures Fits(c, tr[i])
  {
    hide Inv, Next;
    if i > 0 {
      hide Fits;
      TraceFits(c, tr, i - 1);
      TraceInv(c, tr, i - 1);
      assert Next(c, tr[i - 1], tr[(i - 1) + 1]);
      NextFits(c, tr[i - 1], tr[i]);
    }
  }

  // ---------------------------------------------------------------------------------------------------------------
  // The theorems
  // ---------------------------------------------------------------------------------------------------------------

  /**
   * Over every run: whatever is accepted is the proof that request came with, right at the moment it was looked at for
   * the factor then standing, and leaves of it what such a proof leaves.
   */
  lemma AcceptedIsRight(c: Crypto, tr: seq<State>, i: nat, k: nat)
    requires IsTrace(c, tr) && i < |tr| && k < |tr[i].log| && tr[i].log[k].Accepted?
    ensures var e, before := tr[i].log[k], tr[i].log[..k];
            && CameWith(tr[i], e.p, e.use.proof, e.use.login) && LookedAt(before, e.p, e.use.at)
            && Alike(Standing(before), Some(e.use.before))
            && Right(c, e.use.before, e.use.proof, e.use.login, e.use.at, e.spent)
            && Leaves(e.use.before, e.use.proof, e.spent, e.use.after)
  {
    TraceFits(c, tr, i);
    assert EventFits(c, tr[i], tr[i].log[..k], tr[i].log[k]);
  }

  /** The moment a proof is looked at, it is refused exactly where nothing makes it right. */
  lemma RefusedExactlyWhereWrong(c: Crypto, s: State, p: Pid)
    requires p in s.procs && s.procs[p].Try? && s.procs[p].pc.Fresh?
    ensures var q, pc := s.procs[p], Step(c, s, Move(p)).value.procs[p].pc;
            && (pc.Refused? <==> forall spent :: !Right(c, q.pc.reread.factor, q.proof, q.login, s.now, spent))
            && (pc.Spending? <==> exists spent :: Right(c, q.pc.reread.factor, q.proof, q.login, s.now, spent))
            && (pc.Spending? ==> Right(c, q.pc.reread.factor, q.proof, q.login, s.now, pc.spent))
  {
    var q := s.procs[p];
    LookIsRight(c, q.pc.reread.factor, q.proof, q.login, s.now);
    hide Right, Look;
  }

  /** A right proof is then accepted exactly where the factor it was looked at against is still stored. */
  lemma PassesExactlyWhereStored(c: Crypto, s: State, p: Pid)
    requires Inv(s) && p in s.procs && s.procs[p].Try? && s.procs[p].pc.Spending?
    ensures var t := Step(c, s, Move(p)).value;
            && (t.procs[p].pc.Passed? <==> s.stored == Some(s.procs[p].pc.reread))
            && (t.procs[p].pc.Passed? ==> FactorOf(t.stored) == Some(s.procs[p].pc.next)
                                          && |t.log| == |s.log| + 1 && t.log[|s.log|].Accepted?)
            && (!t.procs[p].pc.Passed? ==> t.procs[p].pc.Refused? && t.stored == s.stored && t.log == s.log)
  {
    assert TrySound(s, p, s.procs[p]);
  }

  /** A spent step, hash or key determines each other: a proof uses up one thing. */
  lemma RightIsOne(c: Crypto, f: Factor, proof: Proof, login: bool, at: nat, x: Spent, y: Spent)
    requires Right(c, f, proof, login, at, x) && Right(c, f, proof, login, at, y)
    ensures x == y
  {
  }

  /** Over every run a change makes of the factor it read what was asked, and an enrolment finds what it expects. */
  lemma ChangesMakeWhatWasAsked(c: Crypto, tr: seq<State>, i: nat, k: nat)
    requires IsTrace(c, tr) && i < |tr| && k < |tr[i].log| && tr[i].log[k].Changed?
    ensures var e, before := tr[i].log[k], tr[i].log[..k];
            && (e.change.None? ==> e.after.None?)
            && (e.change.Some? ==>
                  && CameFor(tr[i], e.p, e.change.value) && Makes(e.change.value, FactorOf(e.read), FactorOf(e.after))
                  && (Enrols(e.change.value) ==> (e.read.Some? <==> |e.change.value.hashes| == 0))
                  && (e.read.Some? ==> Alike(Standing(before), FactorOf(e.read))))
  {
    TraceFits(c, tr, i);
    assert EventFits(c, tr[i], tr[i].log[..k], tr[i].log[k]);
  }

  /** What is stored is what the last accepted proof or change left, but for the misses: nothing else touches it. */
  lemma NothingElseChangesIt(c: Crypto, tr: seq<State>, i: nat)
    requires IsTrace(c, tr) && i < |tr|
    ensures Alike(Standing(tr[i].log), FactorOf(tr[i].stored))
  {
    TraceFits(c, tr, i);
  }

  /** A change gives up only after three writes, each on something else than it had read. */
  lemma GivesUpAfterThree(c: Crypto, tr: seq<State>, i: nat, p: Pid)
    requires IsTrace(c, tr) && i < |tr| && p in tr[i].procs && tr[i].procs[p].Changing? && tr[i].procs[p].cpc.GaveUp?
    ensures Beatings(tr[i].log, p) == 3
  {
    TraceFits(c, tr, i);
    assert ProcFits(c, tr[i].log, p, tr[i].procs[p]);
  }

  /** And such a write is refused exactly where that is so. */
  lemma BeatenExactlyWhereMoved(c: Crypto, s: State, p: Pid)
    requires Inv(s) && p in s.procs && s.procs[p].Changing? && s.procs[p].cpc.Writing?
    ensures var t, q := Step(c, s, Move(p)).value, s.procs[p].cpc;
            t.log == s.log + [Beaten(p)] <==> s.stored != q.read && (q.read.Some? || q.next.Some?)
  {
    assert ChangeSound(s, p, s.procs[p]);
    var t := Step(c, s, Move(p)).value;
    assert t.log == s.log + [t.log[|s.log|]];
  }
}
