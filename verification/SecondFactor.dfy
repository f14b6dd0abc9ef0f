/**
 * The second factor of one account: compare-and-set writes, and a proof that is counted before it is looked at.
 *
 * Requests from any number of processes interleave; each read or write of the store is one atomic action and the
 * clock only moves forward. A new random IV seals every write, so each has a version of its own: a counter here.
 */
module SecondFactor {
  import opened Wrappers
  import Codes = Totp

  type Pid = nat
  type Version = nat

  const MAX_MISSES := 10
  const LOCK_MS := 900000
  const CHANGE_ATTEMPTS := 3

  datatype Passkey = Passkey(id: string, counter: nat)

  /** `misses` is 0 and `lastMissAt` None while the source's optional fields are absent. */
  datatype Factor = Factor(secret: Option<string>, lastStep: int, passkeys: seq<Passkey>,
                           recoveryHashes: seq<string>, misses: nat, lastMissAt: Option<nat>)

  datatype Stored = Stored(factor: Factor, version: Version)

  // ---------------------------------------------------------------------------------------------------------------
  // The lock (second-factor-lock.ts)
  // ---------------------------------------------------------------------------------------------------------------

  /** The stored count, or 0 once the last miss is a whole lock ago. */
  function Recent(f: Factor, now: nat): nat {
    if f.lastMissAt.Some? && now - f.lastMissAt.value < LOCK_MS then f.misses else 0
  }

  /** What is left of the lock at `now`, in milliseconds. */
  function LockLeftMs(f: Factor, now: nat): int {
    if f.lastMissAt.None? || Recent(f, now) < MAX_MISSES then 0
    else
      var left := f.lastMissAt.value + LOCK_MS - now;
      if left > 0 then left else 0
  }

  function WithMiss(f: Factor, now: nat): Factor {
    f.(misses := Recent(f, now) + 1, lastMissAt := Some(now))
  }

  function WithoutMisses(f: Factor): Factor {
    f.(misses := 0, lastMissAt := None)
  }

  /** The account answers exactly when fewer than the limit of misses still count. */
  lemma LockedExactlyAtLimit(f: Factor, now: nat)
    ensures LockLeftMs(f, now) == 0 <==> Recent(f, now) < MAX_MISSES
  {
  }

  /** With nothing written meanwhile, the account answers again exactly when what is left of the lock is over. */
  lemma LockEndsExactly(f: Factor, now: nat, later: nat)
    requires now <= later
    ensures Recent(f, later) < MAX_MISSES <==> later >= now + LockLeftMs(f, now)
  {
  }

  // ---------------------------------------------------------------------------------------------------------------
  // Proofs and changes
  // ---------------------------------------------------------------------------------------------------------------

  /** One-time codes and recovery hashes, as the crypto library computes them. */
  datatype Crypto = Crypto(codeFor: (string, int) -> string, hashOf: string -> string)

  datatype Proof = Code(code: string) | Key(id: string, counter: nat, verified: bool)

  /** What an accepted proof used up. */
  datatype Spent = Totp(secret: string, step: int) | Recovery(hash: string) | UsedKey(id: string)

  function WithoutHash(hashes: seq<string>, hash: string): seq<string> {
    if hashes == [] then []
    else (if hashes[0] == hash then [] else [hashes[0]]) + WithoutHash(hashes[1..], hash)
  }

  function Counted(passkeys: seq<Passkey>, id: string, counter: nat): seq<Passkey> {
    seq(|passkeys|, i requires 0 <= i < |passkeys| => if passkeys[i].id == id then Passkey(id, counter) else passkeys[i])
  }

  /** What looking at a proof makes of the factor read back with its count cleared; None when it is refused. */
  function Look(c: Crypto, reread: Factor, proof: Proof, login: bool, now: nat): Option<(Factor, Spent)> {
    match proof
    case Key(id, counter, verified) =>
      if verified && exists k <- reread.passkeys :: k.id == id
      then Some((reread.(passkeys := Counted(reread.passkeys, id, counter)), UsedKey(id))) else None
    case Code(code) =>
      var step := if reread.secret.None? then None else Codes.RightStep(c.codeFor, reread.secret.value, code, now, reread.lastStep);
      if step.Some? then Some((reread.(lastStep := step.value), Totp(reread.secret.value, step.value)))
      // A recovery code lets its owner back in; it is no proof for changing what protects the account.
      else if login && c.hashOf(code) in reread.recoveryHashes
      then Some((reread.(recoveryHashes := WithoutHash(reread.recoveryHashes, c.hashOf(code))), Recovery(c.hashOf(code))))
      else None
  }

  /** What a confirmed or proven request changes; `hashes` are those of the recovery codes it handed out at its start. */
  datatype Change =
    | ConfirmTotp(secret: string, step: int, hashes: seq<string>)
    | ConfirmPasskey(key: Passkey, hashes: seq<string>)
    | RemoveAll
    | RemoveTotp
    | RemovePasskey(id: string)

  function WithoutKey(passkeys: seq<Passkey>, id: string): seq<Passkey> {
    if passkeys == [] then []
    else (if passkeys[0].id == id then [] else [passkeys[0]]) + WithoutKey(passkeys[1..], id)
  }

  predicate HasMethod(f: Factor) {
    f.secret.Some? || |f.passkeys| > 0
  }

  function Remaining(f: Factor): Option<Factor> {
    if HasMethod(f) then Some(f) else None
  }

  predicate Enrols(change: Change) {
    change.ConfirmTotp? || change.ConfirmPasskey?
  }

  /** An enrolment with recovery codes found a factor, or one without found none (`StaleEnrolment`). */
  predicate Stale(change: Change, current: Option<Factor>) {
    Enrols(change) && (current.Some? <==> |change.hashes| > 0)
  }

  function Apply(change: Change, current: Option<Factor>): Option<Factor> {
    match change
    case ConfirmTotp(secret, step, hashes) =>
      Some((if current.Some? then current.value else Factor(None, step, [], hashes, 0, None))
             .(secret := Some(secret), lastStep := step))
    case ConfirmPasskey(key, hashes) =>
      var base := if current.Some? then current.value else Factor(None, -1, [], hashes, 0, None);
      Some(base.(passkeys := base.passkeys + [key]))
    case RemoveAll => None
    case RemoveTotp =>
      if current.None? then None else Remaining(current.value.(secret := None, lastStep := -1))
    case RemovePasskey(id) =>
      if current.None? then None
      else Remaining(current.value.(passkeys := WithoutKey(current.value.passkeys, id)))
  }

  // ---------------------------------------------------------------------------------------------------------------
  // Requests
  // ---------------------------------------------------------------------------------------------------------------

  datatype TryPc =
    | Unread
    | Have(read: Stored)                          // the factor as read
    | Counting(read: Stored, t: nat)              // not locked at `t`; about to write the miss
    | CountedAt(t: nat)                           // the miss landed
    | Fresh(reread: Stored, t: nat)                // read again
    | Spending(reread: Stored, next: Factor, spent: Spent, at: nat) // found right at the moment `at`
    | Passed
    | Refused
    | Locked

  datatype ChangePc = Reading | Writing(read: Option<Stored>, next: Option<Factor>) | Landed | GaveUp | WasStale

  datatype Proc =
    | Try(proof: Proof, login: bool, pc: TryPc)
    | Changing(change: Change, attempt: nat, cpc: ChangePc, since: nat, empty: bool)
      // `since`: how much was logged when it began; `empty`: nothing was stored then

  /** What an accepted proof was: looked at `at` against the factor `before`, which it left as `after`. */
  datatype Use = Use(proof: Proof, login: bool, at: nat, before: Factor, after: Factor)

  datatype Event =
    | Missed(p: Pid, t: nat)                      // a miss landed, stamped `t`
    | Looked(p: Pid, t: nat, at: nat)             // the proof counted at `t` was looked at, at the moment `at`
    | Accepted(p: Pid, spent: Spent, use: Use)
    | Beaten(p: Pid)                              // a change found something else stored than it had read
    | Changed(p: Pid, change: Option<Change>, read: Option<Stored>, before: Option<Stored>, after: Option<Stored>)
      // `change` is None for an administrator's reset

  datatype State = State(stored: Option<Stored>, nextVersion: Version, now: nat, procs: map<Pid, Proc>, log: seq<Event>)

  const INIT := State(None, 0, 0, map[], [])

  datatype Action =
    | BeginTry(p: Pid, proof: Proof, login: bool)
    | BeginChange(p: Pid, change: Change)
    | Move(p: Pid)
    | Reset(p: Pid)                               // an administrator's reset clears without comparing
    | Tick(ms: nat)

  /** A compare-and-set that expects this version succeeds. */
  predicate SetLands(s: State, expected: Version) {
    s.stored.Some? && s.stored.value.version == expected
  }

  function Write(s: State, f: Factor): State {
    s.(stored := Some(Stored(f, s.nextVersion)), nextVersion := s.nextVersion + 1)
  }

  function TryStep(c: Crypto, s: State, p: Pid, q: Proc): (r: (State, Proc))
    requires q.Try?
  {
    match q.pc
    case Unread => (s, q.(pc := if s.stored.None? then Refused else Have(s.stored.value)))
    case Have(read) => (s, q.(pc := if LockLeftMs(read.factor, s.now) > 0 then Locked else Counting(read, s.now)))
    case Counting(read, t) =>
      if SetLands(s, read.version)
      then (Write(s, WithMiss(read.factor, t)).(log := s.log + [Missed(p, t)]), q.(pc := CountedAt(t)))
      else (s, q.(pc := Refused))
    case CountedAt(t) => (s, q.(pc := if s.stored.None? then Refused else Fresh(s.stored.value, t)))
    case Fresh(reread, t) =>
      var seen := Look(c, WithoutMisses(reread.factor), q.proof, q.login, s.now);
      (s.(log := s.log + [Looked(p, t, s.now)]),
       q.(pc := if seen.None? then Refused else Spending(reread, seen.value.0, seen.value.1, s.now)))
    case Spending(reread, next, spent, at) =>
      if SetLands(s, reread.version)
      then (Write(s, next).(log := s.log + [Accepted(p, spent, Use(q.proof, q.login, at, reread.factor, next))]),
            q.(pc := Passed))
      else (s, q.(pc := Refused))
    case _ => (s, q)
  }

  /** One pass of `changeFactor` that did not land: read again, a few times. */
  function Again(q: Proc): Proc
    requires q.Changing?
  {
    if q.attempt + 1 < CHANGE_ATTEMPTS then q.(attempt := q.attempt + 1, cpc := Reading) else q.(cpc := GaveUp)
  }

  function ChangeStep(s: State, p: Pid, q: Proc): (r: (State, Proc))
    requires q.Changing?
  {
    match q.cpc
    case Reading =>
      var current := if s.stored.None? then None else Some(s.stored.value.factor);
      if Stale(q.change, current) then (s, q.(cpc := WasStale))
      else (s, q.(cpc := Writing(s.stored, Apply(q.change, current))))
    case Writing(read, next) =>
      // Without a version, a factor is only created, never overwritten; but a removal goes through unchecked.
      var lands := if read.Some? then SetLands(s, read.value.version) else next.None? || s.stored.None?;
      if !lands then (s.(log := s.log + [Beaten(p)]), Again(q))
      else
        var t := if next.Some? then Write(s, next.value) else s.(stored := None);
        (t.(log := s.log + [Changed(p, Some(q.change), read, s.stored, t.stored)]), q.(cpc := Landed))
    case _ => (s, q)
  }

  function Step(c: Crypto, s: State, a: Action): Option<State> {
    match a
    case BeginTry(p, proof, login) =>
      if p in s.procs then None else Some(s.(procs := s.procs[p := Try(proof, login, Unread)]))
    case BeginChange(p, change) =>
      if p in s.procs then None
      else Some(s.(procs := s.procs[p := Changing(change, 0, Reading, |s.log|, s.stored.None?)]))
    case Move(p) =>
      if p !in s.procs then None
      else
        var step := if s.procs[p].Try? then TryStep(c, s, p, s.procs[p]) else ChangeStep(s, p, s.procs[p]);
        Some(step.0.(procs := s.procs[p := step.1]))
    case Reset(p) => Some(s.(stored := None, log := s.log + [Changed(p, None, None, s.stored, None)]))
    case Tick(ms) => Some(s.(now := s.now + ms))
  }

  // ---------------------------------------------------------------------------------------------------------------
  // Folds over what was logged
  // ---------------------------------------------------------------------------------------------------------------

  /** An accepted proof, or the removal of the factor: the count starts again. */
  predicate Clears(e: Event) {
    e.Accepted? || (e.Changed? && e.after.None?)
  }

  /** The stamps of the misses since the count last started again, oldest first. */
  function Trail(log: seq<Event>): seq<nat> {
    if log == [] then []
    else
      var before, e := Trail(log[..|log| - 1]), log[|log| - 1];
      if e.Missed? then before + [e.t] else if Clears(e) then [] else before
  }

  /** How many misses in a row, counting back from the last, came less than the lock apart. */
  function RunLength(ts: seq<nat>): nat {
    if |ts| == 0 then 0
    else if |ts| > 1 && ts[|ts| - 1] - ts[|ts| - 2] < LOCK_MS then RunLength(ts[..|ts| - 1]) + 1
    else 1
  }

  ghost predicate TrailSound(ts: seq<nat>) {
    && (forall i, j :: 0 <= i < j < |ts| ==> ts[i] <= ts[j])
    && (forall k :: 0 <= k <= |ts| ==> RunLength(ts[..k]) <= MAX_MISSES)
  }

  /** The count kept in the factor is the one the log gives. */
  ghost predicate CountSound(f: Factor, ts: seq<nat>, now: nat) {
    && TrailSound(ts)
    && (ts == [] ==> f.misses == 0 && f.lastMissAt.None?)
    && (ts != [] ==> f.lastMissAt == Some(ts[|ts| - 1]) && f.misses == RunLength(ts) && ts[|ts| - 1] <= now)
  }

  /** A miss written where fewer than the limit still count keeps the trail sound. */
  lemma MissKeepsCount(f: Factor, ts: seq<nat>, t: nat, now: nat)
    requires CountSound(f, ts, t) && Recent(f, t) < MAX_MISSES && t <= now
    ensures CountSound(WithMiss(f, t), ts + [t], now)
  {
    var next := ts + [t];
    assert next[..|next| - 1] == ts;
    assert RunLength(next) == Recent(f, t) + 1;
    hide RunLength;
    forall k | 0 <= k <= |next| ensures RunLength(next[..k]) <= MAX_MISSES {
      if k <= |ts| { assert next[..k] == ts[..k]; } else { assert next[..k] == next; }
    }
  }

  ghost predicate CloseBehind(ts: seq<nat>, i: int)
    requires 0 < i < |ts|
  {
    ts[i] < ts[i - 1] + LOCK_MS
  }

  /** A run is at least as long as the stretch of short gaps at its end. */
  lemma {:induction false} RunAtLeast(ts: seq<nat>, n: nat)
    requires n < |ts| && forall i :: |ts| - n <= i < |ts| ==> CloseBehind(ts, i)
    ensures RunLength(ts) >= n + 1
  {
    if n > 0 {
      var before := ts[..|ts| - 1];
      forall i | |before| - (n - 1) <= i < |before| ensures CloseBehind(before, i) { assert CloseBehind(ts, i); }
      assert CloseBehind(ts, |ts| - 1);
      RunAtLeast(before, n - 1);
    }
  }

  /** Any eleven misses in a row have a gap of at least the lock among them. */
  lemma GapAmongEleven(ts: seq<nat>, i: nat)
    requires TrailSound(ts) && i + MAX_MISSES < |ts|
    ensures exists j :: i < j <= i + MAX_MISSES && !CloseBehind(ts, j)
  {
    var head := ts[..i + MAX_MISSES + 1];
    assert RunLength(head) <= MAX_MISSES;
    if forall j :: i < j <= i + MAX_MISSES ==> CloseBehind(ts, j) {
      forall j | |head| - MAX_MISSES <= j < |head| ensures CloseBehind(head, j) { assert CloseBehind(ts, j); }
      RunAtLeast(head, MAX_MISSES);
      assert false;
    }
  }

  /** So they span at least the lock. */
  lemma ElevenSpanTheLock(ts: seq<nat>, i: nat)
    requires TrailSound(ts) && i + MAX_MISSES < |ts|
    ensures ts[i + MAX_MISSES] >= ts[i] + LOCK_MS
  {
    GapAmongEleven(ts, i);
    var j :| i < j <= i + MAX_MISSES && !CloseBehind(ts, j);
    assert ts[i] <= ts[j - 1] && ts[j] <= ts[i + MAX_MISSES];
  }

  // ---------------------------------------------------------------------------------------------------------------
  // The invariant
  // ---------------------------------------------------------------------------------------------------------------

  /** A factor read at a version: while that version is stored, it is what is stored. */
  ghost predicate ReadSound(s: State, read: Stored) {
    read.version < s.nextVersion && (s.stored.Some? && s.stored.value.version == read.version ==> s.stored.value == read)
  }

  ghost predicate LastMissBy(f: Factor, now: nat) {
    f.lastMissAt.Some? ==> f.lastMissAt.value <= now
  }

  ghost predicate HasMissed(log: seq<Event>, p: Pid, t: nat) {
    Missed(p, t) in log
  }

  ghost predicate NeverMissed(log: seq<Event>, p: Pid) {
    forall e <- log :: !(e.Missed? && e.p == p)
  }

  ghost predicate HasLooked(log: seq<Event>, p: Pid) {
    exists e <- log :: e.Looked? && e.p == p
  }

  ghost predicate NeverLooked(log: seq<Event>, p: Pid) {
    forall e <- log :: !(e.Looked? && e.p == p)
  }

  /** Installs a TOTP secret, takes it away, or takes the factor away. */
  predicate Reinstalls(e: Event) {
    e.Changed? && (e.before.None? || e.after.None? || e.change.None? || e.change.value.ConfirmTotp? || e.change.value.RemoveTotp?)
  }

  /** The step last used, by an accepted proof or by the confirmation that installed the secret. */
  function LastStep(log: seq<Event>): int {
    if log == [] then -1
    else
      var e := log[|log| - 1];
      if e.Accepted? && e.spent.Totp? then e.spent.step
      else if Reinstalls(e) && e.after.Some? then e.after.value.factor.lastStep
      else LastStep(log[..|log| - 1])
  }

  /** The recovery hashes used up since the factor was last removed. */
  function UsedHashes(log: seq<Event>): set<string> {
    if log == [] then {}
    else
      var before, e := UsedHashes(log[..|log| - 1]), log[|log| - 1];
      if e.Accepted? && e.spent.Recovery? then before + {e.spent.hash}
      else if e.Changed? && e.after.None? then {}
      else before
  }

  /** Whether a factor is stored. */
  function Present(log: seq<Event>): bool {
    if log == [] then false
    else if log[|log| - 1].Changed? then log[|log| - 1].after.Some?
    else Present(log[..|log| - 1])
  }

  ghost predicate SpentSound(next: Factor, read: Factor, spent: Spent) {
    match spent
    case Totp(secret, step) =>
      read.secret == Some(secret) && step > read.lastStep && next == WithoutMisses(read).(lastStep := step)
    case Recovery(hash) =>
      hash in read.recoveryHashes
      && next == WithoutMisses(read).(recoveryHashes := WithoutHash(read.recoveryHashes, hash))
    case UsedKey(_) =>
      next == WithoutMisses(read).(passkeys := next.passkeys) && |next.passkeys| == |read.passkeys|
  }

  ghost predicate TrySound(s: State, p: Pid, q: Proc)
    requires q.Try?
  {
    match q.pc
    case Unread => NeverMissed(s.log, p) && NeverLooked(s.log, p)
    case Have(read) =>
      && ReadSound(s, read) && LastMissBy(read.factor, s.now) && HasMethod(read.factor)
      && NeverMissed(s.log, p) && NeverLooked(s.log, p)
    case Counting(read, t) =>
      && ReadSound(s, read) && LastMissBy(read.factor, t) && HasMethod(read.factor)
      && t <= s.now && Recent(read.factor, t) < MAX_MISSES
      && NeverMissed(s.log, p) && NeverLooked(s.log, p)
    case CountedAt(t) => HasMissed(s.log, p, t) && NeverLooked(s.log, p)
    case Fresh(reread, t) =>
      HasMissed(s.log, p, t) && NeverLooked(s.log, p) && ReadSound(s, reread) && HasMethod(reread.factor)
    case Spending(reread, next, spent, _) =>
      HasLooked(s.log, p) && ReadSound(s, reread) && SpentSound(next, reread.factor, spent) && HasMethod(next)
    case _ => true
  }

  ghost predicate ChangeSound(s: State, p: Pid, q: Proc)
    requires q.Changing?
  {
    match q.cpc
    case Writing(read, next) =>
      && (read.Some? ==> ReadSound(s, read.value))
      && next == Apply(q.change, if read.Some? then Some(read.value.factor) else None)
      && (next.Some? ==> HasMethod(next.value))
      && (read.None? && next.Some? ==> next.value.misses == 0 && next.value.lastMissAt.None?)
    case _ => true
  }

  ghost predicate ProcSound(s: State, p: Pid, q: Proc) {
    if q.Try? then TrySound(s, p, q) else ChangeSound(s, p, q)
  }

  ghost predicate StoredSound(s: State) {
    && (s.stored.None? ==> Trail(s.log) == [] && UsedHashes(s.log) == {})
    && (s.stored.Some? <==> Present(s.log))
    && (s.stored.Some? ==>
          && s.stored.value.version < s.nextVersion
          && HasMethod(s.stored.value.factor)
          && CountSound(s.stored.value.factor, Trail(s.log), s.now)
          && (s.stored.value.factor.secret.Some? ==> s.stored.value.factor.lastStep == LastStep(s.log))
          && (forall h <- s.stored.value.factor.recoveryHashes :: h !in UsedHashes(s.log)))
  }

  ghost predicate Inv(s: State) {
    && StoredSound(s)
    && (forall p <- s.procs :: ProcSound(s, p, s.procs[p]))
    && (forall e <- s.log :: e.Missed? || e.Looked? ==> e.p in s.procs)
  }

  lemma LookSound(c: Crypto, read: Factor, proof: Proof, login: bool, now: nat)
    requires HasMethod(read) && Look(c, WithoutMisses(read), proof, login, now).Some?
    ensures var (next, spent) := Look(c, WithoutMisses(read), proof, login, now).value;
            SpentSound(next, read, spent) && HasMethod(next)
  {
  }

  lemma {:induction false} ApplySound(change: Change, read: Factor)
    requires Apply(change, Some(read)).Some?
    ensures var next := Apply(change, Some(read)).value;
            HasMethod(next) && next.misses == read.misses && next.lastMissAt == read.lastMissAt
            && next.recoveryHashes == read.recoveryHashes
            && (change.ConfirmPasskey? || change.RemovePasskey? ==>
                  next.secret == read.secret && next.lastStep == read.lastStep)
  {
  }

  lemma {:induction false} WithoutHashIs(hashes: seq<string>, hash: string)
    ensures forall h :: h in WithoutHash(hashes, hash) <==> h in hashes && h != hash
  {
    if hashes != [] {
      WithoutHashIs(hashes[1..], hash);
      assert hashes == [hashes[0]] + hashes[1..];
    }
  }

  /** What a process knows stays true when the clock moves, when others log, and when others write a new version. */
  ghost predicate Later(s: State, t: State, p: Pid) {
    && s.now <= t.now && s.nextVersion <= t.nextVersion
    && (t.stored == s.stored || t.stored.None? || t.stored.value.version == s.nextVersion < t.nextVersion)
    && (t.log == s.log || (|t.log| == |s.log| + 1 && t.log[..|s.log|] == s.log
                           && (t.log[|s.log|].Missed? || t.log[|s.log|].Looked? ==> t.log[|s.log|].p != p)))
  }

  lemma ReadKept(s: State, t: State, p: Pid, read: Stored)
    requires ReadSound(s, read) && Later(s, t, p)
    ensures ReadSound(t, read)
  {
  }

  lemma LogKept(s: State, t: State, p: Pid)
    requires Later(s, t, p)
    ensures NeverMissed(s.log, p) ==> NeverMissed(t.log, p)
    ensures NeverLooked(s.log, p) ==> NeverLooked(t.log, p)
    ensures HasLooked(s.log, p) ==> HasLooked(t.log, p)
    ensures forall ts :: HasMissed(s.log, p, ts) ==> HasMissed(t.log, p, ts)
  {
    if t.log != s.log { assert t.log == s.log + [t.log[|s.log|]]; }
  }

  lemma ProcKept(s: State, t: State, p: Pid, q: Proc)
    requires ProcSound(s, p, q) && Later(s, t, p)
    ensures ProcSound(t, p, q)
  {
    LogKept(s, t, p);
    if q.Try? {
      match q.pc
      case Have(read) => ReadKept(s, t, p, read);
      case Counting(read, _) => ReadKept(s, t, p, read);
      case Fresh(reread, _) => ReadKept(s, t, p, reread);
      case Spending(reread, _, _, _) => ReadKept(s, t, p, reread);
      case _ =>
    } else {
      match q.cpc
      case Writing(read, _) => if read.Some? { ReadKept(s, t, p, read.value); }
      case _ =>
    }
  }

  lemma TrailOfOne(log: seq<Event>, e: Event)
    ensures Trail(log + [e]) == if e.Missed? then Trail(log) + [e.t] else if Clears(e) then [] else Trail(log)
    ensures LastStep(log + [e])
              == if e.Accepted? && e.spent.Totp? then e.spent.step
                 else if Reinstalls(e) && e.after.Some? then e.after.value.factor.lastStep else LastStep(log)
    ensures UsedHashes(log + [e])
              == if e.Accepted? && e.spent.Recovery? then UsedHashes(log) + {e.spent.hash}
                 else if e.Changed? && e.after.None? then {} else UsedHashes(log)
    ensures Present(log + [e]) == if e.Changed? then e.after.Some? else Present(log)
  {
    assert (log + [e])[..|log + [e]| - 1] == log;
  }

  lemma CountingKeeps(c: Crypto, s: State, p: Pid)
    requires Inv(s) && p in s.procs && s.procs[p].Try? && s.procs[p].pc.Counting?
    ensures var (t, q) := TryStep(c, s, p, s.procs[p]);
            StoredSound(t) && TrySound(t, p, q)
  {
    var q := s.procs[p];
    assert TrySound(s, p, q);
    var read, t := q.pc.read, q.pc.t;
    if SetLands(s, read.version) {
      TrailOfOne(s.log, Missed(p, t));
      assert s.stored.value == read;
      MissKeepsCount(read.factor, Trail(s.log), t, s.now);
      assert (s.log + [Missed(p, t)])[|s.log|] in s.log + [Missed(p, t)];
    }
  }

  lemma SpendingKeeps(c: Crypto, s: State, p: Pid)
    requires Inv(s) && p in s.procs && s.procs[p].Try? && s.procs[p].pc.Spending?
    ensures var (t, q) := TryStep(c, s, p, s.procs[p]);
            StoredSound(t) && TrySound(t, p, q)
  {
    var q := s.procs[p];
    assert TrySound(s, p, q);
    var use := Use(q.proof, q.login, q.pc.at, q.pc.reread.factor, q.pc.next);
    TrailOfOne(s.log, Accepted(p, q.pc.spent, use));
    if SetLands(s, q.pc.reread.version) {
      assert s.stored.value == q.pc.reread;
      if q.pc.spent.Recovery? { WithoutHashIs(q.pc.reread.factor.recoveryHashes, q.pc.spent.hash); }
    }
  }

  lemma LookingKeeps(c: Crypto, s: State, p: Pid)
    requires Inv(s) && p in s.procs && s.procs[p].Try? && s.procs[p].pc.Fresh?
    ensures var (t, q) := TryStep(c, s, p, s.procs[p]);
            StoredSound(t) && TrySound(t, p, q)
  {
    var q := s.procs[p];
    assert TrySound(s, p, q);
    var looked := Looked(p, q.pc.t, s.now);
    TrailOfOne(s.log, looked);
    assert looked in s.log + [looked];
    if Look(c, WithoutMisses(q.pc.reread.factor), q.proof, q.login, s.now).Some? {
      LookSound(c, q.pc.reread.factor, q.proof, q.login, s.now);
    }
  }

  lemma TryKeeps(c: Crypto, s: State, p: Pid)
    requires Inv(s) && p in s.procs && s.procs[p].Try?
    ensures var (t, q) := TryStep(c, s, p, s.procs[p]);
            StoredSound(t) && TrySound(t, p, q)
  {
    assert TrySound(s, p, s.procs[p]);
    match s.procs[p].pc
    case Counting(_, _) => CountingKeeps(c, s, p);
    case Fresh(_, _) => LookingKeeps(c, s, p);
    case Spending(_, _, _, _) => SpendingKeeps(c, s, p);
    case Have(read) => LockedExactlyAtLimit(read.factor, s.now);
    case _ =>
  }

  lemma ReadingKeeps(s: State, p: Pid)
    requires Inv(s) && p in s.procs && s.procs[p].Changing? && s.procs[p].cpc.Reading?
    ensures ChangeSound(s, p, ChangeStep(s, p, s.procs[p]).1)
  {
    var q := s.procs[p];
    if s.stored.Some? && Apply(q.change, Some(s.stored.value.factor)).Some? {
      ApplySound(q.change, s.stored.value.factor);
    }
  }

  lemma WritingKeeps(s: State, p: Pid)
    requires Inv(s) && p in s.procs && s.procs[p].Changing? && s.procs[p].cpc.Writing?
    ensures StoredSound(ChangeStep(s, p, s.procs[p]).0)
  {
    var q := s.procs[p];
    assert ChangeSound(s, p, q);
    var t := ChangeStep(s, p, q).0;
    hide TrailSound, HasLooked;
    if t == s.(log := s.log + [Beaten(p)]) {
      TrailOfOne(s.log, Beaten(p));
    } else {
      TrailOfOne(s.log, Changed(p, Some(q.change), q.cpc.read, s.stored, t.stored));
      if q.cpc.read.Some? && q.cpc.next.Some? { ApplySound(q.change, q.cpc.read.value.factor); }
    }
  }

  lemma ChangeKeeps(s: State, p: Pid)
    requires Inv(s) && p in s.procs && s.procs[p].Changing?
    ensures var (t, q) := ChangeStep(s, p, s.procs[p]);
            StoredSound(t) && ChangeSound(t, p, q)
  {
    match s.procs[p].cpc
    case Reading => ReadingKeeps(s, p);
    case Writing(_, _) => WritingKeeps(s, p);
    case _ =>
  }

  /** What one process does is to the others a later moment. */
  lemma MoveIsLater(c: Crypto, s: State, p: Pid, q: Pid)
    requires p in s.procs && q != p && (s.stored.Some? ==> s.stored.value.version < s.nextVersion)
    ensures Later(s, if s.procs[p].Try? then TryStep(c, s, p, s.procs[p]).0 else ChangeStep(s, p, s.procs[p]).0, q)
  {
  }

  /** One process moves: what it did is sound, and so is what the others know. */
  lemma MoveKeepsInv(s: State, t: State, p: Pid, next: Proc)
    requires Inv(s) && p in s.procs && StoredSound(t) && ProcSound(t, p, next) && t.procs == s.procs
    requires forall q <- s.procs :: q != p ==> Later(s, t, q)
    requires t.log == s.log || (|t.log| == |s.log| + 1 && t.log[..|s.log|] == s.log
                                && (t.log[|s.log|].Missed? || t.log[|s.log|].Looked? ==> t.log[|s.log|].p == p))
    ensures Inv(t.(procs := s.procs[p := next]))
  {
    var u := t.(procs := s.procs[p := next]);
    forall q <- u.procs ensures ProcSound(u, q, u.procs[q]) {
      if q != p { ProcKept(s, u, q, s.procs[q]); } else { SameProc(t, u, p, next); }
    }
    if t.log != s.log { assert t.log == s.log + [t.log[|s.log|]]; }
  }

  lemma SameProc(t: State, u: State, p: Pid, q: Proc)
    requires ProcSound(t, p, q) && u == t.(procs := u.procs)
    ensures ProcSound(u, p, q)
  {
  }

  lemma MoveLogs(c: Crypto, s: State, p: Pid)
    requires p in s.procs
    ensures var t := if s.procs[p].Try? then TryStep(c, s, p, s.procs[p]).0 else ChangeStep(s, p, s.procs[p]).0;
            t.procs == s.procs
            && (t.log == s.log || (|t.log| == |s.log| + 1 && t.log[..|s.log|] == s.log
                                && (t.log[|s.log|].Missed? || t.log[|s.log|].Looked? ==> t.log[|s.log|].p == p)))
  {
  }

  lemma ProcStepKeepsInv(c: Crypto, s: State, p: Pid)
    requires Inv(s) && p in s.procs
    ensures Inv(Step(c, s, Move(p)).value)
  {
    if s.procs[p].Try? { TryKeeps(c, s, p); } else { ChangeKeeps(s, p); }
    forall q <- s.procs | q != p
      ensures Later(s, if s.procs[p].Try? then TryStep(c, s, p, s.procs[p]).0 else ChangeStep(s, p, s.procs[p]).0, q)
    {
      MoveIsLater(c, s, p, q);
    }
    MoveLogs(c, s, p);
    var step := if s.procs[p].Try? then TryStep(c, s, p, s.procs[p]) else ChangeStep(s, p, s.procs[p]);
    MoveKeepsInv(s, step.0, p, step.1);
  }

  lemma StepKeepsInv(c: Crypto, s: State, a: Action)
    requires Inv(s) && Step(c, s, a).Some?
    ensures Inv(Step(c, s, a).value)
  {
    var t := Step(c, s, a).value;
    match a
    case Move(p) => ProcStepKeepsInv(c, s, p);
    case Reset(p) =>
      TrailOfOne(s.log, Changed(p, None, None, s.stored, None));
      forall q <- t.procs ensures ProcSound(t, q, t.procs[q]) { ProcKept(s, t, q, s.procs[q]); }
    case Tick(_) =>
      forall q <- t.procs ensures ProcSound(t, q, t.procs[q]) { ProcKept(s, t, q, s.procs[q]); }
    case BeginTry(p, _, _) => BeginKeepsInv(s, t, p);
    case BeginChange(p, _) => BeginKeepsInv(s, t, p);
  }

  lemma BeginKeepsInv(s: State, t: State, p: Pid)
    requires Inv(s) && p !in s.procs && p in t.procs && t == s.(procs := s.procs[p := t.procs[p]])
    requires t.procs[p].Try? ==> t.procs[p].pc.Unread?
    requires t.procs[p].Changing? ==> t.procs[p].cpc.Reading?
    ensures Inv(t)
  {
    forall q <- t.procs ensures ProcSound(t, q, t.procs[q]) {
      if q != p { SameProc(s, t, q, s.procs[q]); }
    }
  }

  // ---------------------------------------------------------------------------------------------------------------
  // Over every interleaving
  // ---------------------------------------------------------------------------------------------------------------

  ghost predicate Next(c: Crypto, s: State, t: State) {
    exists a :: Step(c, s, a) == Some(t)
  }

  ghost predicate IsTrace(c: Crypto, tr: seq<State>) {
    && |tr| > 0 && tr[0] == INIT
    && forall i :: 0 <= i < |tr| - 1 ==> Next(c, tr[i], tr[i + 1])
  }

  /** The state a reachable run is in. */
  ghost predicate Reachable(c: Crypto, s: State) {
    exists tr :: IsTrace(c, tr) && tr[|tr| - 1] == s
  }

  lemma NextKeepsInv(c: Crypto, s: State, t: State)
    requires Inv(s) && Next(c, s, t)
    ensures Inv(t)
  {
    var a :| Step(c, s, a) == Some(t);
    StepKeepsInv(c, s, a);
  }

  lemma {:induction false} TraceInv(c: Crypto, tr: seq<State>, i: nat)
    requires IsTrace(c, tr) && i < |tr|
    ensures Inv(tr[i])
  {
    if i > 0 {
      TraceInv(c, tr, i - 1);
      NextKeepsInv(c, tr[i - 1], tr[(i - 1) + 1]);
    }
  }

  /** The log only grows, by at most one event an action. */
  lemma NextExtendsLog(c: Crypto, s: State, t: State)
    requires Next(c, s, t)
    ensures t.log == s.log || (|t.log| == |s.log| + 1 && t.log[..|s.log|] == s.log)
  {
    var a :| Step(c, s, a) == Some(t);
  }

  /** Any beginning of the log is the log of an earlier state that satisfies the invariant. */
  lemma {:induction false} LogPrefix(c: Crypto, tr: seq<State>, i: nat, b: nat) returns (j: nat)
    requires IsTrace(c, tr) && i < |tr| && b <= |tr[i].log|
    ensures j <= i && tr[j].log == tr[i].log[..b] && Inv(tr[j])
  {
    if b == |tr[i].log| {
      TraceInv(c, tr, i);
      j := i;
    } else {
      NextExtendsLog(c, tr[i - 1], tr[(i - 1) + 1]);
      j := LogPrefix(c, tr, i - 1, b);
      assert tr[i - 1].log[..b] == tr[i].log[..b];
    }
  }

  /** The stamps of the misses in a stretch of the log. */
  function MissTimes(log: seq<Event>): seq<nat> {
    if log == [] then []
    else
      var before, e := MissTimes(log[..|log| - 1]), log[|log| - 1];
      if e.Missed? then before + [e.t] else before
  }

  ghost predicate NoClear(log: seq<Event>) {
    forall e <- log :: !Clears(e)
  }

  lemma {:induction false} TrailSplits(log: seq<Event>, more: seq<Event>)
    requires NoClear(more)
    ensures Trail(log + more) == Trail(log) + MissTimes(more)
  {
    if more == [] {
      assert log + more == log;
    } else {
      hide Trail;
      var before := more[..|more| - 1];
      TrailSplits(log, before);
      TrailOfOne(log + before, more[|more| - 1]);
      assert log + more == log + before + [more[|more| - 1]];
    }
  }

  /** How many of the stamps lie in the half-open window of the lock's length that starts at `w`. */
  function InWindow(ts: seq<nat>, w: nat): nat {
    if ts == [] then 0
    else InWindow(ts[..|ts| - 1], w) + (if w <= ts[|ts| - 1] < w + LOCK_MS then 1 else 0)
  }

  /** Sorted stamps, any eleven in a row spanning the lock: at most ten are in a window. */
  lemma {:induction false} WindowBound(ts: seq<nat>, w: nat, k: nat)
    requires forall i, j :: 0 <= i < j < |ts| ==> ts[i] <= ts[j]
    requires forall i :: 0 <= i && i + MAX_MISSES < |ts| ==> ts[i + MAX_MISSES] >= ts[i] + LOCK_MS
    requires k <= |ts| && (forall i :: 0 <= i < k ==> ts[i] < w) && (k < |ts| ==> w <= ts[k])
    ensures InWindow(ts, w) <= if |ts| - k < MAX_MISSES then |ts| - k else MAX_MISSES
  {
    if |ts| > 0 {
      var last := |ts| - 1;
      if k == |ts| {
        WindowBound(ts[..last], w, k - 1);
      } else {
        WindowBound(ts[..last], w, k);
        if last - k >= MAX_MISSES { assert ts[k + MAX_MISSES] <= ts[last]; }
      }
    }
  }

  lemma {:induction false} FirstAtLeast(ts: seq<nat>, w: nat) returns (k: nat)
    requires forall i, j :: 0 <= i < j < |ts| ==> ts[i] <= ts[j]
    ensures k <= |ts| && (forall i :: 0 <= i < k ==> ts[i] < w) && (k < |ts| ==> w <= ts[k])
  {
    k := 0;
    while k < |ts| && ts[k] < w
      invariant k <= |ts| && forall i :: 0 <= i < k ==> ts[i] < w
    {
      k := k + 1;
    }
  }

  lemma {:induction false} WindowOfTail(head: seq<nat>, tail: seq<nat>, w: nat)
    ensures InWindow(head + tail, w) == InWindow(head, w) + InWindow(tail, w)
  {
    if tail == [] {
      assert head + tail == head;
    } else {
      var n := |tail| - 1;
      WindowOfTail(head, tail[..n], w);
      assert (head + tail)[..|head + tail| - 1] == head + tail[..n];
    }
  }

  /**
   * However many requests race: in a stretch of the history with no accepted proof and no removal, at most ten misses
   * are counted in any half-open window of the lock's length.
   */
  lemma MissesInWindow(c: Crypto, tr: seq<State>, i: nat, a: nat, b: nat, w: nat)
    requires IsTrace(c, tr) && i < |tr| && a <= b <= |tr[i].log| && NoClear(tr[i].log[a..b])
    ensures InWindow(MissTimes(tr[i].log[a..b]), w) <= MAX_MISSES
  {
    var log := tr[i].log;
    var j := LogPrefix(c, tr, i, b);
    TrailSplits(log[..a], log[a..b]);
    assert log[..b] == log[..a] + log[a..b];
    var ts := Trail(log[..b]);
    if tr[j].stored.Some? {
      forall k | 0 <= k && k + MAX_MISSES < |ts| ensures ts[k + MAX_MISSES] >= ts[k] + LOCK_MS { ElevenSpanTheLock(ts, k); }
      var k := FirstAtLeast(ts, w);
      WindowBound(ts, w, k);
    }
    WindowOfTail(Trail(log[..a]), MissTimes(log[a..b]), w);
  }

  // ---------------------------------------------------------------------------------------------------------------
  // What every logged event says of the ones before it
  // ---------------------------------------------------------------------------------------------------------------

  ghost predicate EventSound(before: seq<Event>, e: Event) {
    match e
    case Missed(p, _) => NeverMissed(before, p)
    case Looked(p, t, _) => HasMissed(before, p, t) && NeverLooked(before, p)
    case Accepted(p, spent, _) =>
      && HasLooked(before, p)
      && (spent.Totp? ==> spent.step > LastStep(before))
      && (spent.Recovery? ==> spent.hash !in UsedHashes(before))
    case Changed(_, change, read, was, after) =>
      && (was.Some? <==> Present(before))
      && (read.Some? ==> was == read && change.Some?)
      && (read.Some? && after.Some? ==> Some(after.value.factor) == Apply(change.value, Some(read.value.factor)))
      && (read.None? && after.Some? ==> was.None?)
      && (after.Some? ==> HasMethod(after.value.factor))
    case Beaten(_) => true
  }

  ghost predicate LogSound(log: seq<Event>) {
    forall k :: 0 <= k < |log| ==> EventSound(log[..k], log[k])
  }

  lemma TryLogs(c: Crypto, s: State, p: Pid)
    requires Inv(s) && p in s.procs && s.procs[p].Try?
    ensures var t := TryStep(c, s, p, s.procs[p]).0;
            t.log == s.log || exists e :: t.log == s.log + [e] && EventSound(s.log, e)
  {
    var q := s.procs[p];
    assert TrySound(s, p, q);
    var t := TryStep(c, s, p, q).0;
    match q.pc
    case Counting(_, ts) => assert EventSound(s.log, Missed(p, ts));
    case Fresh(_, ts) => assert EventSound(s.log, Looked(p, ts, s.now));
    case Spending(reread, next, spent, at) =>
      if t.log != s.log { assert EventSound(s.log, Accepted(p, spent, Use(q.proof, q.login, at, reread.factor, next))); }
    case _ =>
  }

  lemma ChangeLogs(s: State, p: Pid)
    requires Inv(s) && p in s.procs && s.procs[p].Changing?
    ensures var t := ChangeStep(s, p, s.procs[p]).0;
            t.log == s.log || exists e :: t.log == s.log + [e] && EventSound(s.log, e)
  {
    var q := s.procs[p];
    assert ChangeSound(s, p, q);
    var t := ChangeStep(s, p, q).0;
    if q.cpc.Writing? && t == s.(log := s.log + [Beaten(p)]) {
      assert EventSound(s.log, Beaten(p));
    } else if q.cpc.Writing? && t.log != s.log {
      assert EventSound(s.log, Changed(p, Some(q.change), q.cpc.read, s.stored, t.stored));
    }
  }

  lemma NextLogsSoundly(c: Crypto, s: State, t: State)
    requires Inv(s) && Next(c, s, t) && LogSound(s.log)
    ensures LogSound(t.log)
  {
    var a :| Step(c, s, a) == Some(t);
    match a {
      case Move(p) => if s.procs[p].Try? { TryLogs(c, s, p); } else { ChangeLogs(s, p); }
      case Reset(p) => assert EventSound(s.log, Changed(p, None, None, s.stored, None));
      case _ =>
    }
    if t.log != s.log {
      forall k | 0 <= k < |t.log| ensures EventSound(t.log[..k], t.log[k]) {
        if k < |s.log| { assert t.log[..k] == s.log[..k]; } else { assert t.log[..k] == s.log; }
      }
    }
  }

  lemma {:induction false} LogIsSound(c: Crypto, tr: seq<State>, i: nat)
    requires IsTrace(c, tr) && i < |tr|
    ensures LogSound(tr[i].log)
  {
    hide Inv, EventSound, Next;
    if i > 0 {
      LogIsSound(c, tr, i - 1);
      TraceInv(c, tr, i - 1);
      NextLogsSoundly(c, tr[i - 1], tr[(i - 1) + 1]);
    }
  }

  lemma EventIsSound(c: Crypto, tr: seq<State>, i: nat, k: nat)
    requires IsTrace(c, tr) && i < |tr| && k < |tr[i].log|
    ensures EventSound(tr[i].log[..k], tr[i].log[k])
  {
    LogIsSound(c, tr, i);
  }

  /** A proof is counted before it is looked at, looked at once at most, and accepted only after that. */
  lemma CountedThenLookedAt(c: Crypto, tr: seq<State>, i: nat, k: nat)
    requires IsTrace(c, tr) && i < |tr| && k < |tr[i].log|
    ensures var log, e := tr[i].log, tr[i].log[k];
            && (e.Looked? ==> Missed(e.p, e.t) in log[..k] && forall j :: 0 <= j < k && log[j].Looked? ==> log[j].p != e.p)
            && (e.Accepted? ==> exists j :: 0 <= j < k && log[j].Looked? && log[j].p == e.p)
  {
    var log := tr[i].log;
    EventIsSound(c, tr, i, k);
    assert forall j :: 0 <= j < k ==> log[..k][j] == log[j];
    assert forall j :: 0 <= j < k ==> log[j] in log[..k];
    if log[k].Accepted? {
      var e :| e in log[..k] && e.Looked? && e.p == log[k].p;
      var j :| 0 <= j < k && log[..k][j] == e;
      assert log[j].Looked? && log[j].p == log[k].p;
    }
  }

  lemma {:induction false} LastStepGrows(log: seq<Event>, x: nat, y: nat)
    requires LogSound(log) && x <= y <= |log| && forall k :: x <= k < y ==> !Reinstalls(log[k])
    ensures LastStep(log[..x]) <= LastStep(log[..y])
  {
    hide HasLooked, HasMissed, NeverLooked, NeverMissed;
    if x < y {
      LastStepGrows(log, x, y - 1);
      assert EventSound(log[..y - 1], log[y - 1]);
      assert log[..y] == log[..y - 1] + [log[y - 1]];
      TrailOfOne(log[..y - 1], log[y - 1]);
    }
  }

  /**
   * From the write that installs a secret until it is replaced or removed, accepted steps strictly increase, over
   * logins and change proofs alike, starting above the step the installation was confirmed with: no code twice.
   */
  lemma StepsIncrease(c: Crypto, tr: seq<State>, i: nat, x: nat, y: nat)
    requires IsTrace(c, tr) && i < |tr| && x < y < |tr[i].log|
    requires forall k :: x < k < y ==> !Reinstalls(tr[i].log[k])
    requires tr[i].log[y].Accepted? && tr[i].log[y].spent.Totp?
    ensures var e, f := tr[i].log[x], tr[i].log[y];
            && (e.Accepted? && e.spent.Totp? ==> e.spent.step < f.spent.step)
            && (Reinstalls(e) && e.after.Some? ==> e.after.value.factor.lastStep < f.spent.step)
  {
    hide HasLooked, HasMissed, NeverLooked, NeverMissed;
    var log := tr[i].log;
    LogIsSound(c, tr, i);
    LastStepGrows(log, x + 1, y);
    assert log[..x + 1] == log[..x] + [log[x]];
    TrailOfOne(log[..x], log[x]);
    EventIsSound(c, tr, i, y);
  }

  /** Unless a change installs or takes away the secret, it keeps the secret and the step last used. */
  lemma OtherChangesKeepTheStep(c: Crypto, tr: seq<State>, i: nat, k: nat)
    requires IsTrace(c, tr) && i < |tr| && k < |tr[i].log| && tr[i].log[k].Changed? && !Reinstalls(tr[i].log[k])
    ensures var e := tr[i].log[k];
            e.after.value.factor.secret == e.before.value.factor.secret
            && e.after.value.factor.lastStep == e.before.value.factor.lastStep
  {
    hide HasLooked, HasMissed, NeverLooked, NeverMissed;
    var e := tr[i].log[k];
    EventIsSound(c, tr, i, k);
    if e.read.Some? { ApplySound(e.change.value, e.read.value.factor); }
  }

  lemma {:induction false} UsedStays(log: seq<Event>, x: nat, y: nat)
    requires x <= y <= |log| && forall k :: x <= k < y ==> !(log[k].Changed? && log[k].after.None?)
    ensures UsedHashes(log[..x]) <= UsedHashes(log[..y])
  {
    hide HasLooked, HasMissed, NeverLooked, NeverMissed;
    if x < y {
      UsedStays(log, x, y - 1);
      assert log[..y] == log[..y - 1] + [log[y - 1]];
      TrailOfOne(log[..y - 1], log[y - 1]);
    }
  }

  /** While the factor is not removed, a recovery hash is accepted at most once. */
  lemma RecoveryOnce(c: Crypto, tr: seq<State>, i: nat, x: nat, y: nat)
    requires IsTrace(c, tr) && i < |tr| && x < y < |tr[i].log|
    requires forall k :: x < k < y ==> !(tr[i].log[k].Changed? && tr[i].log[k].after.None?)
    requires tr[i].log[x].Accepted? && tr[i].log[x].spent.Recovery?
    requires tr[i].log[y].Accepted? && tr[i].log[y].spent.Recovery?
    ensures tr[i].log[x].spent.hash != tr[i].log[y].spent.hash
  {
    hide HasLooked, HasMissed, NeverLooked, NeverMissed;
    var log := tr[i].log;
    LogIsSound(c, tr, i);
    UsedStays(log, x + 1, y);
    assert log[..x + 1] == log[..x] + [log[x]];
    TrailOfOne(log[..x], log[x]);
    EventIsSound(c, tr, i, y);
  }

  /** A change of a factor that was read lands on exactly that stored version, and makes of it what was asked. */
  lemma ChangesLandOnWhatWasRead(c: Crypto, tr: seq<State>, i: nat, k: nat)
    requires IsTrace(c, tr) && i < |tr| && k < |tr[i].log| && tr[i].log[k].Changed? && tr[i].log[k].read.Some?
    ensures var e := tr[i].log[k];
            && e.before == e.read && e.change.Some?
            && (e.after.Some? ==> Some(e.after.value.factor) == Apply(e.change.value, Some(e.read.value.factor)))
  {
    EventIsSound(c, tr, i, k);
  }

  /** In every reachable state a stored factor has a secret or a passkey. */
  lemma StoredHasMethod(c: Crypto, tr: seq<State>, i: nat)
    requires IsTrace(c, tr) && i < |tr| && tr[i].stored.Some?
    ensures HasMethod(tr[i].stored.value.factor)
  {
    TraceInv(c, tr, i);
  }

  predicate Creates(e: Event) {
    e.Changed? && e.before.None? && e.after.Some?
  }

  lemma {:induction false} PresentStays(log: seq<Event>, x: nat, y: nat)
    requires x <= y <= |log| && Present(log[..x]) && forall k :: x <= k < y ==> !(log[k].Changed? && log[k].after.None?)
    ensures Present(log[..y])
  {
    if x < y {
      PresentStays(log, x, y - 1);
      assert log[..y] == log[..y - 1] + [log[y - 1]];
      TrailOfOne(log[..y - 1], log[y - 1]);
    }
  }

  /** Of racing first enrolments at most one lands: between two lies a removal. */
  lemma OneFirstEnrolment(c: Crypto, tr: seq<State>, i: nat, x: nat, y: nat)
    requires IsTrace(c, tr) && i < |tr| && x < y < |tr[i].log| && Creates(tr[i].log[x]) && Creates(tr[i].log[y])
    ensures exists k :: x < k < y && tr[i].log[k].Changed? && tr[i].log[k].after.None?
  {
    hide HasLooked, HasMissed, NeverLooked, NeverMissed;
    var log := tr[i].log;
    EventIsSound(c, tr, i, y);
    hide Present;
    if forall k :: x < k < y ==> !(log[k].Changed? && log[k].after.None?) {
      assert log[..x + 1] == log[..x] + [log[x]];
      TrailOfOne(log[..x], log[x]);
      PresentStays(log, x + 1, y);
      assert false;
    }
  }

  ghost predicate CreatedSince(log: seq<Event>, since: nat) {
    exists k :: since <= k < |log| && Creates(log[k])
  }

  /** A first enrolment begun while nothing was stored: until somebody creates a factor, nothing has stopped it. */
  ghost predicate EnrolSound(s: State, q: Proc) {
    q.Changing? && Enrols(q.change) && |q.change.hashes| > 0 && q.empty ==>
      && q.since <= |s.log|
      && (!CreatedSince(s.log, q.since) ==>
            s.stored.None? && (q.cpc.Reading? || (q.cpc.Writing? && q.cpc.read.None? && q.cpc.next.Some?)))
  }

  lemma EnrolKept(s: State, t: State, q: Proc)
    requires EnrolSound(s, q) && (t.log == s.log || (|t.log| == |s.log| + 1 && t.log[..|s.log|] == s.log))
    requires s.stored.None? && t.stored.Some? ==> |t.log| == |s.log| + 1 && Creates(t.log[|s.log|])
    ensures EnrolSound(t, q)
  {
    if q.Changing? && Enrols(q.change) && |q.change.hashes| > 0 && q.empty {
      if CreatedSince(s.log, q.since) {
        var k :| q.since <= k < |s.log| && Creates(s.log[k]);
        assert t.log[..|s.log|][k] == s.log[k];
        assert Creates(t.log[k]);
      } else if s.stored.None? && t.stored.Some? {
        assert Creates(t.log[|s.log|]);
      }
    }
  }

  /** What any one action does to what is stored shows in the log. */
  lemma NextShows(c: Crypto, s: State, t: State)
    requires Inv(s) && Next(c, s, t)
    ensures t.log == s.log || (|t.log| == |s.log| + 1 && t.log[..|s.log|] == s.log)
    ensures s.stored.None? && t.stored.Some? ==> |t.log| == |s.log| + 1 && Creates(t.log[|s.log|])
  {
    var a :| Step(c, s, a) == Some(t);
    NextExtendsLog(c, s, t);
  }

  lemma OwnStepEnrols(s: State, p: Pid)
    requires p in s.procs && s.procs[p].Changing? && EnrolSound(s, s.procs[p])
    ensures var (t, q) := ChangeStep(s, p, s.procs[p]); EnrolSound(t, q)
  {
    var q := s.procs[p];
    var (t, r) := ChangeStep(s, p, q);
    if Enrols(q.change) && |q.change.hashes| > 0 && q.empty {
      if CreatedSince(s.log, q.since) {
        var k :| q.since <= k < |s.log| && Creates(s.log[k]);
        assert Creates(t.log[k]);
      } else if t.log != s.log {
        assert Creates(t.log[|s.log|]);
      }
    }
  }

  lemma NextEnrols(c: Crypto, s: State, t: State)
    requires Inv(s) && Next(c, s, t) && forall p <- s.procs :: EnrolSound(s, s.procs[p])
    ensures forall p <- t.procs :: EnrolSound(t, t.procs[p])
  {
    hide Inv;
    var a :| Step(c, s, a) == Some(t);
    NextShows(c, s, t);
    forall p <- t.procs ensures EnrolSound(t, t.procs[p]) {
      if p !in s.procs {
      } else if a == Move(p) && s.procs[p].Changing? {
        OwnStepEnrols(s, p);
        assert EnrolSound(ChangeStep(s, p, s.procs[p]).0, t.procs[p]);
      } else {
        assert s.procs[p].Changing? ==> t.procs[p] == s.procs[p];
        if s.procs[p].Changing? { EnrolKept(s, t, s.procs[p]); }
      }
    }
  }

  lemma {:induction false} TraceEnrols(c: Crypto, tr: seq<State>, i: nat)
    requires IsTrace(c, tr) && i < |tr|
    ensures forall p <- tr[i].procs :: EnrolSound(tr[i], tr[i].procs[p])
  {
    hide Inv, EnrolSound, Next;
    if i > 0 {
      TraceEnrols(c, tr, i - 1);
      TraceInv(c, tr, i - 1);
      NextEnrols(c, tr[i - 1], tr[(i - 1) + 1]);
    }
  }

  /** And one does: a first enrolment begun while nothing was stored ends only once a factor has been created since. */
  lemma AFirstEnrolmentLands(c: Crypto, tr: seq<State>, i: nat, p: Pid)
    requires IsTrace(c, tr) && i < |tr| && p in tr[i].procs && tr[i].procs[p].Changing?
    requires Enrols(tr[i].procs[p].change) && |tr[i].procs[p].change.hashes| > 0 && tr[i].procs[p].empty
    requires !tr[i].procs[p].cpc.Reading? && !tr[i].procs[p].cpc.Writing?
    ensures CreatedSince(tr[i].log, tr[i].procs[p].since)
  {
    TraceEnrols(c, tr, i);
  }
}
