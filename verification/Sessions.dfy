/**
 * Sessions in Redis shared by several replicas (`RedisSessionStore`): each Redis command, script or MULTI is one atomic
 * step, the awaits between them interleave freely, and Redis may expire a key at any time. A session is a hash with a
 * payload; an account's index is a sorted set of session ids.
 */
module Sessions {
  import opened Wrappers

  type Id = string
  type Identity = string
  type Pid = nat
  type Replica = nat

  /** A sealed configuration: the account it is of, and whether it still opens under the store's key. */
  datatype Payload = Payload(account: Identity, opens: bool)

  /** A session's hash; versions before could leave one without a payload or an identity. */
  datatype Hash = Hash(payload: Option<Payload>, at: Option<int>, identity: Option<Identity>)

  /** What a call goes on with once a delete it began is over. */
  datatype Rest = Stop | SweepOn(ids: seq<Id>) | EvictOn(ids: seq<Id>)

  datatype Pc =
    | GetPayload(id: Id)
    | GetAt(id: Id, payload: Payload)
    | Sliding(id: Id, identity: Identity, now: int)
    | Deleting(id: Id, own: Option<Identity>, rest: Rest)     // `own`: the account of the pool this process holds
    | Deriving(id: Id, rest: Rest)
    | Unindexing(id: Id, identity: Identity, rest: Rest)
    | Removing(id: Id, rest: Rest)
    | Sweeping(ids: seq<Id>)
    | Trimming(identity: Identity, keep: Id)
    | Listing(identity: Identity, keep: Id)
    | Checking(identity: Identity, keep: Id, members: seq<Id>, replies: seq<Option<bool>>)
    | Dropping(identity: Identity, keep: Id, members: seq<Id>, replies: seq<Option<bool>>)
    | Evicting(ids: seq<Id>)
    | Done

  datatype Proc = Proc(replica: Replica, pc: Pc)

  /** Why a delete begins: what was read, or who asked. */
  datatype Why = NoPayload | TooOld(at: int, clock: int) | Unopenable(payload: Payload) | Asked | OverCap

  datatype Event =
    | InTime(p: Pid, id: Id, at: int, clock: int) // a get found the session used recently enough
    | Returned(p: Pid, id: Id)
    | Ending(p: Pid, id: Id, why: Why)           // a delete begins
    | Listed(p: Pid, identity: Identity, members: seq<Id>)
    | Limited(p: Pid, keep: Id, members: seq<Id>, replies: seq<Option<bool>>, victims: seq<Id>)
    | DroppedStale(ids: seq<Id>)

  /** `known` holds every id there ever was: new ones are drawn at random and never repeat. */
  datatype State = State(hashes: map<Id, Hash>, indexes: map<Identity, map<Id, int>>, known: set<Id>,
                         live: map<(Replica, Id), Identity>, procs: map<Pid, Proc>, log: seq<Event>)

  datatype Action =
    | Create(p: Pid, r: Replica, id: Id, identity: Identity, now: int, keepOthers: bool)
    | BeginGet(p: Pid, r: Replica, id: Id)
    | BeginDelete(p: Pid, r: Replica, id: Id)
    | BeginSweep(p: Pid, r: Replica, ids: seq<Id>)
    | BeginLimit(p: Pid, r: Replica, identity: Identity, keep: Id) // `enforceLimit` once the second factor has passed
    | Move(p: Pid, now: int, order: seq<Id>, fails: bool)
      // `order`: how the index lists its members; `fails`: the command's reply is an error
    | ExpireHash(id: Id)
    | ExpireIndex(identity: Identity)

  datatype Limits = Limits(ttlMs: nat, maxPerIdentity: nat)

  // ---------------------------------------------------------------------------------------------------------------
  // Redis
  // ---------------------------------------------------------------------------------------------------------------

  predicate HasSession(s: State, id: Id) {
    id in s.hashes && s.hashes[id].payload.Some?
  }

  function Members(s: State, identity: Identity): map<Id, int> {
    if identity in s.indexes then s.indexes[identity] else map[]
  }

  function WithMember(s: State, identity: Identity, id: Id, score: int): State {
    s.(indexes := s.indexes[identity := Members(s, identity)[id := score]])
  }

  function WithoutMembers(s: State, identity: Identity, ids: set<Id>): State {
    if identity in s.indexes then s.(indexes := s.indexes[identity := s.indexes[identity] - ids]) else s
  }

  function WithoutHash(s: State, id: Id): State {
    s.(hashes := s.hashes - {id})
  }

  /** SLIDE_SESSION. */
  function Slide(s: State, id: Id, identity: Identity, now: int): State {
    if !HasSession(s, id) then s
    else
      WithMember(s.(hashes := s.hashes[id := s.hashes[id].(at := Some(now), identity := Some(identity))]), identity, id, now)
  }

  // ---------------------------------------------------------------------------------------------------------------
  // The store
  // ---------------------------------------------------------------------------------------------------------------

  function Own(s: State, r: Replica, id: Id): Option<Identity> {
    if (r, id) in s.live then Some(s.live[(r, id)]) else None
  }

  function Goto(s: State, p: Pid, q: Proc, pc: Pc): State {
    s.(procs := s.procs[p := q.(pc := pc)])
  }

  function CloseLive(s: State, r: Replica, id: Id): State {
    s.(live := s.live - {(r, id)})
  }

  function BeginDeleteAt(s: State, p: Pid, q: Proc, id: Id, rest: Rest, why: Why): State {
    Goto(s.(log := s.log + [Ending(p, id, why)]), p, q, Deleting(id, Own(s, q.replica, id), rest))
  }

  /** What is read as the time of last use; 0 where the field is missing. */
  function LastUse(s: State, id: Id): int {
    if id in s.hashes && s.hashes[id].at.Some? then s.hashes[id].at.value else 0
  }

  /** What follows a delete. */
  function GoOn(s: State, p: Pid, q: Proc, rest: Rest): State {
    match rest
    case Stop => Goto(s, p, q, Done)
    case SweepOn(ids) => Goto(s, p, q, Sweeping(ids))
    case EvictOn(ids) => Goto(s, p, q, Evicting(ids))
  }

  function StillHeld(members: seq<Id>, replies: seq<Option<bool>>): seq<Id> {
    if members == [] then []
    else
      var rest := StillHeld(members[1..], if replies == [] then [] else replies[1..]);
      if replies != [] && replies[0] == Some(false) then rest else [members[0]] + rest
  }

  function Stale(members: seq<Id>, replies: seq<Option<bool>>): seq<Id> {
    if members == [] then []
    else
      var rest := Stale(members[1..], if replies == [] then [] else replies[1..]);
      if replies != [] && replies[0] == Some(false) then [members[0]] + rest else rest
  }

  /**
   * `partitionByExistence`: a reply is Some(whether the payload exists), or None where the command failed. What is
   * stale was answered with no (`StaleGone`).
   */
  method PartitionByExistence(members: seq<Id>, replies: seq<Option<bool>>) returns (held: seq<Id>, stale: seq<Id>)
    ensures held == StillHeld(members, replies) && stale == Stale(members, replies)
  {
    held, stale := [], [];
    for i := 0 to |members|
      invariant var rest := if i <= |replies| then replies[i..] else [];
                held + StillHeld(members[i..], rest) == StillHeld(members, replies) &&
                stale + Stale(members[i..], rest) == Stale(members, replies)
    {
      assert members[i..][1..] == members[i + 1..];
      if i < |replies| { assert replies[i..][1..] == replies[i + 1..]; }
      if i < |replies| && replies[i] == Some(false) {
        stale := stale + [members[i]];
      } else {
        held := held + [members[i]];
      }
    }
  }

  /** The oldest sessions past the account's cap, the one just made not counted. */
  function Victims(held: seq<Id>, keep: Id, limit: nat): seq<Id> {
    var others := Others(held, keep);
    if |others| + 1 > limit then others[..if |others| + 1 - limit <= |others| then |others| + 1 - limit else |others|] else []
  }

  function Others(held: seq<Id>, keep: Id): seq<Id> {
    if held == [] then [] else (if held[0] == keep then [] else [held[0]]) + Others(held[1..], keep)
  }

  function GetStep(c: Limits, s: State, p: Pid, q: Proc, now: int): State
    requires q.pc.GetPayload? || q.pc.GetAt? || q.pc.Sliding?
  {
    match q.pc
    case GetPayload(id) =>
      if HasSession(s, id) then Goto(s, p, q, GetAt(id, s.hashes[id].payload.value))
      else BeginDeleteAt(s, p, q, id, Stop, NoPayload)
    case GetAt(id, payload) =>
      var at := LastUse(s, id);
      var noted := s.(log := s.log + [InTime(p, id, at, now)]);
      if now - at > c.ttlMs then BeginDeleteAt(s, p, q, id, Stop, TooOld(at, now))
      else if (q.replica, id) in s.live then Goto(noted, p, q, Sliding(id, s.live[(q.replica, id)], now))
      else if !payload.opens then BeginDeleteAt(s, p, q, id, Stop, Unopenable(payload))
      else Goto(noted.(live := s.live[(q.replica, id) := payload.account]), p, q, Sliding(id, payload.account, now))
    case Sliding(id, identity, at) =>
      if HasSession(s, id) then Goto(Slide(s, id, identity, at).(log := s.log + [Returned(p, id)]), p, q, Done)
      else Goto(CloseLive(s, q.replica, id), p, q, Done)
  }

  function DeleteStep(s: State, p: Pid, q: Proc): State
    requires q.pc.Deleting? || q.pc.Deriving? || q.pc.Unindexing? || q.pc.Removing?
  {
    match q.pc
    case Deleting(id, own, rest) =>
      if id in s.hashes && s.hashes[id].identity.Some? then Goto(s, p, q, Unindexing(id, s.hashes[id].identity.value, rest))
      else if own.Some? then Goto(s, p, q, Unindexing(id, own.value, rest))
      else Goto(s, p, q, Deriving(id, rest))
    case Deriving(id, rest) =>
      if HasSession(s, id) && s.hashes[id].payload.value.opens
      then Goto(s, p, q, Unindexing(id, s.hashes[id].payload.value.account, rest))
      else Goto(s, p, q, Removing(id, rest))
    case Unindexing(id, identity, rest) => Goto(WithoutMembers(s, identity, {id}), p, q, Removing(id, rest))
    case Removing(id, rest) => GoOn(CloseLive(WithoutHash(s, id), q.replica, id), p, q, rest)
  }

  function SweepStep(c: Limits, s: State, p: Pid, q: Proc, ids: seq<Id>, now: int): State {
    if ids == [] then Goto(s, p, q, Done)
    else if ids[0] !in s.hashes || s.hashes[ids[0]].at.None?
    then Goto(CloseLive(s, q.replica, ids[0]), p, q, Sweeping(ids[1..]))
    else if now - s.hashes[ids[0]].at.value > c.ttlMs then BeginDeleteAt(s, p, q, ids[0], SweepOn(ids[1..]), TooOld(s.hashes[ids[0]].at.value, now))
    else Goto(s, p, q, Sweeping(ids[1..]))
  }

  function Expired(members: map<Id, int>, cutoff: int): set<Id> {
    set id | id in members && members[id] <= cutoff
  }

  /** An index as a range over it gives it: each member once, in the order of its score. */
  predicate IsByUse(members: map<Id, int>, order: seq<Id>) {
    && (forall id <- order :: id in members) && (forall id <- members :: id in order)
    && (forall i, j :: 0 <= i < j < |order| ==> order[i] != order[j])
    && forall i, j :: 0 <= i < j < |order| && order[i] in members && order[j] in members ==>
         members[order[i]] <= members[order[j]]
  }

  function LimitStep(c: Limits, s: State, p: Pid, q: Proc, now: int, order: seq<Id>, fails: bool): State
    requires q.pc.Trimming? || q.pc.Listing? || q.pc.Checking? || q.pc.Dropping? || q.pc.Evicting?
  {
    match q.pc
    case Trimming(identity, keep) =>
      Goto(WithoutMembers(s, identity, Expired(Members(s, identity), now - c.ttlMs)), p, q, Listing(identity, keep))
    case Listing(identity, keep) =>
      if IsByUse(Members(s, identity), order)
      then Goto(s.(log := s.log + [Listed(p, identity, order)]), p, q, Checking(identity, keep, order, []))
      else s
    case Checking(identity, keep, members, replies) =>
      if |replies| < |members|
      then Goto(s, p, q, Checking(identity, keep, members,
                                  replies + [if fails then None else Some(HasSession(s, members[|replies|]))]))
      else Goto(s, p, q, Dropping(identity, keep, members, replies))
    case Dropping(identity, keep, members, replies) =>
      var stale, victims := Stale(members, replies), Victims(StillHeld(members, replies), keep, c.maxPerIdentity);
      var t := if stale == [] then s
               else WithoutMembers(s, identity, set id | id in stale).(log := s.log + [DroppedStale(stale)]);
      Goto(t.(log := t.log + [Limited(p, keep, members, replies, victims)]), p, q, Evicting(victims))
    case Evicting(ids) =>
      if ids == [] then Goto(s, p, q, Done) else BeginDeleteAt(s, p, q, ids[0], EvictOn(ids[1..]), OverCap)
  }

  function MoveStep(c: Limits, s: State, p: Pid, q: Proc, now: int, order: seq<Id>, fails: bool): State {
    match q.pc
    case GetPayload(_) => GetStep(c, s, p, q, now)
    case GetAt(_, _) => GetStep(c, s, p, q, now)
    case Sliding(_, _, _) => GetStep(c, s, p, q, now)
    case Deleting(_, _, _) => DeleteStep(s, p, q)
    case Deriving(_, _) => DeleteStep(s, p, q)
    case Unindexing(_, _, _) => DeleteStep(s, p, q)
    case Removing(_, _) => DeleteStep(s, p, q)
    case Sweeping(ids) => SweepStep(c, s, p, q, ids, now)
    case Trimming(_, _) => LimitStep(c, s, p, q, now, order, fails)
    case Listing(_, _) => LimitStep(c, s, p, q, now, order, fails)
    case Checking(_, _, _, _) => LimitStep(c, s, p, q, now, order, fails)
    case Dropping(_, _, _, _) => LimitStep(c, s, p, q, now, order, fails)
    case Evicting(_) => LimitStep(c, s, p, q, now, order, fails)
    case Done => s
  }

  /** The MULTI of `create`: the hash and the index member appear together. */
  function Created(s: State, r: Replica, id: Id, identity: Identity, now: int): State {
    WithMember(s.(hashes := s.hashes[id := Hash(Some(Payload(identity, true)), Some(now), Some(identity))],
                  known := s.known + {id}, live := s.live[(r, id) := identity]),
               identity, id, now)
  }

  function Step(c: Limits, s: State, a: Action): State {
    match a
    case Create(p, r, id, identity, now, keepOthers) =>
      if id in s.known || p in s.procs then s
      else Goto(Created(s, r, id, identity, now), p, Proc(r, Done), if keepOthers then Done else Trimming(identity, id))
    case BeginGet(p, r, id) => if p in s.procs then s else Goto(s, p, Proc(r, Done), GetPayload(id))
    case BeginDelete(p, r, id) => if p in s.procs then s else BeginDeleteAt(s, p, Proc(r, Done), id, Stop, Asked)
    case BeginSweep(p, r, ids) => if p in s.procs then s else Goto(s, p, Proc(r, Done), Sweeping(ids))
    case BeginLimit(p, r, identity, keep) => if p in s.procs then s else Goto(s, p, Proc(r, Done), Trimming(identity, keep))
    case Move(p, now, order, fails) => if p in s.procs then MoveStep(c, s, p, s.procs[p], now, order, fails) else s
    case ExpireHash(id) => WithoutHash(s, id)
    case ExpireIndex(identity) => s.(indexes := s.indexes - {identity})
  }

  // ---------------------------------------------------------------------------------------------------------------
  // What one step may do
  // ---------------------------------------------------------------------------------------------------------------

  predicate Hollow(s: State, id: Id) {
    id in s.hashes && s.hashes[id].payload.None?
  }

  /** A session that was and is not stays gone, a hash without a payload is an old one, and an index gains only sessions. */
  ghost predicate Gentle(s: State, t: State) {
    && s.known <= t.known
    && (forall id <- s.known :: HasSession(t, id) ==> HasSession(s, id))
    && (forall id <- t.hashes :: id in s.hashes || id in t.known)
    && (forall id :: Hollow(t, id) ==> Hollow(s, id))
    && (forall identity, id :: id in Members(t, identity) && id !in Members(s, identity) ==> HasSession(t, id))
    && s.log <= t.log
    && forall e <- t.log[|s.log|..] :: e.Returned? ==> HasSession(s, e.id)
  }

  /** Every id met anywhere is a known one. */
  ghost predicate Tracked(s: State) {
    && (forall id <- s.hashes :: id in s.known)
    && forall identity, id :: id in Members(s, identity) ==> id in s.known
  }

  ghost predicate Gone(s: State, id: Id) {
    id in s.known && !HasSession(s, id)
  }

  ghost predicate PcSound(s: State, pc: Pc) {
    match pc
    case Checking(_, _, members, replies) =>
      && |replies| <= |members| && (forall id <- members :: id in s.known)
      && forall i :: 0 <= i < |replies| && replies[i] == Some(false) ==> Gone(s, members[i])
    case Dropping(_, _, members, replies) =>
      && |replies| == |members|
      && forall i :: 0 <= i < |replies| && replies[i] == Some(false) ==> Gone(s, members[i])
    case _ => true
  }

  ghost predicate Inv(s: State) {
    && Tracked(s)
    && (forall p <- s.procs :: PcSound(s, s.procs[p].pc))
    && forall e <- s.log :: e.DroppedStale? ==> forall id <- e.ids :: Gone(s, id)
  }

  /** What is the same for the sessions and the indexes, and tells of neither in the log. */
  ghost predicate Quiet(s: State, t: State) {
    && t.hashes == s.hashes && t.indexes == s.indexes && t.known == s.known
    && s.log <= t.log && forall e <- t.log[|s.log|..] :: !e.Returned? && !e.DroppedStale?
  }

  lemma QuietIsGentle(s: State, t: State)
    requires Quiet(s, t)
    ensures Gentle(s, t)
  {
  }

  /** One event more, of another kind. */
  lemma NotingIsQuiet(s: State, t: State, e: Event)
    requires t.hashes == s.hashes && t.indexes == s.indexes && t.known == s.known && t.log == s.log + [e]
    requires !e.Returned? && !e.DroppedStale?
    ensures Quiet(s, t) && Gentle(s, t)
  {
    assert t.log[|s.log|..] == [e];
  }

  lemma StillIsQuiet(s: State, t: State)
    requires t.hashes == s.hashes && t.indexes == s.indexes && t.known == s.known && t.log == s.log
    ensures Quiet(s, t) && Gentle(s, t)
  {
    assert t.log[|s.log|..] == [];
  }

  lemma SlideGentle(s: State, p: Pid, id: Id, identity: Identity, now: int)
    requires HasSession(s, id)
    ensures Gentle(s, Slide(s, id, identity, now).(log := s.log + [Returned(p, id)]))
  {
    var t := Slide(s, id, identity, now).(log := s.log + [Returned(p, id)]);
    assert t.log[|s.log|..] == [Returned(p, id)];
  }

  lemma ReturnGentle(c: Limits, s: State, p: Pid, q: Proc, now: int)
    requires q.pc.Sliding? && HasSession(s, q.pc.id)
    ensures Gentle(s, GetStep(c, s, p, q, now))
  {
    SlideGentle(s, p, q.pc.id, q.pc.identity, q.pc.now);
    hide Gentle, Slide;
    var u := Slide(s, q.pc.id, q.pc.identity, q.pc.now).(log := s.log + [Returned(p, q.pc.id)]);
    assert Quiet(u, GetStep(c, s, p, q, now));
    SameStore(s, u, GetStep(c, s, p, q, now));
  }

  lemma GetGentle(c: Limits, s: State, p: Pid, q: Proc, now: int)
    requires q.pc.GetPayload? || q.pc.GetAt? || q.pc.Sliding?
    ensures Gentle(s, GetStep(c, s, p, q, now))
  {
    hide Gentle, Quiet, Slide, Own, LastUse;
    var t := GetStep(c, s, p, q, now);
    if q.pc.Sliding? {
      if HasSession(s, q.pc.id) { ReturnGentle(c, s, p, q, now); } else { StillIsQuiet(s, t); }
    } else {
      hide HasSession;
      if t.log == s.log { StillIsQuiet(s, t); } else { NotingIsQuiet(s, t, t.log[|s.log|]); }
    }
  }

  lemma SameStore(s: State, u: State, t: State)
    requires Gentle(s, u) && Quiet(u, t)
    ensures Gentle(s, t)
  {
    assert forall identity :: Members(t, identity) == Members(u, identity);
    assert forall id :: HasSession(t, id) == HasSession(u, id) && Hollow(t, id) == Hollow(u, id);
    assert t.log[|s.log|..] == u.log[|s.log|..] + t.log[|u.log|..];
  }

  /** Taking away a hash, or members, is gentle. */
  lemma LessIsGentle(s: State, t: State)
    requires t.known == s.known && t.log == s.log
    requires forall id <- t.hashes :: id in s.hashes && t.hashes[id] == s.hashes[id]
    requires forall identity, id :: id in Members(t, identity) ==> id in Members(s, identity)
    ensures Gentle(s, t)
  {
    assert t.log[|s.log|..] == [];
  }

  lemma DeleteGentle(s: State, p: Pid, q: Proc)
    requires q.pc.Deleting? || q.pc.Deriving? || q.pc.Unindexing? || q.pc.Removing?
    ensures Gentle(s, DeleteStep(s, p, q))
  {
    hide Gentle, HasSession, Own, Members, WithoutMembers, WithoutHash;
    var t := DeleteStep(s, p, q);
    match q.pc
    case Unindexing(id, identity, _) =>
      UnindexGentle(s, identity, {id});
      SameStore(s, WithoutMembers(s, identity, {id}), t);
    case Removing(id, _) =>
      UnhashGentle(s, id);
      SameStore(s, WithoutHash(s, id), t);
    case _ => QuietIsGentle(s, t);
  }

  lemma UnindexGentle(s: State, identity: Identity, ids: set<Id>)
    ensures Gentle(s, WithoutMembers(s, identity, ids))
  {
    hide Gentle;
    LessIsGentle(s, WithoutMembers(s, identity, ids));
  }

  lemma UnhashGentle(s: State, id: Id)
    ensures Gentle(s, WithoutHash(s, id))
  {
    hide Gentle;
    LessIsGentle(s, WithoutHash(s, id));
  }

  lemma SweepGentle(c: Limits, s: State, p: Pid, q: Proc, ids: seq<Id>, now: int)
    ensures Gentle(s, SweepStep(c, s, p, q, ids, now))
  {
    var t := SweepStep(c, s, p, q, ids, now);
    hide Gentle, Quiet;
    if t.log == s.log { StillIsQuiet(s, t); } else { NotingIsQuiet(s, t, t.log[|s.log|]); }
  }

  lemma TrimGentle(c: Limits, s: State, p: Pid, q: Proc, now: int, order: seq<Id>, fails: bool)
    requires q.pc.Trimming?
    ensures Gentle(s, LimitStep(c, s, p, q, now, order, fails))
  {
    hide Gentle, Expired;
    LessIsGentle(s, LimitStep(c, s, p, q, now, order, fails));
  }

  lemma StaleGentle(c: Limits, s: State, p: Pid, q: Proc, now: int, order: seq<Id>, fails: bool)
    requires q.pc.Dropping? && Stale(q.pc.members, q.pc.replies) != []
    ensures Gentle(s, LimitStep(c, s, p, q, now, order, fails))
  {
    hide Gentle, Victims, Stale, StillHeld;
    var t := LimitStep(c, s, p, q, now, order, fails);
    var stale := Stale(q.pc.members, q.pc.replies);
    var victims := Victims(StillHeld(q.pc.members, q.pc.replies), q.pc.keep, c.maxPerIdentity);
    assert t.log[|s.log|..] == [DroppedStale(stale), Limited(p, q.pc.keep, q.pc.members, q.pc.replies, victims)];
    DropGentle(s, t);
  }

  lemma LimitGentle(c: Limits, s: State, p: Pid, q: Proc, now: int, order: seq<Id>, fails: bool)
    requires q.pc.Trimming? || q.pc.Listing? || q.pc.Checking? || q.pc.Dropping? || q.pc.Evicting?
    ensures Gentle(s, LimitStep(c, s, p, q, now, order, fails))
  {
    hide Gentle, Members, StillHeld, Stale, Victims, HasSession;
    if q.pc.Dropping? && Stale(q.pc.members, q.pc.replies) != [] {
      StaleGentle(c, s, p, q, now, order, fails);
    } else if q.pc.Trimming? {
      TrimGentle(c, s, p, q, now, order, fails);
    } else {
      var t := LimitStep(c, s, p, q, now, order, fails);
      hide Quiet, IsByUse, WithoutMembers;
      if t.log == s.log { StillIsQuiet(s, t); } else { NotingIsQuiet(s, t, t.log[|s.log|]); }
    }
  }

  lemma DropGentle(s: State, t: State)
    requires t.known == s.known && t.hashes == s.hashes && s.log <= t.log
    requires forall e <- t.log[|s.log|..] :: !e.Returned?
    requires forall identity, id :: id in Members(t, identity) ==> id in Members(s, identity)
    ensures Gentle(s, t)
  {
  }

  lemma CreateGentle(s: State, r: Replica, id: Id, identity: Identity, now: int)
    requires Tracked(s) && id !in s.known
    ensures Gentle(s, Created(s, r, id, identity, now))
  {
    var t := Created(s, r, id, identity, now);
    assert t.log[|s.log|..] == [];
  }

  lemma StepGentle(c: Limits, s: State, a: Action)
    requires Tracked(s)
    ensures Gentle(s, Step(c, s, a))
  {
    hide Gentle, Quiet, GetStep, DeleteStep, SweepStep, LimitStep, Created, Tracked;
    var t := Step(c, s, a);
    match a
    case Create(p, r, id, identity, now, keepOthers) =>
      if id in s.known || p in s.procs {
        Still(s, t);
      } else {
        CreateGentle(s, r, id, identity, now);
        Around(s, Created(s, r, id, identity, now), t);
      }
    case Move(p, now, order, fails) =>
      if p in s.procs { MoveGentle(c, s, p, s.procs[p], now, order, fails); } else { Still(s, t); }
    case ExpireHash(id) => Expires(s, t);
    case ExpireIndex(identity) => Expires(s, t);
    case BeginGet(_, _, _) => Still(s, t);
    case BeginDelete(p, _, id) => if p in s.procs { Still(s, t); } else { NotingIsQuiet(s, t, Ending(p, id, Asked)); }
    case BeginSweep(_, _, _) => Still(s, t);
    case BeginLimit(_, _, _, _) => Still(s, t);
  }

  lemma Still(s: State, t: State)
    requires t.hashes == s.hashes && t.indexes == s.indexes && t.known == s.known && t.log == s.log
    ensures Gentle(s, t)
  {
    StillIsQuiet(s, t);
  }

  lemma Around(s: State, u: State, t: State)
    requires Gentle(s, u) && t.hashes == u.hashes && t.indexes == u.indexes && t.known == u.known && t.log == u.log
    ensures Gentle(s, t)
  {
    SameStore(s, u, t);
  }

  lemma Expires(s: State, t: State)
    requires (exists id :: t == WithoutHash(s, id)) || exists identity :: t == s.(indexes := s.indexes - {identity})
    ensures Gentle(s, t)
  {
    LessIsGentle(s, t);
  }

  lemma MoveGentle(c: Limits, s: State, p: Pid, q: Proc, now: int, order: seq<Id>, fails: bool)
    ensures Gentle(s, MoveStep(c, s, p, q, now, order, fails))
  {
    hide Gentle, GetStep, DeleteStep, SweepStep, LimitStep;
    match q.pc
    case GetPayload(_) => GetGentle(c, s, p, q, now);
    case GetAt(_, _) => GetGentle(c, s, p, q, now);
    case Sliding(_, _, _) => GetGentle(c, s, p, q, now);
    case Deleting(_, _, _) => DeleteGentle(s, p, q);
    case Deriving(_, _) => DeleteGentle(s, p, q);
    case Unindexing(_, _, _) => DeleteGentle(s, p, q);
    case Removing(_, _) => DeleteGentle(s, p, q);
    case Sweeping(ids) => SweepGentle(c, s, p, q, ids, now);
    case Trimming(_, _) => LimitGentle(c, s, p, q, now, order, fails);
    case Listing(_, _) => LimitGentle(c, s, p, q, now, order, fails);
    case Checking(_, _, _, _) => LimitGentle(c, s, p, q, now, order, fails);
    case Dropping(_, _, _, _) => LimitGentle(c, s, p, q, now, order, fails);
    case Evicting(_) => LimitGentle(c, s, p, q, now, order, fails);
    case Done => Still(s, s);
  }

  // ---------------------------------------------------------------------------------------------------------------
  // What every run keeps
  // ---------------------------------------------------------------------------------------------------------------

  lemma GoneStays(s: State, t: State, id: Id)
    requires Gentle(s, t) && Gone(s, id)
    ensures Gone(t, id)
  {
  }

  lemma OtherPcs(s: State, t: State, pc: Pc)
    requires Gentle(s, t) && PcSound(s, pc)
    ensures PcSound(t, pc)
  {
  }

  lemma {:induction false} StaleGone(s: State, members: seq<Id>, replies: seq<Option<bool>>)
    requires |replies| <= |members| && forall i :: 0 <= i < |replies| && replies[i] == Some(false) ==> Gone(s, members[i])
    ensures forall id <- Stale(members, replies) :: Gone(s, id)
    decreases members
  {
    if members != [] { StaleGone(s, members[1..], if replies == [] then [] else replies[1..]); }
  }

  /** A place whose lists say nothing. */
  predicate Simple(pc: Pc) {
    !pc.Checking? && !pc.Dropping?
  }

  ghost predicate MovesOn(s: State, t: State, p: Pid) {
    p in t.procs && (t.procs == s.procs || t.procs == s.procs[p := t.procs[p]])
  }

  lemma SlideKeepsProcs(s: State, id: Id, identity: Identity, now: int)
    ensures Slide(s, id, identity, now).procs == s.procs
  {
  }

  lemma BeginsDelete(s: State, p: Pid, q: Proc)
    ensures forall id, rest, why :: var t := BeginDeleteAt(s, p, q, id, rest, why); MovesOn(s, t, p) && Simple(t.procs[p].pc)
  {
  }

  lemma GetMoves(c: Limits, s: State, p: Pid, q: Proc, now: int)
    requires (q.pc.GetPayload? || q.pc.GetAt? || q.pc.Sliding?)
    ensures var t := GetStep(c, s, p, q, now); MovesOn(s, t, p) && Simple(t.procs[p].pc)
  {
    hide HasSession, Own, Slide, BeginDeleteAt;
    BeginsDelete(s, p, q);
    if q.pc.Sliding? { SlideKeepsProcs(s, q.pc.id, q.pc.identity, q.pc.now); }
  }

  lemma DeleteMoves(s: State, p: Pid, q: Proc)
    requires q.pc.Deleting? || q.pc.Deriving? || q.pc.Unindexing? || q.pc.Removing?
    ensures var t := DeleteStep(s, p, q); MovesOn(s, t, p) && Simple(t.procs[p].pc)
  {
    hide HasSession, Own, Members, WithoutMembers, WithoutHash, CloseLive;
    if q.pc.Removing? { GoesOn(CloseLive(WithoutHash(s, q.pc.id), q.replica, q.pc.id), p, q, q.pc.rest); }
    KeepsProcs(s, q);
  }

  lemma GoesOn(s: State, p: Pid, q: Proc, rest: Rest)
    ensures var t := GoOn(s, p, q, rest); p in t.procs && t.procs == s.procs[p := t.procs[p]] && Simple(t.procs[p].pc)
  {
  }

  lemma KeepsProcs(s: State, q: Proc)
    ensures q.pc.Removing? ==> CloseLive(WithoutHash(s, q.pc.id), q.replica, q.pc.id).procs == s.procs
    ensures q.pc.Unindexing? ==> WithoutMembers(s, q.pc.identity, {q.pc.id}).procs == s.procs
  {
  }

  lemma SweepMoves(c: Limits, s: State, p: Pid, q: Proc, ids: seq<Id>, now: int)
    ensures var t := SweepStep(c, s, p, q, ids, now); MovesOn(s, t, p) && Simple(t.procs[p].pc)
  {
  }

  lemma LimitMoves(c: Limits, s: State, p: Pid, q: Proc, now: int, order: seq<Id>, fails: bool)
    requires q.pc.Trimming? || q.pc.Listing? || q.pc.Checking? || q.pc.Dropping? || q.pc.Evicting?
    requires Tracked(s) && PcSound(s, q.pc) && p in s.procs && s.procs[p] == q
    ensures var t := LimitStep(c, s, p, q, now, order, fails); MovesOn(s, t, p) && PcSound(s, t.procs[p].pc)
  {
    if q.pc.Checking? && |q.pc.replies| == |q.pc.members| { StaleGone(s, q.pc.members, q.pc.replies); }
  }

  /** Where a call goes next is sound. */
  lemma NextPcSound(c: Limits, s: State, p: Pid, q: Proc, now: int, order: seq<Id>, fails: bool)
    requires Tracked(s) && PcSound(s, q.pc) && p in s.procs && s.procs[p] == q
    ensures var t := MoveStep(c, s, p, q, now, order, fails); MovesOn(s, t, p) && PcSound(s, t.procs[p].pc)
  {
    hide GetStep, DeleteStep, SweepStep, LimitStep, Tracked, Gone;
    match q.pc
    case GetPayload(_) => GetMoves(c, s, p, q, now);
    case GetAt(_, _) => GetMoves(c, s, p, q, now);
    case Sliding(_, _, _) => GetMoves(c, s, p, q, now);
    case Deleting(_, _, _) => DeleteMoves(s, p, q);
    case Deriving(_, _) => DeleteMoves(s, p, q);
    case Unindexing(_, _, _) => DeleteMoves(s, p, q);
    case Removing(_, _) => DeleteMoves(s, p, q);
    case Sweeping(ids) => SweepMoves(c, s, p, q, ids, now);
    case Trimming(_, _) => LimitMoves(c, s, p, q, now, order, fails);
    case Listing(_, _) => LimitMoves(c, s, p, q, now, order, fails);
    case Checking(_, _, _, _) => LimitMoves(c, s, p, q, now, order, fails);
    case Dropping(_, _, _, _) => LimitMoves(c, s, p, q, now, order, fails);
    case Evicting(_) => LimitMoves(c, s, p, q, now, order, fails);
    case Done =>
  }

  lemma GentleTracks(s: State, t: State)
    requires Tracked(s) && Gentle(s, t)
    ensures Tracked(t)
  {
    forall identity, id | id in Members(t, identity) ensures id in t.known {
      if id !in Members(s, identity) { assert HasSession(t, id); }
    }
  }

  lemma MoveKeepsInv(c: Limits, s: State, p: Pid, q: Proc, now: int, order: seq<Id>, fails: bool)
    requires Inv(s) && p in s.procs && s.procs[p] == q
    ensures Inv(MoveStep(c, s, p, q, now, order, fails))
  {
    var t := MoveStep(c, s, p, q, now, order, fails);
    MoveGentle(c, s, p, q, now, order, fails);
    NextPcSound(c, s, p, q, now, order, fails);
    GentleTracks(s, t);
    MoveLogs(c, s, p, q, now, order, fails);
    hide MoveStep, Gentle, PcSound, Gone, Tracked;
    forall x | x in t.procs ensures PcSound(t, t.procs[x].pc) { OtherPcs(s, t, t.procs[x].pc); }
    forall e, id | e in t.log && e.DroppedStale? && id in e.ids ensures Gone(t, id) { GoneStays(s, t, id); }
  }

  /** The ids a step logs as dropped were gone. */
  lemma MoveLogs(c: Limits, s: State, p: Pid, q: Proc, now: int, order: seq<Id>, fails: bool)
    requires Inv(s) && p in s.procs && s.procs[p] == q
    ensures forall e <- MoveStep(c, s, p, q, now, order, fails).log :: e.DroppedStale? ==> forall id <- e.ids :: Gone(s, id)
  {
    var t := MoveStep(c, s, p, q, now, order, fails);
    if q.pc.Dropping? { StaleGone(s, q.pc.members, q.pc.replies); }
    OnlyDropsHere(c, s, p, q, now, order, fails);
    hide MoveStep, Stale;
    forall e <- t.log | e.DroppedStale? ensures forall id <- e.ids :: Gone(s, id) {
      if e !in s.log { assert e.ids == Stale(q.pc.members, q.pc.replies); }
    }
  }

  lemma OnlyDropsHere(c: Limits, s: State, p: Pid, q: Proc, now: int, order: seq<Id>, fails: bool)
    ensures forall e <- MoveStep(c, s, p, q, now, order, fails).log :: e.DroppedStale? ==>
              e in s.log || (q.pc.Dropping? && e.ids == Stale(q.pc.members, q.pc.replies))
  {
    if q.pc.Dropping? {
      hide Stale, Victims, StillHeld, WithoutMembers;
    } else {
      LogsOneMore(c, s, p, q, now, order, fails);
      hide MoveStep;
    }
  }

  /** At most one event more, and nothing of dropping or limiting. */
  ghost predicate LogsLittle(s: State, t: State) {
    t.log == s.log
    || (|t.log| == |s.log| + 1 && t.log == s.log + [t.log[|s.log|]]
        && !t.log[|s.log|].DroppedStale? && !t.log[|s.log|].Limited?)
  }

  /** Any other step logs one event at most. */
  lemma LogsOneMore(c: Limits, s: State, p: Pid, q: Proc, now: int, order: seq<Id>, fails: bool)
    requires !q.pc.Dropping?
    ensures LogsLittle(s, MoveStep(c, s, p, q, now, order, fails))
  {
    hide LogsLittle;
    if q.pc.GetPayload? || q.pc.GetAt? || q.pc.Sliding? { GetLogs(c, s, p, q, now); hide GetStep; }
    else if q.pc.Deleting? || q.pc.Deriving? || q.pc.Unindexing? || q.pc.Removing? { DeleteLogs(s, p, q); hide DeleteStep; }
    else if q.pc.Sweeping? { SweepLogs(c, s, p, q, q.pc.ids, now); hide SweepStep; }
    else if !q.pc.Done? { LimitLogs(c, s, p, q, now, order, fails); hide LimitStep; }
    else { SameLog(s); }
    hide GetStep, DeleteStep, SweepStep, LimitStep;
  }

  lemma SameLog(s: State)
    ensures LogsLittle(s, s)
  {
  }

  lemma GetLogs(c: Limits, s: State, p: Pid, q: Proc, now: int)
    requires q.pc.GetPayload? || q.pc.GetAt? || q.pc.Sliding?
    ensures LogsLittle(s, GetStep(c, s, p, q, now))
  {
    hide HasSession, Slide, CloseLive, Own, LastUse;
    if q.pc.Sliding? { SlideKeepsLog(s, q.pc.id, q.pc.identity, q.pc.now); }
    LessKeepsLog(s);
  }

  lemma DeleteLogs(s: State, p: Pid, q: Proc)
    requires q.pc.Deleting? || q.pc.Deriving? || q.pc.Unindexing? || q.pc.Removing?
    ensures LogsLittle(s, DeleteStep(s, p, q))
  {
    hide HasSession, WithoutMembers, WithoutHash, CloseLive, Own;
    LessKeepsLog(s);
  }

  lemma SweepLogs(c: Limits, s: State, p: Pid, q: Proc, ids: seq<Id>, now: int)
    ensures LogsLittle(s, SweepStep(c, s, p, q, ids, now))
  {
    hide CloseLive, Own;
    LessKeepsLog(s);
  }

  lemma LimitLogs(c: Limits, s: State, p: Pid, q: Proc, now: int, order: seq<Id>, fails: bool)
    requires q.pc.Trimming? || q.pc.Listing? || q.pc.Checking? || q.pc.Evicting?
    ensures LogsLittle(s, LimitStep(c, s, p, q, now, order, fails))
  {
    hide IsByUse, HasSession, WithoutMembers, Expired, Own;
    LessKeepsLog(s);
  }

  lemma SlideKeepsLog(s: State, id: Id, identity: Identity, now: int)
    ensures Slide(s, id, identity, now).log == s.log
  {
  }

  lemma LessKeepsLog(s: State)
    ensures forall identity, ids :: WithoutMembers(s, identity, ids).log == s.log
    ensures forall id :: WithoutHash(s, id).log == s.log
    ensures forall r, id, t: State :: t.log == s.log ==> CloseLive(t, r, id).log == s.log
  {
  }

  lemma StepKeepsInv(c: Limits, s: State, a: Action)
    requires Inv(s)
    ensures Inv(Step(c, s, a))
  {
    var t := Step(c, s, a);
    if a.Move? && a.p in s.procs {
      hide MoveStep, Inv;
      MoveKeepsInv(c, s, a.p, s.procs[a.p], a.now, a.order, a.fails);
    } else {
      StepGentle(c, s, a);
      GentleTracks(s, t);
      OtherProcs(c, s, a);
      hide Gentle, PcSound, Gone, Tracked, Step;
      forall x | x in t.procs ensures PcSound(t, t.procs[x].pc) { OtherPcs(s, t, t.procs[x].pc); }
      forall e, id | e in t.log && e.DroppedStale? && id in e.ids ensures Gone(t, id) { GoneStays(s, t, id); }
    }
  }

  lemma OtherProcs(c: Limits, s: State, a: Action)
    requires Inv(s) && !(a.Move? && a.p in s.procs)
    ensures var t := Step(c, s, a);
            (forall e <- t.log :: e.DroppedStale? ==> e in s.log) && forall x <- t.procs :: PcSound(s, t.procs[x].pc)
  {
  }

  ghost predicate Next(c: Limits, s: State, t: State) {
    exists a :: t == Step(c, s, a)
  }

  lemma NextKeeps(c: Limits, s: State, t: State)
    requires Next(c, s, t) && Inv(s)
    ensures Inv(t) && Gentle(s, t)
  {
    var a :| t == Step(c, s, a);
    StepKeepsInv(c, s, a);
    StepGentle(c, s, a);
  }

  /** A run: any number of replicas, any interleaving, whatever was in Redis before. */
  ghost predicate Trace(c: Limits, run: seq<State>) {
    && |run| > 0 && Tracked(run[0]) && run[0].procs == map[] && run[0].log == []
    && forall i :: 0 <= i < |run| - 1 ==> Next(c, run[i], run[i + 1])
  }

  lemma {:induction false} TraceInv(c: Limits, run: seq<State>, i: nat)
    requires Trace(c, run) && i < |run|
    ensures Inv(run[i])
    decreases i
  {
    if i > 0 {
      TraceInv(c, run, i - 1);
      NextKeeps(c, run[i - 1], run[i - 1 + 1]);
    }
  }

  lemma StepOfTrace(c: Limits, run: seq<State>, j: nat)
    requires Trace(c, run) && 0 < j < |run|
    ensures Inv(run[j - 1]) && Gentle(run[j - 1], run[j])
  {
    TraceInv(c, run, j - 1);
    NextKeeps(c, run[j - 1], run[j - 1 + 1]);
  }

  ghost predicate NotReturned(log: seq<Event>, id: Id) {
    forall e <- log :: e.Returned? ==> e.id != id
  }

  lemma LogsOnwards(before: seq<Event>, mid: seq<Event>, after: seq<Event>, id: Id)
    requires before <= mid <= after && NotReturned(mid[|before|..], id) && NotReturned(after[|mid|..], id)
    ensures before <= after && NotReturned(after[|before|..], id)
  {
    assert after[|before|..] == mid[|before|..] + after[|mid|..];
  }

  lemma GoneOnce(s: State, t: State, id: Id)
    requires Gentle(s, t) && Gone(s, id)
    ensures Gone(t, id) && s.log <= t.log && NotReturned(t.log[|s.log|..], id)
  {
  }

  /** A session once gone never comes back, and no call returns it again. */
  lemma {:induction false} GoneForGood(c: Limits, run: seq<State>, i: nat, j: nat, id: Id)
    requires Trace(c, run) && i <= j < |run| && Gone(run[i], id)
    ensures Gone(run[j], id) && run[i].log <= run[j].log && NotReturned(run[j].log[|run[i].log|..], id)
    decreases j
  {
    hide Trace, Inv, Next, Gentle, Gone;
    if i < j {
      StepOfTrace(c, run, j);
      GoneForGood(c, run, i, j - 1, id);
      GoneOnce(run[j - 1], run[j], id);
      LogsOnwards(run[i].log, run[j - 1].log, run[j].log, id);
    } else {
      assert run[j].log[|run[i].log|..] == [];
    }
  }

  /** A hash without a payload was there from the start: no get, slide, delete or sweep leaves one. */
  lemma {:induction false} NoNewHollowHash(c: Limits, run: seq<State>, i: nat, j: nat, id: Id)
    requires Trace(c, run) && i <= j < |run| && Hollow(run[j], id)
    ensures Hollow(run[i], id)
    decreases j
  {
    hide Trace, Inv;
    if i < j {
      StepOfTrace(c, run, j);
      NoNewHollowHash(c, run, i, j - 1, id);
    }
  }

  /** An index member dropped as stale belongs to a session that is gone for good. */
  lemma StaleIsGoneForGood(c: Limits, run: seq<State>, i: nat, j: nat, ids: seq<Id>, id: Id)
    requires Trace(c, run) && i <= j < |run| && DroppedStale(ids) in run[i].log && id in ids
    ensures Gone(run[j], id)
  {
    TraceInv(c, run, i);
    GoneForGood(c, run, i, j, id);
  }

  /** An index never gains a member whose session is not there. */
  lemma IndexGainsOnlySessions(c: Limits, run: seq<State>, i: nat, identity: Identity, id: Id)
    requires Trace(c, run) && i + 1 < |run| && id in Members(run[i + 1], identity) && id !in Members(run[i], identity)
    ensures HasSession(run[i + 1], id)
  {
    hide Trace, Inv;
    StepOfTrace(c, run, i + 1);
  }
}
