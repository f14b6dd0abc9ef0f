/**
 * The Redis store of saved items (`RedisSavedQueries`), for the keys of one owner: an expiring lock per kind, a fencing
 * token checked by every write, and lists read one command at a time without any lock on the other kinds.
 *
 * Any number of processes interleave; each Redis command or Lua script is one atomic action, and a lock may expire at
 * any moment. What lands is proved to be a serial run of the transactions of `SavedItems`.
 */
module RedisItems {
  import opened Wrappers
  import opened SavedItems

  type Token = nat
  type Pid = nat

  const LOCK_TRIES := 400
  const LOCK_ROUNDS := 3

  /** A stored value: sealing binds it to its id, and opening it gives the item's text or fails. */
  datatype Payload = Sealed(kind: Kind, name: string, body: string) | Unreadable(bytes: nat)

  datatype Redis = Redis(index: map<Id, int>, entries: map<Id, Payload>, locks: map<Kind, Token>)

  /** The cap of a kind, and the id a new row gets: an HMAC of owner, kind and name. */
  datatype Config = Config(limit: nat, idFor: (Kind, string) -> Id)

  // ---------------------------------------------------------------------------------------------------------------
  // Redis commands and scripts
  // ---------------------------------------------------------------------------------------------------------------

  function Get(r: Redis, id: Id): Option<Payload> {
    if id in r.entries then Some(r.entries[id]) else None
  }

  predicate HasLock(r: Redis, kind: Kind, token: Token) {
    kind in r.locks && r.locks[kind] == token
  }

  function Drop(r: Redis, ids: set<Id>): Redis {
    r.(index := r.index - ids, entries := r.entries - ids)
  }

  /** FENCED_WRITE once the token was found right: stores and indexes `put`, then drops the others. */
  function Fenced(r: Redis, put: Option<Item>, drop: set<Id>): Redis {
    var s := if put.None? then r
             else r.(entries := r.entries[put.value.id := Sealed(put.value.kind, put.value.name, put.value.body)],
                     index := r.index[put.value.id := put.value.at]);
    Drop(s, drop)
  }

  /** PRUNE_IF_UNCHANGED: an unreadable value goes, unless another has taken its place since the read. */
  function Prune(r: Redis, id: Id, read: Option<Payload>): Redis {
    if Get(r, id) == read then Drop(r, {id}) else r
  }

  /** RELEASE_LOCK: a lock that is another call's by now is left alone. */
  function ReleaseLock(r: Redis, kind: Kind, token: Token): Redis {
    if HasLock(r, kind, token) then r.(locks := r.locks - {kind}) else r
  }

  /** The rows a reader can see: indexed, present and readable. */
  function Opened(r: Redis): Items {
    map id | id in r.index && id in r.entries && r.entries[id].Sealed? ::
      Item(id, r.entries[id].kind, r.entries[id].name, r.entries[id].body, r.index[id])
  }

  // ---------------------------------------------------------------------------------------------------------------
  // Calls
  // ---------------------------------------------------------------------------------------------------------------

  /** A save is a Write whose `change` always gives the body; an update judges a list of its own before it writes. */
  datatype Op =
    | Write(kind: Kind, name: string, change: (Option<Item>, seq<Item>) -> Option<string>, supersedes: Option<Id>,
            update: bool)
    | Remove(kind: Kind, id: Id, when: Item -> bool)

  /** `list` between two of its commands; `fetched` is the value of the first id of `todo`, once read. */
  datatype Reading =
    | Unindexed
    | Reading(todo: seq<Id>, out: seq<Item>, fetched: Option<Option<Payload>>)

  datatype Outcome = Retry | Return(list: seq<Item>)

  datatype Pc =
    | Locking(attempt: nat)
    | First(reading: Reading)
    | Judged(body: string, reading: Reading)      // an update reads again, as every write does
    | Storing(body: string, mine: seq<Item>, at: int)
    | Dropping
    | Second(reading: Reading)
    | Trimming(after: seq<Item>)
    | Unlocking(outcome: Outcome)
    | Done(list: seq<Item>)
    | Busy

  /** What a call made of what it read: nothing yet, that there is nothing to change, or that there is. */
  datatype Decision = Undecided | Declined | Chosen

  /** `judged` is the list the decision was made on, `after` the last list read; `refused` counts the writes refused. */
  datatype Call = Call(op: Op, round: nat, token: Token, pc: Pc, decision: Decision, applied: nat,
                       judged: seq<Item>, after: seq<Item>, refused: nat)

  /** A write that landed. */
  datatype Entry =
    | Stored(pid: Pid, kind: Kind, name: string, body: string, supersedes: Option<Id>, at: int, judged: seq<Item>,
             mine: seq<Item>)
    | Removed(pid: Pid, kind: Kind, id: Id)
    | Trimmed(pid: Pid, kind: Kind, after: seq<Item>)

  datatype State = State(redis: Redis, calls: map<Pid, Call>, nextToken: Token, log: seq<Entry>)

  datatype Event =
    | TryLock
    | Zrange(order: seq<Id>)
    | Fetch
    | Score
    | PruneOne
    | Decide(sorted: seq<Item>, at: int)
    | FencedWrite
    | Finish(sorted: seq<Item>)
    | Unlock

  datatype Action = Begin(p: Pid, op: Op) | Act(p: Pid, e: Event) | Expire(kind: Kind)

  predicate IsSorting(out: seq<Item>, sorted: seq<Item>) {
    multiset(out) == multiset(sorted) && forall i, j :: 0 <= i < j < |sorted| ==> sorted[i].at >= sorted[j].at
  }

  predicate NoRepeats(ids: seq<Id>) {
    forall i, j :: 0 <= i < j < |ids| ==> ids[i] != ids[j]
  }

  /** One command of `list`; None when the event does not fit. */
  function ReadStep(r: Redis, kind: Kind, reading: Reading, e: Event): Option<(Redis, Reading)> {
    match (e, reading)
    case (Zrange(order), Unindexed) =>
      if NoRepeats(order) && (forall id <- order :: id in r.index) && (forall id <- r.index :: id in order)
      then Some((r, Reading(order, [], None))) else None
    case (Fetch, Reading(todo, out, None)) =>
      if todo == [] then None else Some((r, Reading(todo, out, Some(Get(r, todo[0])))))
    case (Score, Reading(todo, out, Some(Some(Sealed(k, name, body))))) =>
      if todo == [] then None
      else
        var at := if todo[0] in r.index then r.index[todo[0]] else 0;
        Some((r, Reading(todo[1..], if k == kind then out + [Item(todo[0], k, name, body, at)] else out, None)))
    case (PruneOne, Reading(todo, out, Some(read))) =>
      if todo == [] || (read.Some? && read.value.Sealed?) then None
      else Some((Prune(r, todo[0], read), Reading(todo[1..], out, None)))
    case _ => None
  }

  /** What the call makes of the list it read first. */
  function Decided(call: Call, sorted: seq<Item>, at: int): Call {
    match call.op
    case Write(kind, name, change, _, update) =>
      var body := change(Named(sorted, name), sorted);
      if body.None? then call.(pc := Unlocking(Return(sorted)), decision := Declined, judged := sorted)
      else if update then call.(pc := Judged(body.value, Unindexed), decision := Chosen, judged := sorted)
      else call.(pc := Storing(body.value, sorted, at), decision := Chosen, judged := sorted)
    case Remove(kind, id, when) =>
      var current := WithId(sorted, id);
      if current.Some? && when(current.value) then call.(pc := Dropping, decision := Chosen, judged := sorted)
      else call.(pc := Second(Unindexed), decision := Declined, judged := sorted)
  }

  /** What the call makes of the list it read after its write. */
  function Finished(c: Config, call: Call, sorted: seq<Item>): Call {
    if call.op.Write? && |sorted| > c.limit then call.(pc := Trimming(sorted), after := sorted)
    else call.(pc := Unlocking(Return(sorted)), after := sorted)
  }

  function Excess(c: Config, after: seq<Item>): set<Id> {
    if |after| > c.limit then Ids(after[c.limit..]) else {}
  }

  /** What the fenced write of the call stores and drops, and the entry it leaves when it lands. */
  function Intent(c: Config, p: Pid, call: Call): Option<(Option<Item>, set<Id>, Entry)> {
    match (call.pc, call.op)
    case (Storing(body, mine, at), Write(kind, name, _, supersedes, _)) =>
      Some((Some(Item(TargetId(mine, name, c.idFor(kind, name)), kind, name, body, at)),
            Dropped(mine, name, supersedes, c.limit),
            Stored(p, kind, name, body, supersedes, at, call.judged, mine)))
    case (Dropping, Remove(kind, id, _)) => Some((None, {id}, Removed(p, kind, id)))
    case (Trimming(after), Write(kind, _, _, _, _)) => Some((None, Excess(c, after), Trimmed(p, kind, after)))
    case _ => None
  }

  /** The call once its fenced write was answered. */
  function Answered(c: Config, call: Call, landed: bool): Call {
    match call.pc
    case Trimming(after) =>
      // The write has landed. A refused trim is no reason to start over.
      call.(pc := Unlocking(Return(if |after| > c.limit then after[..c.limit] else after)))
    case _ =>
      if landed then call.(pc := Second(Unindexed), applied := call.applied + 1)
      else call.(pc := Unlocking(Retry), refused := call.refused + 1)
  }

  function Locked(s: State, call: Call): (State, Call) {
    var kind := call.op.kind;
    if kind !in s.redis.locks then
      (s.(redis := s.redis.(locks := s.redis.locks[kind := call.token])), call.(pc := First(Unindexed)))
    else if call.pc.Locking? && call.pc.attempt < LOCK_TRIES then (s, call.(pc := Locking(call.pc.attempt + 1)))
    else (s, call.(pc := Busy))
  }

  /** The `finally`, then the next round or the end. */
  function Unlocked(s: State, call: Call, outcome: Outcome): (State, Call) {
    var t := s.(redis := ReleaseLock(s.redis, call.op.kind, call.token));
    match outcome
    case Return(list) => (t, call.(pc := Done(list)))
    case Retry =>
      if call.round + 1 < LOCK_ROUNDS then
        (t.(nextToken := s.nextToken + 1),
         call.(pc := Locking(0), round := call.round + 1, token := s.nextToken, decision := Undecided))
      else (t, call.(pc := Busy))
  }

  function ActStep(c: Config, s: State, p: Pid, call: Call, e: Event): Option<(State, Call)> {
    match (e, call.pc)
    case (TryLock, Locking(_)) => Some(Locked(s, call))
    case (Decide(sorted, at), First(Reading(todo, out, None))) =>
      if todo == [] && IsSorting(out, sorted) then Some((s, Decided(call, sorted, at))) else None
    case (Decide(sorted, at), Judged(body, Reading(todo, out, None))) =>
      if todo == [] && IsSorting(out, sorted) then Some((s, call.(pc := Storing(body, sorted, at)))) else None
    case (Finish(sorted), Second(Reading(todo, out, None))) =>
      if todo == [] && IsSorting(out, sorted) then Some((s, Finished(c, call, sorted))) else None
    case (FencedWrite, _) =>
      var intent := Intent(c, p, call);
      if intent.None? then None
      else if HasLock(s.redis, call.op.kind, call.token) then
        Some((s.(redis := Fenced(s.redis, intent.value.0, intent.value.1), log := s.log + [intent.value.2]),
              Answered(c, call, true)))
      else Some((s, Answered(c, call, false)))
    case (Unlock, Unlocking(outcome)) => Some(Unlocked(s, call, outcome))
    case _ => ListStep(s, call, e)
  }

  /** A command of the list a call is reading. */
  function ListStep(s: State, call: Call, e: Event): Option<(State, Call)> {
    match call.pc
    case First(reading) =>
      var step := ReadStep(s.redis, call.op.kind, reading, e);
      if step.None? then None else Some((s.(redis := step.value.0), call.(pc := First(step.value.1))))
    case Judged(body, reading) =>
      var step := ReadStep(s.redis, call.op.kind, reading, e);
      if step.None? then None else Some((s.(redis := step.value.0), call.(pc := Judged(body, step.value.1))))
    case Second(reading) =>
      var step := ReadStep(s.redis, call.op.kind, reading, e);
      if step.None? then None else Some((s.(redis := step.value.0), call.(pc := Second(step.value.1))))
    case _ => None
  }

  function Step(c: Config, s: State, a: Action): Option<State> {
    match a
    case Begin(p, op) =>
      if p in s.calls then None
      else Some(s.(calls := s.calls[p := Call(op, 0, s.nextToken, Locking(0), Undecided, 0, [], [], 0)],
                   nextToken := s.nextToken + 1))
    case Act(p, e) =>
      if p !in s.calls then None
      else
        var step := ActStep(c, s, p, s.calls[p], e);
        if step.None? then None else Some(step.value.0.(calls := s.calls[p := step.value.1]))
    case Expire(kind) => Some(s.(redis := s.redis.(locks := s.redis.locks - {kind})))
  }

  // ---------------------------------------------------------------------------------------------------------------
  // What one kind's rows keep while others write
  // ---------------------------------------------------------------------------------------------------------------

  predicate IsRow(r: Redis, kind: Kind, id: Id) {
    id in r.entries && r.entries[id].Sealed? && r.entries[id].kind == kind
  }

  /** The rows of the kind, and whether they are indexed, are the same in both. */
  ghost predicate SameRows(r: Redis, s: Redis, kind: Kind) {
    && (forall id <- r.entries :: IsRow(r, kind, id) ==> id in s.entries && s.entries[id] == r.entries[id])
    && (forall id <- s.entries :: IsRow(s, kind, id) ==> id in r.entries && r.entries[id] == s.entries[id])
    && (forall id <- r.entries :: IsRow(r, kind, id) ==>
          (id in r.index <==> id in s.index) && (id in r.index ==> s.index[id] == r.index[id]))
  }

  /** An id derived from a kind and a name is only ever used for a row of that kind and name. */
  ghost predicate IdsOk(c: Config, r: Redis) {
    forall id <- r.entries, k: Kind, n: string :: r.entries[id].Sealed? && c.idFor(k, n) == id ==>
      r.entries[id].kind == k && r.entries[id].name == n
  }

  ghost predicate Collisionless(c: Config) {
    forall k: Kind, n: string, k': Kind, n': string :: c.idFor(k, n) == c.idFor(k', n') ==> k == k' && n == n'
  }

  /** What a call has read so far is what is stored now, as far as its kind goes. */
  ghost predicate ReadSoFar(r: Redis, kind: Kind, reading: Reading) {
    match reading
    case Unindexed => true
    case Reading(todo, out, fetched) =>
      && NoRepeats(todo) && Distinct(out)
      && (forall id <- Opened(r) :: Opened(r)[id].kind == kind ==> id in todo || Opened(r)[id] in out)
      && (forall x <- out :: x.id in Opened(r) && Opened(r)[x.id] == x && x.kind == kind && x.id !in todo)
      && (forall id <- todo :: IsRow(r, kind, id) ==> id in r.index)
      && (fetched.Some? ==>
            && todo != []
            && (fetched.value.Some? && fetched.value.value.Sealed? && fetched.value.value.kind == kind ==>
                  Get(r, todo[0]) == fetched.value)
            && (IsRow(r, kind, todo[0]) ==> Get(r, todo[0]) == fetched.value))
  }

  lemma OpenedSame(r: Redis, s: Redis, kind: Kind)
    requires SameRows(r, s, kind)
    ensures forall id <- Opened(r) :: Opened(r)[id].kind == kind ==> id in Opened(s) && Opened(s)[id] == Opened(r)[id]
    ensures forall id <- Opened(s) :: Opened(s)[id].kind == kind ==> id in Opened(r) && Opened(r)[id] == Opened(s)[id]
  {
    forall id <- Opened(r) | Opened(r)[id].kind == kind ensures id in Opened(s) && Opened(s)[id] == Opened(r)[id] {
      assert IsRow(r, kind, id);
    }
    forall id <- Opened(s) | Opened(s)[id].kind == kind ensures id in Opened(r) && Opened(r)[id] == Opened(s)[id] {
      assert IsRow(s, kind, id) && IsRow(r, kind, id);
    }
  }

  lemma ReadSoFarKept(r: Redis, s: Redis, kind: Kind, reading: Reading)
    requires SameRows(r, s, kind) && ReadSoFar(r, kind, reading)
    ensures ReadSoFar(s, kind, reading)
  {
    OpenedSame(r, s, kind);
  }

  lemma ListingKept(r: Redis, s: Redis, kind: Kind, mine: seq<Item>)
    requires SameRows(r, s, kind) && IsListing(Opened(r), kind, mine)
    ensures IsListing(Opened(s), kind, mine)
  {
    OpenedSame(r, s, kind);
  }

  /** Pruning a value that is not a readable row changes no kind's rows. */
  lemma PruneKeepsRows(r: Redis, id: Id, read: Option<Payload>, kind: Kind)
    requires read.None? || read.value.Unreadable?
    ensures SameRows(r, Prune(r, id, read), kind)
  {
  }

  /** A fenced write of one kind, storing at an id that is no other kind's and dropping its own rows, changes no other
      kind's rows. */
  lemma FencedKeepsOthers(r: Redis, put: Option<Item>, drop: set<Id>, kind: Kind, other: Kind)
    requires kind != other
    requires put.Some? ==> put.value.kind == kind && !IsRow(r, other, put.value.id)
    requires forall id <- drop :: IsRow(r, kind, id)
    ensures SameRows(r, Fenced(r, put, drop), other)
  {
  }

  /** The fetched row belongs to the kind: it is listed as it is stored. */
  lemma ScoreListed(r: Redis, kind: Kind, todo: seq<Id>, out: seq<Item>, p: Payload)
    requires ReadSoFar(r, kind, Reading(todo, out, Some(Some(p)))) && p.Sealed? && p.kind == kind
    ensures todo[0] in r.index
    ensures ReadSoFar(r, kind, Reading(todo[1..], out + [Item(todo[0], kind, p.name, p.body, r.index[todo[0]])], None))
  {
    var x := Item(todo[0], kind, p.name, p.body, r.index[todo[0]]);
    assert IsRow(r, kind, todo[0]) && Opened(r)[todo[0]] == x;
    assert forall id <- todo :: id == todo[0] || id in todo[1..];
    var next := out + [x];
    assert forall y <- out :: y in next;
    assert next[|out|] in next;
    assert forall y <- next :: y in out || y == x;
  }

  /** The fetched row is of another kind: it is passed over, and no row of this kind is missed. */
  lemma ScorePassed(r: Redis, kind: Kind, todo: seq<Id>, out: seq<Item>, p: Payload)
    requires ReadSoFar(r, kind, Reading(todo, out, Some(Some(p)))) && p.Sealed? && p.kind != kind
    ensures ReadSoFar(r, kind, Reading(todo[1..], out, None))
  {
    assert forall id <- todo :: id == todo[0] || id in todo[1..];
    assert !IsRow(r, kind, todo[0]);
  }

  lemma ScoreSound(r: Redis, kind: Kind, reading: Reading)
    requires ReadSoFar(r, kind, reading) && ReadStep(r, kind, reading, Score).Some?
    ensures ReadSoFar(r, kind, ReadStep(r, kind, reading, Score).value.1)
  {
    var p := reading.fetched.value.value;
    if p.kind == kind { ScoreListed(r, kind, reading.todo, reading.out, p); }
    else { ScorePassed(r, kind, reading.todo, reading.out, p); }
  }

  lemma PruneSound(r: Redis, kind: Kind, reading: Reading)
    requires ReadSoFar(r, kind, reading) && ReadStep(r, kind, reading, PruneOne).Some?
    ensures var (s, next) := ReadStep(r, kind, reading, PruneOne).value; ReadSoFar(s, kind, next)
  {
    var todo := reading.todo;
    PruneKeepsRows(r, todo[0], reading.fetched.value, kind);
    ReadSoFarKept(r, ReadStep(r, kind, reading, PruneOne).value.0, kind, reading);
    assert forall id <- todo :: id == todo[0] || id in todo[1..];
  }

  lemma ZrangeSound(r: Redis, kind: Kind, order: seq<Id>)
    requires ReadStep(r, kind, Unindexed, Zrange(order)).Some?
    ensures ReadSoFar(r, kind, Reading(order, [], None))
  {
  }

  /** One command of a list, by whoever holds the kind's lock: what was read so far stays true. */
  lemma ReadStepSound(r: Redis, kind: Kind, reading: Reading, e: Event)
    requires ReadSoFar(r, kind, reading) && ReadStep(r, kind, reading, e).Some?
    ensures var (s, next) := ReadStep(r, kind, reading, e).value; ReadSoFar(s, kind, next)
  {
    match e
    case Zrange(order) => ZrangeSound(r, kind, order);
    case Score => ScoreSound(r, kind, reading);
    case PruneOne => PruneSound(r, kind, reading);
    case _ =>
  }

  /** Whatever a list does, it changes no kind's rows, no lock, and stores nothing. */
  lemma ReadStepKeepsRows(r: Redis, kind: Kind, reading: Reading, e: Event, other: Kind)
    requires ReadStep(r, kind, reading, e).Some?
    ensures var s := ReadStep(r, kind, reading, e).value.0;
            SameRows(r, s, other) && s.locks == r.locks && Opened(s) == Opened(r)
            && (forall id <- s.entries :: id in r.entries && s.entries[id] == r.entries[id])
  {
    match (e, reading)
    case (PruneOne, Reading(todo, _, Some(read))) => PruneKeepsRows(r, todo[0], read, other);
    case _ =>
  }

  /** A finished list, sorted, is a listing. */
  lemma ReadIsListing(r: Redis, kind: Kind, out: seq<Item>, sorted: seq<Item>)
    requires ReadSoFar(r, kind, Reading([], out, None)) && IsSorting(out, sorted)
    ensures IsListing(Opened(r), kind, sorted)
  {
    assert forall x :: x in sorted <==> x in multiset(sorted);
    assert forall x :: x in out <==> x in multiset(out);
    DistinctIds(out);
    SortedDistinct(out, sorted);
  }

  lemma SortedDistinct(out: seq<Item>, sorted: seq<Item>)
    requires multiset(out) == multiset(sorted) && Distinct(out)
    ensures Distinct(sorted)
  {
    forall i, j | 0 <= i < j < |sorted| ensures sorted[i].id != sorted[j].id {
      assert sorted[i] in multiset(out) && sorted[j] in multiset(out);
      var a :| 0 <= a < |out| && out[a] == sorted[i];
      var b :| 0 <= b < |out| && out[b] == sorted[j];
      if a == b { TwiceIn(sorted, i, j); TwiceAt(out, a); }
    }
  }

  lemma TwiceIn(s: seq<Item>, i: nat, j: nat)
    requires i < j < |s| && s[i] == s[j]
    ensures multiset(s)[s[i]] >= 2
  {
    assert s == s[..j] + [s[j]] + s[j + 1..];
    assert s[i] in s[..j];
  }

  /** A sequence with distinct ids holds each item once. */
  lemma TwiceAt(s: seq<Item>, a: nat)
    requires Distinct(s) && a < |s|
    ensures multiset(s)[s[a]] == 1
  {
    assert s == s[..a] + [s[a]] + s[a + 1..];
    assert s[a] !in s[..a] && s[a] !in s[a + 1..];
  }

  // ---------------------------------------------------------------------------------------------------------------
  // The serial order
  // ---------------------------------------------------------------------------------------------------------------

  /** What a landed write does to the rows: one transaction, one removal, or the oldest beyond the cap. */
  function Apply(c: Config, m: Items, e: Entry): Items {
    match e
    case Stored(_, kind, name, body, supersedes, at, _, mine) =>
      Saved(m, mine, kind, name, body, supersedes, at, c.idFor(kind, name), c.limit)
    case Removed(_, _, id) => m - {id}
    case Trimmed(_, _, after) => m - Excess(c, after)
  }

  function Replay(c: Config, m: Items, log: seq<Entry>): Items {
    if log == [] then m else Apply(c, Replay(c, m, log[..|log| - 1]), log[|log| - 1])
  }

  /** The write was decided from the rows it lands on, as the call that asked for it decides. */
  ghost predicate DecidedFrom(c: Config, op: Op, m: Items, e: Entry) {
    match (e, op)
    case (Stored(_, kind, name, body, supersedes, _, judged, mine), Write(k, n, change, given, _)) =>
      && kind == k && name == n && supersedes == given
      && IsListing(m, kind, mine) && IdFree(m, kind, name, c.idFor(kind, name))
      && IsListing(m, kind, judged) && change(Named(judged, name), judged) == Some(body)
    case (Removed(_, kind, id), Remove(k, i, when)) =>
      kind == k && id == i && id in m && m[id].kind == kind && when(m[id])
    case (Trimmed(_, kind, after), Write(k, _, _, _, _)) =>
      kind == k && IsListing(m, kind, after) && |after| > c.limit
    case _ => false
  }

  /** Every entry was decided from what the entries before it left. */
  ghost predicate SerialLog(c: Config, m: Items, log: seq<Entry>, calls: map<Pid, Call>) {
    forall i :: 0 <= i < |log| ==>
      log[i].pid in calls && DecidedFrom(c, calls[log[i].pid].op, Replay(c, m, log[..i]), log[i])
  }

  /** How often a call's own change has landed (trims are not counted). */
  function Landings(log: seq<Entry>, p: Pid): nat {
    if log == [] then 0
    else Landings(log[..|log| - 1], p) + (if log[|log| - 1].pid == p && !log[|log| - 1].Trimmed? then 1 else 0)
  }

  /** One call, against what is stored now. */
  ghost predicate CallSound(c: Config, r: Redis, call: Call) {
    var kind := call.op.kind;
    var holds := HasLock(r, kind, call.token);
    var settled := (call.decision.Chosen? && call.applied == 1) || (call.decision.Declined? && call.applied == 0);
    match call.pc
    case Locking(_) => call.applied == 0 && forall k <- r.locks :: r.locks[k] != call.token
    case First(reading) => call.applied == 0 && (holds ==> ReadSoFar(r, kind, reading))
    case Judged(body, reading) =>
      && call.applied == 0 && call.decision.Chosen? && call.op.Write?
      && call.op.change(Named(call.judged, call.op.name), call.judged) == Some(body)
      && (holds ==> IsListing(Opened(r), kind, call.judged) && ReadSoFar(r, kind, reading))
    case Storing(body, mine, _) =>
      && call.applied == 0 && call.decision.Chosen? && call.op.Write?
      && call.op.change(Named(call.judged, call.op.name), call.judged) == Some(body)
      && (holds ==> IsListing(Opened(r), kind, call.judged) && IsListing(Opened(r), kind, mine))
    case Dropping =>
      && call.applied == 0 && call.decision.Chosen? && call.op.Remove?
      && (holds ==> call.op.id in Opened(r) && Opened(r)[call.op.id].kind == kind && call.op.when(Opened(r)[call.op.id]))
    case Second(reading) => settled && (holds ==> ReadSoFar(r, kind, reading))
    case Trimming(after) =>
      settled && call.op.Write? && |after| > c.limit && (holds ==> IsListing(Opened(r), kind, after))
    case Unlocking(outcome) => if outcome.Retry? then call.applied == 0 else settled
    case Done(_) => settled
    case Busy => call.applied == 0
  }

  ghost predicate TokensInv(s: State) {
    && (forall p <- s.calls :: s.calls[p].token < s.nextToken)
    && (forall p <- s.calls, q <- s.calls :: p != q ==> s.calls[p].token != s.calls[q].token)
    && (forall k <- s.redis.locks :: s.redis.locks[k] < s.nextToken)
  }

  ghost predicate LandingsInv(s: State) {
    forall p: Pid :: Landings(s.log, p) == if p in s.calls then s.calls[p].applied else 0
  }

  ghost predicate Inv(c: Config, m: Items, s: State) {
    && IdsOk(c, s.redis)
    && TokensInv(s)
    && (forall p <- s.calls :: CallSound(c, s.redis, s.calls[p]))
    && Opened(s.redis) == Replay(c, m, s.log)
    && SerialLog(c, m, s.log, s.calls)
    && LandingsInv(s)
  }

  /** What others do leaves a call sound: either it has lost its lock, or the rows of its kind are the same. */
  lemma CallKept(c: Config, r: Redis, s: Redis, call: Call)
    requires CallSound(c, r, call)
    requires HasLock(s, call.op.kind, call.token) ==>
               HasLock(r, call.op.kind, call.token) && SameRows(r, s, call.op.kind)
    requires call.pc.Locking? ==> forall k <- s.locks :: s.locks[k] != call.token
    ensures CallSound(c, s, call)
  {
    var kind := call.op.kind;
    if HasLock(s, kind, call.token) {
      OpenedSame(r, s, kind);
      match call.pc
      case First(reading) => ReadSoFarKept(r, s, kind, reading);
      case Second(reading) => ReadSoFarKept(r, s, kind, reading);
      case Judged(_, reading) => ListingKept(r, s, kind, call.judged); ReadSoFarKept(r, s, kind, reading);
      case Storing(_, mine, _) => ListingKept(r, s, kind, call.judged); ListingKept(r, s, kind, mine);
      case Trimming(after) => ListingKept(r, s, kind, after);
      case _ =>
    }
  }

  /** A derived id is free, or its own row's. */
  lemma DerivedIdFree(c: Config, r: Redis, kind: Kind, name: string)
    requires IdsOk(c, r)
    ensures IdFree(Opened(r), kind, name, c.idFor(kind, name))
  {
  }

  /** The item goes over nothing, a value that does not open, or a row of its own kind and name; its id is such a
      row's or the one derived for it. */
  ghost predicate MayTake(c: Config, r: Redis, item: Item) {
    && (item.id in r.entries && r.entries[item.id].Sealed? ==>
          r.entries[item.id].kind == item.kind && r.entries[item.id].name == item.name)
    && (item.id == c.idFor(item.kind, item.name) || (item.id in r.entries && r.entries[item.id].Sealed?))
  }

  lemma FencedIdsOk(c: Config, r: Redis, put: Option<Item>, drop: set<Id>)
    requires Collisionless(c) && IdsOk(c, r) && (put.Some? ==> MayTake(c, r, put.value))
    ensures IdsOk(c, Fenced(r, put, drop))
  {
    var s := Fenced(r, put, drop);
    forall id <- s.entries, k: Kind, n: string | s.entries[id].Sealed? && c.idFor(k, n) == id
      ensures s.entries[id].kind == k && s.entries[id].name == n
    {
      if put.Some? && id == put.value.id {
        if id in r.entries && r.entries[id].Sealed? { assert r.entries[id].kind == k && r.entries[id].name == n; }
      } else {
        assert s.entries[id] == r.entries[id];
      }
    }
  }

  /** What the opened rows are after a fenced write. */
  lemma FencedOpened(r: Redis, put: Option<Item>, drop: set<Id>)
    requires put.Some? ==> put.value.id !in drop
    ensures Opened(Fenced(r, put, drop))
              == if put.Some? then (Opened(r) - drop)[put.value.id := put.value] else Opened(r) - drop
  {
    var s := Fenced(r, put, drop);
    var m := if put.Some? then (Opened(r) - drop)[put.value.id := put.value] else Opened(r) - drop;
    assert Opened(s).Keys == m.Keys;
  }

  /** A write that lands does to the rows what its entry says, and was decided from them. */
  lemma Landing(c: Config, r: Redis, p: Pid, call: Call)
    requires IdsOk(c, r) && CallSound(c, r, call) && HasLock(r, call.op.kind, call.token)
    requires Intent(c, p, call).Some?
    ensures var (put, drop, e) := Intent(c, p, call).value;
            && Opened(Fenced(r, put, drop)) == Apply(c, Opened(r), e)
            && DecidedFrom(c, call.op, Opened(r), e) && e.pid == p
            && (put.Some? ==> put.value.kind == call.op.kind && MayTake(c, r, put.value))
            && (forall id <- drop :: IsRow(r, call.op.kind, id))
  {
    var kind := call.op.kind;
    var m := Opened(r);
    var (put, drop, e) := Intent(c, p, call).value;
    match (call.pc, call.op)
    case (Storing(body, mine, at), Write(_, name, _, supersedes, _)) =>
      DerivedIdFree(c, r, kind, name);
      SavedRows(m, mine, kind, name, body, supersedes, at, c.idFor(kind, name), c.limit);
      DroppedListed(m, mine, kind, name, supersedes, c.idFor(kind, name), c.limit);
      FencedOpened(r, put, drop);
    case (Dropping, Remove(_, id, _)) => FencedOpened(r, put, drop);
    case (Trimming(after), Write(_, _, _, _, _)) =>
      assert forall x <- after[c.limit..] :: x in after;
      FencedOpened(r, put, drop);
  }

  // ---------------------------------------------------------------------------------------------------------------
  // Every action keeps the invariant
  // ---------------------------------------------------------------------------------------------------------------

  lemma SerialLogKept(c: Config, m: Items, log: seq<Entry>, calls: map<Pid, Call>, next: map<Pid, Call>)
    requires SerialLog(c, m, log, calls)
    requires forall p <- calls :: p in next && next[p].op == calls[p].op
    ensures SerialLog(c, m, log, next)
  {
  }

  /** No write lands: the rows, the log and how often calls applied their change stay; the parts of the invariant that
      may be touched are given. */
  lemma UnlandedKeepsInv(c: Config, m: Items, s: State, p: Pid, r: Redis, next: Call, nextToken: Token)
    requires Inv(c, m, s) && p in s.calls
    requires next.op == s.calls[p].op && next.applied == s.calls[p].applied
    requires Opened(r) == Opened(s.redis) && IdsOk(c, r)
    requires TokensInv(State(r, s.calls[p := next], nextToken, s.log))
    requires CallSound(c, r, next) && forall q <- s.calls :: q != p ==> CallSound(c, r, s.calls[q])
    ensures Inv(c, m, State(r, s.calls[p := next], nextToken, s.log))
  {
    hide SerialLog, LandingsInv, CallSound, TokensInv, IdsOk, Opened, Replay;
    var calls := s.calls[p := next];
    SerialLogKept(c, m, s.log, s.calls, calls);
    LandingsKept(s, State(r, calls, nextToken, s.log));
    assert forall q <- calls :: CallSound(c, r, calls[q]);
  }

  lemma LandingsKept(s: State, t: State)
    requires LandingsInv(s) && t.log == s.log && t.calls.Keys == s.calls.Keys
    requires forall p <- s.calls :: t.calls[p].applied == s.calls[p].applied
    ensures LandingsInv(t)
  {
    assert forall p: Pid :: p in t.calls <==> p in t.calls.Keys;
    assert forall p: Pid :: p in s.calls <==> p in s.calls.Keys;
  }

  /** A command of a list: the call reads on, and no kind's rows change. */
  lemma ReadKeepsInv(c: Config, m: Items, s: State, p: Pid, r: Redis, next: Call)
    requires Inv(c, m, s) && p in s.calls && CallSound(c, r, next)
    requires next.op == s.calls[p].op && next.applied == s.calls[p].applied && next.token == s.calls[p].token
    requires r.locks == s.redis.locks && Opened(r) == Opened(s.redis)
    requires forall k: Kind :: SameRows(s.redis, r, k)
    requires forall id <- r.entries :: id in s.redis.entries && r.entries[id] == s.redis.entries[id]
    ensures Inv(c, m, s.(redis := r, calls := s.calls[p := next]))
  {
    forall q <- s.calls | q != p ensures CallSound(c, r, s.calls[q]) { CallKept(c, s.redis, r, s.calls[q]); }
    LocksKeepTokens(s, s.(redis := r, calls := s.calls[p := next]), p);
    UnlandedKeepsInv(c, m, s, p, r, next, s.nextToken);
  }

  lemma ListStepSound(c: Config, s: State, call: Call, e: Event)
    requires CallSound(c, s.redis, call) && ListStep(s, call, e).Some?
    ensures var (t, next) := ListStep(s, call, e).value;
            CallSound(c, t.redis, next) && next == call.(pc := next.pc) && t == s.(redis := t.redis)
            && ReadStep(s.redis, call.op.kind, call.pc.reading, e).Some?
            && t.redis == ReadStep(s.redis, call.op.kind, call.pc.reading, e).value.0
  {
    ReadStepKeepsRows(s.redis, call.op.kind, call.pc.reading, e, call.op.kind);
    if HasLock(s.redis, call.op.kind, call.token) { ReadStepSound(s.redis, call.op.kind, call.pc.reading, e); }
  }

  lemma ListStepKeepsInv(c: Config, m: Items, s: State, p: Pid, e: Event)
    requires Inv(c, m, s) && p in s.calls && ListStep(s, s.calls[p], e).Some?
    ensures var (t, call) := ListStep(s, s.calls[p], e).value; Inv(c, m, t.(calls := s.calls[p := call]))
  {
    var call := s.calls[p];
    ListStepSound(c, s, call, e);
    var (t, next) := ListStep(s, call, e).value;
    forall k: Kind ensures SameRows(s.redis, t.redis, k) {
      ReadStepKeepsRows(s.redis, call.op.kind, call.pc.reading, e, k);
    }
    ReadStepKeepsRows(s.redis, call.op.kind, call.pc.reading, e, call.op.kind);
    ReadKeepsInv(c, m, s, p, t.redis, next);
  }

  /** A call moves on and nothing else does. */
  lemma MoveKeepsInv(c: Config, m: Items, s: State, p: Pid, next: Call)
    requires Inv(c, m, s) && p in s.calls && CallSound(c, s.redis, next)
    requires next.op == s.calls[p].op && next.applied == s.calls[p].applied && next.token == s.calls[p].token
    ensures Inv(c, m, s.(calls := s.calls[p := next]))
  {
    LocksKeepTokens(s, s.(calls := s.calls[p := next]), p);
    UnlandedKeepsInv(c, m, s, p, s.redis, next, s.nextToken);
  }

  lemma LocksKeepTokens(s: State, t: State, p: Pid)
    requires TokensInv(s) && p in s.calls && t.nextToken >= s.nextToken && p in t.calls
    requires t.calls == s.calls[p := t.calls[p]]
    requires t.calls[p].token == s.calls[p].token || (t.calls[p].token == s.nextToken < t.nextToken)
    requires forall k <- t.redis.locks ::
               (k in s.redis.locks && t.redis.locks[k] == s.redis.locks[k]) || t.redis.locks[k] == s.calls[p].token
    ensures TokensInv(t)
  {
  }

  /** Another call, when only locks changed: one lost its lock or kept it. */
  lemma LocksKeepCall(c: Config, r: Redis, locks: map<Kind, Token>, token: Token, other: Call)
    requires CallSound(c, r, other) && other.token != token
    requires forall k <- locks :: (k in r.locks && locks[k] == r.locks[k]) || locks[k] == token
    ensures CallSound(c, r.(locks := locks), other)
  {
    CallKept(c, r, r.(locks := locks), other);
  }

  /** The locks change and the call with them; no row does. */
  lemma LocksKeepInv(c: Config, m: Items, s: State, p: Pid, locks: map<Kind, Token>, next: Call, nextToken: Token)
    requires Inv(c, m, s) && p in s.calls && nextToken >= s.nextToken
    requires next.op == s.calls[p].op && next.applied == s.calls[p].applied
    requires forall k <- locks :: (k in s.redis.locks && locks[k] == s.redis.locks[k]) || locks[k] == s.calls[p].token
    requires next.token == s.calls[p].token || (next.token == s.nextToken < nextToken)
    requires CallSound(c, s.redis.(locks := locks), next)
    ensures Inv(c, m, s.(redis := s.redis.(locks := locks), calls := s.calls[p := next], nextToken := nextToken))
  {
    var r := s.redis.(locks := locks);
    forall q <- s.calls | q != p ensures CallSound(c, r, s.calls[q]) {
      LocksKeepCall(c, s.redis, locks, s.calls[p].token, s.calls[q]);
    }
    LocksKeepTokens(s, State(r, s.calls[p := next], nextToken, s.log), p);
    assert Opened(r) == Opened(s.redis);
    UnlandedKeepsInv(c, m, s, p, r, next, nextToken);
  }

  lemma LockKeepsInv(c: Config, m: Items, s: State, p: Pid)
    requires Inv(c, m, s) && p in s.calls && s.calls[p].pc.Locking?
    ensures var (t, call) := Locked(s, s.calls[p]); Inv(c, m, t.(calls := s.calls[p := call]))
  {
    var (t, call) := Locked(s, s.calls[p]);
    LocksKeepInv(c, m, s, p, t.redis.locks, call, s.nextToken);
  }

  /** Where a call stands after giving its lock up is sound. */
  lemma UnlockedSound(c: Config, r: Redis, call: Call, s: State)
    requires CallSound(c, r, call) && call.pc.Unlocking? && s.redis == r && forall k <- r.locks :: r.locks[k] < s.nextToken
    ensures var (t, next) := Unlocked(s, call, call.pc.outcome);
            && CallSound(c, t.redis, next) && next.op == call.op && next.applied == call.applied
            && t.redis == r.(locks := t.redis.locks)
            && (forall k <- t.redis.locks :: k in r.locks && t.redis.locks[k] == r.locks[k])
            && t.nextToken >= s.nextToken && (next.token == call.token || (next.token == s.nextToken < t.nextToken))
            && t.log == s.log && t.calls == s.calls
  {
  }

  lemma UnlockKeepsInv(c: Config, m: Items, s: State, p: Pid)
    requires Inv(c, m, s) && p in s.calls && s.calls[p].pc.Unlocking?
    ensures var (t, call) := Unlocked(s, s.calls[p], s.calls[p].pc.outcome); Inv(c, m, t.(calls := s.calls[p := call]))
  {
    var (t, call) := Unlocked(s, s.calls[p], s.calls[p].pc.outcome);
    UnlockedSound(c, s.redis, s.calls[p], s);
    hide CallSound, Unlocked;
    LocksKeepInv(c, m, s, p, t.redis.locks, call, t.nextToken);
  }

  lemma DecidedSound(c: Config, r: Redis, call: Call, out: seq<Item>, sorted: seq<Item>, at: int)
    requires CallSound(c, r, call) && call.pc == First(Reading([], out, None)) && IsSorting(out, sorted)
    ensures CallSound(c, r, Decided(call, sorted, at))
  {
    if HasLock(r, call.op.kind, call.token) {
      ReadIsListing(r, call.op.kind, out, sorted);
      if call.op.Remove? { assert forall x <- sorted :: x.id in Opened(r) && Opened(r)[x.id] == x; }
    }
  }

  lemma FinishedSound(c: Config, r: Redis, call: Call, out: seq<Item>, sorted: seq<Item>)
    requires CallSound(c, r, call) && call.pc == Second(Reading([], out, None)) && IsSorting(out, sorted)
    ensures CallSound(c, r, Finished(c, call, sorted))
  {
    if HasLock(r, call.op.kind, call.token) { ReadIsListing(r, call.op.kind, out, sorted); }
  }

  lemma AnsweredSound(c: Config, p: Pid, r: Redis, call: Call)
    requires CallSound(c, r, call) && Intent(c, p, call).Some?
    ensures CallSound(c, r, Answered(c, call, false))
  {
  }

  lemma SerialLogGrows(c: Config, m: Items, s: State, calls: map<Pid, Call>, e: Entry)
    requires SerialLog(c, m, s.log, s.calls) && (forall p <- s.calls :: p in calls && calls[p].op == s.calls[p].op)
    requires e.pid in calls && DecidedFrom(c, calls[e.pid].op, Replay(c, m, s.log), e)
    ensures SerialLog(c, m, s.log + [e], calls)
    ensures Replay(c, m, s.log + [e]) == Apply(c, Replay(c, m, s.log), e)
    ensures forall p: Pid :: Landings(s.log + [e], p) == Landings(s.log, p) + (if e.pid == p && !e.Trimmed? then 1 else 0)
  {
    var log := s.log + [e];
    assert log[..|log| - 1] == s.log;
    forall i | 0 <= i < |log|
      ensures log[i].pid in calls && DecidedFrom(c, calls[log[i].pid].op, Replay(c, m, log[..i]), log[i])
    {
      if i < |s.log| { assert log[..i] == s.log[..i] && log[i] == s.log[i]; }
    }
  }

  /** Others of the same kind do not hold the lock; of another kind, their rows stay. */
  lemma LandedKeepsCall(c: Config, r: Redis, call: Call, put: Option<Item>, drop: set<Id>, other: Call)
    requires CallSound(c, r, other) && HasLock(r, call.op.kind, call.token) && call.token != other.token
    requires put.Some? ==> put.value.kind == call.op.kind && MayTake(c, r, put.value)
    requires forall id <- drop :: IsRow(r, call.op.kind, id)
    ensures CallSound(c, Fenced(r, put, drop), other)
  {
    if other.op.kind != call.op.kind { FencedKeepsOthers(r, put, drop, call.op.kind, other.op.kind); }
    CallKept(c, r, Fenced(r, put, drop), other);
  }

  lemma LandedSound(c: Config, p: Pid, r: Redis, s: Redis, call: Call)
    requires CallSound(c, r, call) && Intent(c, p, call).Some?
    ensures CallSound(c, s, Answered(c, call, true))
  {
  }

  lemma LandedKeepsInv(c: Config, m: Items, s: State, p: Pid)
    requires Inv(c, m, s) && p in s.calls && Intent(c, p, s.calls[p]).Some? && Collisionless(c)
    requires HasLock(s.redis, s.calls[p].op.kind, s.calls[p].token)
    ensures var (put, drop, e) := Intent(c, p, s.calls[p]).value;
            Inv(c, m, s.(redis := Fenced(s.redis, put, drop), log := s.log + [e],
                         calls := s.calls[p := Answered(c, s.calls[p], true)]))
  {
    hide SerialLog, LandingsInv, CallSound, TokensInv, IdsOk, Opened, Apply, DecidedFrom, Intent, MayTake, Replay;
    var call := s.calls[p];
    var (put, drop, e) := Intent(c, p, call).value;
    var t := s.(redis := Fenced(s.redis, put, drop), log := s.log + [e], calls := s.calls[p := Answered(c, call, true)]);
    Landing(c, s.redis, p, call);
    FencedIdsOk(c, s.redis, put, drop);
    SerialLogGrows(c, m, s, t.calls, e);
    LandedKeepsCalls(c, s, p, put, drop);
    LandingsGrow(c, s, t, p, e);
    LocksKeepTokens(s, t, p);
  }

  lemma LandedKeepsCalls(c: Config, s: State, p: Pid, put: Option<Item>, drop: set<Id>)
    requires p in s.calls && (forall q <- s.calls :: CallSound(c, s.redis, s.calls[q])) && TokensInv(s)
    requires HasLock(s.redis, s.calls[p].op.kind, s.calls[p].token) && Intent(c, p, s.calls[p]).Some?
    requires put.Some? ==> put.value.kind == s.calls[p].op.kind && MayTake(c, s.redis, put.value)
    requires forall id <- drop :: IsRow(s.redis, s.calls[p].op.kind, id)
    ensures var calls := s.calls[p := Answered(c, s.calls[p], true)];
            forall q <- calls :: CallSound(c, Fenced(s.redis, put, drop), calls[q])
  {
    var call := s.calls[p];
    LandedSound(c, p, s.redis, Fenced(s.redis, put, drop), call);
    forall q <- s.calls | q != p ensures CallSound(c, Fenced(s.redis, put, drop), s.calls[q]) {
      LandedKeepsCall(c, s.redis, call, put, drop, s.calls[q]);
    }
  }

  lemma LandingsGrow(c: Config, s: State, t: State, p: Pid, e: Entry)
    requires LandingsInv(s) && p in s.calls && Intent(c, p, s.calls[p]).Some? && e == Intent(c, p, s.calls[p]).value.2
    requires t.log == s.log + [e] && t.calls == s.calls[p := Answered(c, s.calls[p], true)]
    requires forall q: Pid :: Landings(t.log, q) == Landings(s.log, q) + (if e.pid == q && !e.Trimmed? then 1 else 0)
    ensures LandingsInv(t)
  {
  }

  lemma CallIsSound(c: Config, m: Items, s: State, p: Pid)
    requires Inv(c, m, s) && p in s.calls
    ensures CallSound(c, s.redis, s.calls[p])
  {
  }

  lemma DecideKeepsInv(c: Config, m: Items, s: State, p: Pid, sorted: seq<Item>, at: int)
    requires Inv(c, m, s) && p in s.calls
    requires s.calls[p].pc.First? && s.calls[p].pc.reading.Reading?
    requires s.calls[p].pc.reading == Reading([], s.calls[p].pc.reading.out, None)
    requires IsSorting(s.calls[p].pc.reading.out, sorted)
    ensures Inv(c, m, s.(calls := s.calls[p := Decided(s.calls[p], sorted, at)]))
  {
    hide Inv, CallSound;
    CallIsSound(c, m, s, p);
    DecidedSound(c, s.redis, s.calls[p], s.calls[p].pc.reading.out, sorted, at);
    MoveKeepsInv(c, m, s, p, Decided(s.calls[p], sorted, at));
  }

  /** An update has its second list: what it was judged on is still what is stored, or the lock is gone. */
  lemma JudgedKeepsInv(c: Config, m: Items, s: State, p: Pid, sorted: seq<Item>, at: int)
    requires Inv(c, m, s) && p in s.calls
    requires s.calls[p].pc.Judged? && s.calls[p].pc.reading.Reading?
    requires s.calls[p].pc.reading == Reading([], s.calls[p].pc.reading.out, None)
    requires IsSorting(s.calls[p].pc.reading.out, sorted)
    ensures var pc := s.calls[p].pc;
            Inv(c, m, s.(calls := s.calls[p := s.calls[p].(pc := Storing(pc.body, sorted, at))]))
  {
    hide Inv;
    var call := s.calls[p];
    CallIsSound(c, m, s, p);
    if HasLock(s.redis, call.op.kind, call.token) {
      ReadIsListing(s.redis, call.op.kind, call.pc.reading.out, sorted);
    }
    MoveKeepsInv(c, m, s, p, call.(pc := Storing(call.pc.body, sorted, at)));
  }

  lemma FinishKeepsInv(c: Config, m: Items, s: State, p: Pid, sorted: seq<Item>)
    requires Inv(c, m, s) && p in s.calls
    requires s.calls[p].pc.Second? && s.calls[p].pc.reading.Reading?
    requires s.calls[p].pc.reading == Reading([], s.calls[p].pc.reading.out, None)
    requires IsSorting(s.calls[p].pc.reading.out, sorted)
    ensures Inv(c, m, s.(calls := s.calls[p := Finished(c, s.calls[p], sorted)]))
  {
    hide Inv, CallSound;
    CallIsSound(c, m, s, p);
    FinishedSound(c, s.redis, s.calls[p], s.calls[p].pc.reading.out, sorted);
    MoveKeepsInv(c, m, s, p, Finished(c, s.calls[p], sorted));
  }

  lemma FencedStep(c: Config, s: State, p: Pid, call: Call)
    requires Intent(c, p, call).Some?
    ensures var (put, drop, entry) := Intent(c, p, call).value;
            ActStep(c, s, p, call, FencedWrite) ==
            Some(if HasLock(s.redis, call.op.kind, call.token)
                 then (s.(redis := Fenced(s.redis, put, drop), log := s.log + [entry]), Answered(c, call, true))
                 else (s, Answered(c, call, false)))
  {
    hide Fenced, Answered, HasLock;
  }

  lemma FencedWriteKeepsInv(c: Config, m: Items, s: State, p: Pid)
    requires Inv(c, m, s) && Collisionless(c) && p in s.calls && Intent(c, p, s.calls[p]).Some?
    ensures ActStep(c, s, p, s.calls[p], FencedWrite).Some?
    ensures var (t, call) := ActStep(c, s, p, s.calls[p], FencedWrite).value; Inv(c, m, t.(calls := s.calls[p := call]))
  {
    var call := s.calls[p];
    FencedStep(c, s, p, call);
    if HasLock(s.redis, call.op.kind, call.token) {
      LandedKeepsInv(c, m, s, p);
    } else {
      AnsweredSound(c, p, s.redis, call);
      MoveKeepsInv(c, m, s, p, Answered(c, call, false));
    }
    hide Inv, ActStep, Fenced, HasLock, Intent;
  }

  lemma ActKeepsInv(c: Config, m: Items, s: State, p: Pid, e: Event)
    requires Inv(c, m, s) && Collisionless(c) && p in s.calls && ActStep(c, s, p, s.calls[p], e).Some?
    ensures var (t, call) := ActStep(c, s, p, s.calls[p], e).value; Inv(c, m, t.(calls := s.calls[p := call]))
  {
    hide Inv;
    if e.TryLock? && s.calls[p].pc.Locking? { LockKeepsInv(c, m, s, p); }
    else if e.Decide? && s.calls[p].pc.First? { DecideKeepsInv(c, m, s, p, e.sorted, e.at); }
    else if e.Decide? && s.calls[p].pc.Judged? { JudgedKeepsInv(c, m, s, p, e.sorted, e.at); }
    else if e.Finish? { FinishKeepsInv(c, m, s, p, e.sorted); }
    else if e.Unlock? && s.calls[p].pc.Unlocking? { UnlockKeepsInv(c, m, s, p); }
    else if e.FencedWrite? { FencedWriteKeepsInv(c, m, s, p); }
    else { ListStepKeepsInv(c, m, s, p, e); }
  }

  lemma BeginKeepsInv(c: Config, m: Items, s: State, p: Pid, op: Op)
    requires Inv(c, m, s) && p !in s.calls
    ensures Inv(c, m, Step(c, s, Begin(p, op)).value)
  {
    var t := Step(c, s, Begin(p, op)).value;
    SerialLogKept(c, m, s.log, s.calls, t.calls);
  }

  lemma ExpireKeepsInv(c: Config, m: Items, s: State, kind: Kind)
    requires Inv(c, m, s)
    ensures Inv(c, m, Step(c, s, Expire(kind)).value)
  {
    var t := Step(c, s, Expire(kind)).value;
    forall q <- t.calls ensures CallSound(c, t.redis, t.calls[q]) { CallKept(c, s.redis, t.redis, s.calls[q]); }
    assert Opened(t.redis) == Opened(s.redis);
  }

  lemma StepKeepsInv(c: Config, m: Items, s: State, a: Action)
    requires Inv(c, m, s) && Collisionless(c) && Step(c, s, a).Some?
    ensures Inv(c, m, Step(c, s, a).value)
  {
    match a
    case Begin(p, op) => BeginKeepsInv(c, m, s, p, op);
    case Act(p, e) => ActKeepsInv(c, m, s, p, e);
    case Expire(kind) => ExpireKeepsInv(c, m, s, kind);
  }

  // ---------------------------------------------------------------------------------------------------------------
  // Over every interleaving
  // ---------------------------------------------------------------------------------------------------------------

  /** No call yet; any rows, and locks set by processes that are gone. */
  ghost predicate IsInit(c: Config, s: State) {
    && s.calls == map[] && s.log == [] && IdsOk(c, s.redis)
    && forall k <- s.redis.locks :: s.redis.locks[k] < s.nextToken
  }

  ghost predicate Next(c: Config, s: State, t: State) {
    exists a :: Step(c, s, a) == Some(t)
  }

  ghost predicate IsTrace(c: Config, tr: seq<State>) {
    && |tr| > 0 && IsInit(c, tr[0])
    && forall i :: 0 <= i < |tr| - 1 ==> Next(c, tr[i], tr[i + 1])
  }

  lemma NextKeepsInv(c: Config, m: Items, s: State, t: State)
    requires Inv(c, m, s) && Collisionless(c) && Next(c, s, t)
    ensures Inv(c, m, t)
  {
    var a :| Step(c, s, a) == Some(t);
    StepKeepsInv(c, m, s, a);
  }

  lemma {:induction false} TraceInv(c: Config, tr: seq<State>, i: nat)
    requires IsTrace(c, tr) && Collisionless(c) && i < |tr|
    ensures Inv(c, Opened(tr[0].redis), tr[i])
  {
    if i > 0 {
      TraceInv(c, tr, i - 1);
      NextKeepsInv(c, Opened(tr[0].redis), tr[i - 1], tr[(i - 1) + 1]);
    }
  }

  /**
   * Whatever interleaves and whenever locks expire, what is stored is what the landed writes leave when they run one
   * after the other, each decided from exactly what the ones before it left.
   */
  lemma LandedWritesAreSerial(c: Config, tr: seq<State>, i: nat)
    requires IsTrace(c, tr) && Collisionless(c) && i < |tr|
    ensures var m := Opened(tr[0].redis);
            Opened(tr[i].redis) == Replay(c, m, tr[i].log) && SerialLog(c, m, tr[i].log, tr[i].calls)
  {
    TraceInv(c, tr, i);
  }

  /** A call that returned applied its change once, or declined and applied none; one that is busy applied none. */
  lemma AppliedExactlyOnce(c: Config, tr: seq<State>, i: nat, p: Pid)
    requires IsTrace(c, tr) && Collisionless(c) && i < |tr| && p in tr[i].calls
    ensures var call := tr[i].calls[p];
            && (call.pc.Done? && call.decision.Chosen? ==> Landings(tr[i].log, p) == 1)
            && (call.pc.Done? && !call.decision.Chosen? ==> call.decision.Declined? && Landings(tr[i].log, p) == 0)
            && (call.pc.Busy? ==> Landings(tr[i].log, p) == 0)
            && Landings(tr[i].log, p) <= 1
  {
    TraceInv(c, tr, i);
    AppliedAtMostOnce(c, Opened(tr[0].redis), tr[i], p);
  }

  lemma AppliedAtMostOnce(c: Config, m: Items, s: State, p: Pid)
    requires Inv(c, m, s) && p in s.calls
    ensures Landings(s.log, p) == s.calls[p].applied <= 1
    ensures CallSound(c, s.redis, s.calls[p])
  {
  }

  /** A saved item of the kind under every name at most once, and under the cap, stays so through any landed writes. */
  ghost predicate Tidy(c: Config, m: Items, kind: Kind) {
    WellKeyed(m) && NamesUnique(m, kind) && |KindIds(m, kind)| <= c.limit
  }

  lemma {:induction false} ReplayTidy(c: Config, m: Items, log: seq<Entry>, calls: map<Pid, Call>, kind: Kind)
    requires c.limit >= 1 && Tidy(c, m, kind) && SerialLog(c, m, log, calls)
    ensures Tidy(c, Replay(c, m, log), kind)
  {
    if log != [] {
      var last := |log| - 1;
      SerialPrefix(c, m, log, calls, last);
      ReplayTidy(c, m, log[..last], calls, kind);
      ApplyTidy(c, calls[log[last].pid].op, Replay(c, m, log[..last]), log[last], kind);
    }
  }

  lemma SerialPrefix(c: Config, m: Items, log: seq<Entry>, calls: map<Pid, Call>, j: nat)
    requires SerialLog(c, m, log, calls) && j <= |log|
    ensures SerialLog(c, m, log[..j], calls)
  {
    forall i | 0 <= i < j
      ensures log[..j][i].pid in calls
      ensures DecidedFrom(c, calls[log[..j][i].pid].op, Replay(c, m, log[..j][..i]), log[..j][i])
    {
      assert log[..j][i] == log[i] && log[..j][..i] == log[..i];
    }
  }

  lemma ApplyTidy(c: Config, op: Op, m: Items, e: Entry, kind: Kind)
    requires c.limit >= 1 && Tidy(c, m, kind) && DecidedFrom(c, op, m, e)
    ensures Tidy(c, Apply(c, m, e), kind)
  {
    match e
    case Stored(_, _, _, _, _, _, _, _) => StoredTidy(c, m, e, kind);
    case Removed(_, _, id) => FewerTidy(c, m, Apply(c, m, e), kind);
    case Trimmed(_, _, _) => FewerTidy(c, m, Apply(c, m, e), kind);
  }

  lemma StoredTidy(c: Config, m: Items, e: Entry, kind: Kind)
    requires c.limit >= 1 && Tidy(c, m, kind) && e.Stored?
    requires IsListing(m, e.kind, e.mine) && IdFree(m, e.kind, e.name, c.idFor(e.kind, e.name))
    ensures Tidy(c, Apply(c, m, e), kind)
  {
    var newId := c.idFor(e.kind, e.name);
    SavedMeets(m, e.mine, e.kind, e.name, e.body, e.supersedes, e.at, newId, c.limit);
    if e.kind == kind {
      SavedKeepsCap(m, e.mine, kind, e.name, e.body, e.supersedes, e.at, newId, c.limit);
    } else {
      OthersTidy(c, m, Apply(c, m, e), e.kind, kind);
    }
  }

  lemma OthersTidy(c: Config, m: Items, n: Items, written: Kind, kind: Kind)
    requires Tidy(c, m, kind) && WellKeyed(n) && OthersKept(m, n, written) && written != kind
    ensures Tidy(c, n, kind)
  {
    assert KindIds(n, kind) == KindIds(m, kind);
  }

  lemma FewerTidy(c: Config, m: Items, n: Items, kind: Kind)
    requires Tidy(c, m, kind) && forall id <- n :: id in m && n[id] == m[id]
    ensures Tidy(c, n, kind)
  {
    assert KindIds(n, kind) <= KindIds(m, kind);
    SubsetSize(KindIds(n, kind), KindIds(m, kind));
  }

  lemma {:induction false} SubsetSize(a: set<Id>, b: set<Id>)
    requires a <= b
    ensures |a| <= |b|
  {
    if a != {} {
      var x :| x in a;
      SubsetSize(a - {x}, b - {x});
    }
  }

  /** Names stay unique and the kind stays at or under its cap; then no trim ever lands either. */
  lemma KindsStayTidy(c: Config, tr: seq<State>, i: nat, kind: Kind)
    requires IsTrace(c, tr) && Collisionless(c) && i < |tr| && c.limit >= 1
    requires Tidy(c, Opened(tr[0].redis), kind)
    ensures Tidy(c, Opened(tr[i].redis), kind)
    ensures forall e <- tr[i].log :: e.Trimmed? ==> e.kind != kind
  {
    var m := Opened(tr[0].redis);
    var log := tr[i].log;
    TraceInv(c, tr, i);
    ReplayTidy(c, m, log, tr[i].calls, kind);
    forall j | 0 <= j < |log| && log[j].Trimmed? ensures log[j].kind != kind {
      var before := log[..j];
      SerialPrefix(c, m, log, tr[i].calls, j);
      ReplayTidy(c, m, before, tr[i].calls, kind);
      if log[j].kind == kind { ListingIds(Replay(c, m, before), kind, log[j].after); }
    }
  }
}
