/**
 * The snapshots one process holds in memory (`SnapshotStore`): what is held and what the ones being taken may still
 * add share one total. `now` is the clock's reading when a method is called.
 */
module Snapshots {
  import opened Wrappers

  const MAX_COUNT := 10

  type Scope = string

  /** `bytes` is the weight of the dump and the definitions kept with it. */
  datatype Snapshot = Snapshot(id: nat, name: string, at: int, bytes: nat)

  type Shelf = map<Scope, seq<Snapshot>>

  datatype Refusal = TooMany | Full

  datatype TakeRefusal = NoRoom | TooLarge | Incomplete | TooManyHeld

  // ---------------------------------------------------------------------------------------------------------------
  // Sums
  // ---------------------------------------------------------------------------------------------------------------

  function Bytes(list: seq<Snapshot>): nat {
    if list == [] then 0 else Bytes(list[..|list| - 1]) + list[|list| - 1].bytes
  }

  ghost function Total(held: Shelf): nat
    decreases |held|
  {
    if held == map[] then 0
    else
      var scope :| scope in held;
      Bytes(held[scope]) + Total(held - {scope})
  }

  /** The total may be taken apart at any scope. */
  lemma {:induction false} TotalApart(held: Shelf, scope: Scope)
    requires scope in held
    ensures Total(held) == Bytes(held[scope]) + Total(held - {scope})
    decreases |held|
  {
    assert held != map[];
    var first :| first in held && Total(held) == Bytes(held[first]) + Total(held - {first});
    if first != scope {
      TotalApart(held - {first}, scope);
      TotalApart(held - {scope}, first);
      assert held - {first} - {scope} == held - {scope} - {first};
    }
  }

  ghost function BytesAt(held: Shelf, scope: Scope): nat {
    if scope in held then Bytes(held[scope]) else 0
  }

  /** Only what changes at one scope counts. */
  lemma TotalChanged(held: Shelf, later: Shelf, scope: Scope)
    requires held - {scope} == later - {scope}
    ensures Total(later) - BytesAt(later, scope) == Total(held) - BytesAt(held, scope)
  {
    if scope in held { TotalApart(held, scope); } else { assert held - {scope} == held; }
    if scope in later { TotalApart(later, scope); } else { assert later - {scope} == later; }
  }

  /** The rooms of the leases not given back. */
  function Room(limits: seq<nat>, released: seq<bool>): nat
    requires |limits| == |released|
  {
    if limits == [] then 0
    else (if released[0] then 0 else limits[0]) + Room(limits[1..], released[1..])
  }

  lemma {:induction false} RoomGivenBack(limits: seq<nat>, released: seq<bool>, k: nat)
    requires |limits| == |released| && k < |limits| && !released[k]
    ensures Room(limits, released[k := true]) == Room(limits, released) - limits[k]
    decreases k
  {
    if k == 0 {
      assert released[0 := true][1..] == released[1..];
    } else {
      assert released[k := true][1..] == released[1..][k - 1 := true];
      RoomGivenBack(limits[1..], released[1..], k - 1);
    }
  }

  lemma {:induction false} RoomTaken(limits: seq<nat>, released: seq<bool>, limit: nat)
    requires |limits| == |released|
    ensures Room(limits + [limit], released + [false]) == Room(limits, released) + limit
    decreases limits
  {
    if limits == [] {
      assert ([] + [limit])[1..] == [] && ([] + [false])[1..] == [];
    } else {
      assert (limits + [limit])[1..] == limits[1..] + [limit] && (released + [false])[1..] == released[1..] + [false];
      RoomTaken(limits[1..], released[1..], limit);
    }
  }

  function Sum(sizes: seq<nat>): nat {
    if sizes == [] then 0 else sizes[0] + Sum(sizes[1..])
  }

  /** A dump read to its end, refused as soon as it is past the limit: exactly where it is larger. */
  method ReadDump(chunks: seq<nat>, limit: nat) returns (bytes: Option<nat>)
    ensures bytes == if Sum(chunks) > limit then None else Some(Sum(chunks))
  {
    var total := 0;
    for i := 0 to |chunks|
      invariant total <= limit && total + Sum(chunks[i..]) == Sum(chunks)
    {
      total := total + chunks[i];
      if total > limit { return None; }
    }
    bytes := Some(total);
  }

  // ---------------------------------------------------------------------------------------------------------------
  // Time
  // ---------------------------------------------------------------------------------------------------------------

  function Live(list: seq<Snapshot>, oldest: int): seq<Snapshot> {
    if list == [] then []
    else
      var rest, last := Live(list[..|list| - 1], oldest), list[|list| - 1];
      if last.at > oldest then rest + [last] else rest
  }

  function Unexpired(held: Shelf, oldest: int): Shelf {
    map scope | scope in held && Live(held[scope], oldest) != [] :: Live(held[scope], oldest)
  }

  lemma {:induction false} LiveSize(list: seq<Snapshot>, oldest: int)
    ensures |Live(list, oldest)| <= |list| && Bytes(Live(list, oldest)) <= Bytes(list)
    ensures |Live(list, oldest)| == |list| ==> Live(list, oldest) == list
    decreases |list|
  {
    if list != [] {
      var n := |list| - 1;
      LiveSize(list[..n], oldest);
      assert list == list[..n] + [list[n]];
      var rest := Live(list[..n], oldest);
      assert (rest + [list[n]])[..|rest|] == rest;
    }
  }

  lemma {:induction false} LiveMembers(list: seq<Snapshot>, oldest: int)
    ensures forall x :: x in Live(list, oldest) <==> x in list && x.at > oldest
    decreases |list|
  {
    if list != [] {
      LiveMembers(list[..|list| - 1], oldest);
      assert list == list[..|list| - 1] + [list[|list| - 1]];
    }
  }

  lemma LiveOnes(list: seq<Snapshot>, oldest: int)
    ensures |Live(list, oldest)| <= |list| && Bytes(Live(list, oldest)) <= Bytes(list)
    ensures forall x :: x in Live(list, oldest) <==> x in list && x.at > oldest
    ensures |Live(list, oldest)| == |list| ==> Live(list, oldest) == list
  {
    LiveSize(list, oldest);
    LiveMembers(list, oldest);
  }

  /** What one lease holds; `released` is the closure's own flag. */
  class Lease {
    const limit: nat
    var released: bool

    constructor (limit: nat)
      ensures this.limit == limit && !released
    {
      this.limit := limit;
      released := false;
    }
  }

  function Limits(leases: seq<Lease>): (r: seq<nat>)
    ensures |r| == |leases|
  {
    if leases == [] then [] else Limits(leases[..|leases| - 1]) + [leases[|leases| - 1].limit]
  }

  ghost function Released(leases: seq<Lease>): (r: seq<bool>)
    reads leases
    ensures |r| == |leases| && forall i :: 0 <= i < |leases| ==> r[i] == leases[i].released
  {
    if leases == [] then [] else Released(leases[..|leases| - 1]) + [leases[|leases| - 1].released]
  }

  lemma {:induction false} LimitAt(leases: seq<Lease>, k: nat)
    requires k < |leases|
    ensures Limits(leases)[k] == leases[k].limit
    decreases |leases|
  {
    if k < |leases| - 1 { LimitAt(leases[..|leases| - 1], k); }
  }

  function Without(list: seq<Snapshot>, id: nat): seq<Snapshot> {
    if list == [] then []
    else
      var rest, last := Without(list[..|list| - 1], id), list[|list| - 1];
      if last.id != id then rest + [last] else rest
  }

  lemma {:induction false} WithoutSize(list: seq<Snapshot>, id: nat)
    ensures |Without(list, id)| <= |list| && Bytes(Without(list, id)) <= Bytes(list)
    ensures |Without(list, id)| == |list| ==> Without(list, id) == list
    decreases |list|
  {
    if list != [] {
      var n := |list| - 1;
      WithoutSize(list[..n], id);
      assert list == list[..n] + [list[n]];
      var rest := Without(list[..n], id);
      assert (rest + [list[n]])[..|rest|] == rest;
    }
  }

  lemma {:induction false} WithoutMembers(list: seq<Snapshot>, id: nat)
    ensures forall x :: x in Without(list, id) <==> x in list && x.id != id
    ensures |Without(list, id)| < |list| ==> exists x <- list :: x.id == id
    decreases |list|
  {
    if list != [] {
      WithoutMembers(list[..|list| - 1], id);
      assert list == list[..|list| - 1] + [list[|list| - 1]];
    }
  }

  /** The scope's snapshots. */
  function At(held: Shelf, scope: Scope): seq<Snapshot> {
    if scope in held then held[scope] else []
  }

  /** The shelf with a scope's list replaced; a scope with none is not kept. */
  function Put(held: Shelf, scope: Scope, list: seq<Snapshot>): Shelf {
    if list == [] then held - {scope} else held[scope := list]
  }

  lemma PutTotal(held: Shelf, scope: Scope, list: seq<Snapshot>)
    ensures Total(Put(held, scope, list)) == Total(held) - Bytes(At(held, scope)) + Bytes(list)
  {
    assert Put(held, scope, list) - {scope} == held - {scope};
    TotalChanged(held, Put(held, scope, list), scope);
  }

  ghost predicate Tidy(held: Shelf, nextId: nat) {
    && (forall scope <- held :: 0 < |held[scope]| <= MAX_COUNT)
    && forall scope <- held :: forall x <- held[scope] :: x.id < nextId
  }

  lemma PutTidy(held: Shelf, nextId: nat, scope: Scope, list: seq<Snapshot>)
    requires Tidy(held, nextId) && |list| <= MAX_COUNT && forall x <- list :: x.id < nextId
    ensures Tidy(Put(held, scope, list), nextId)
  {
  }

  /** Half way through letting go: the scopes still to be looked at are as they were. */
  ghost predicate Expiring(before: Shelf, held: Shelf, todo: set<Scope>, oldest: int, nextId: nat) {
    && Total(held) <= Total(before) && Tidy(held, nextId)
    && (forall scope <- todo :: scope in before && scope in held && held[scope] == before[scope])
    && forall scope :: scope !in todo ==> At(held, scope) == Live(At(before, scope), oldest)
  }

  lemma ExpireStart(held: Shelf, oldest: int, nextId: nat)
    requires Tidy(held, nextId)
    ensures Expiring(held, held, held.Keys, oldest, nextId)
  {
    hide Total;
  }

  lemma ExpireOne(before: Shelf, held: Shelf, todo: set<Scope>, oldest: int, nextId: nat, scope: Scope)
    requires Expiring(before, held, todo, oldest, nextId) && scope in todo
    ensures scope in held
    ensures var kept := Live(held[scope], oldest);
            Expiring(before, if |kept| != |held[scope]| then Put(held, scope, kept) else held, todo - {scope}, oldest, nextId)
  {
    hide Total, Live;
    var kept := Live(held[scope], oldest);
    LiveOnes(held[scope], oldest);
    PutTotal(held, scope, kept);
    PutTidy(held, nextId, scope, kept);
  }

  lemma ShelfIs(before: Shelf, held: Shelf, nextId: nat, oldest: int)
    requires Expiring(before, held, {}, oldest, nextId)
    ensures held == Unexpired(before, oldest) && Total(held) <= Total(before) && Tidy(held, nextId)
  {
    forall scope ensures scope in held <==> scope in Unexpired(before, oldest) {
      assert At(held, scope) == Live(At(before, scope), oldest);
    }
    forall scope | scope in held ensures held[scope] == Unexpired(before, oldest)[scope] {
      assert At(held, scope) == Live(At(before, scope), oldest);
    }
  }

  lemma {:induction false} UnexpiredTotal(held: Shelf, oldest: int)
    ensures Total(Unexpired(held, oldest)) <= Total(held)
    decreases |held|
  {
    hide Live;
    if held != map[] {
      var scope :| scope in held;
      UnexpiredTotal(held - {scope}, oldest);
      TotalApart(held, scope);
      LiveOnes(held[scope], oldest);
      var later := Unexpired(held, oldest);
      assert later - {scope} == Unexpired(held - {scope}, oldest);
      if scope in later { TotalApart(later, scope); } else { assert later - {scope} == later; }
    }
  }

  lemma PutIs(held: Shelf, scope: Scope, list: seq<Snapshot>)
    ensures Put(held, scope, list) == if list == [] then held - {scope} else held[scope := list]
  {
  }

  lemma AtUnexpired(held: Shelf, scope: Scope, oldest: int)
    ensures At(Unexpired(held, oldest), scope) == Live(At(held, scope), oldest)
    ensures forall x :: x in At(Unexpired(held, oldest), scope) <==> x in At(held, scope) && x.at > oldest
  {
    LiveOnes(At(held, scope), oldest);
  }

  lemma {:induction false} LiveTwice(list: seq<Snapshot>, oldest: int)
    ensures Live(Live(list, oldest), oldest) == Live(list, oldest)
    decreases |list|
  {
    if list != [] {
      var n := |list| - 1;
      LiveTwice(list[..n], oldest);
      var rest := Live(list[..n], oldest);
      assert (rest + [list[n]])[..|rest|] == rest;
    }
  }

  lemma UnexpiredTwice(held: Shelf, oldest: int)
    ensures Unexpired(Unexpired(held, oldest), oldest) == Unexpired(held, oldest)
  {
    forall scope <- held ensures Live(Live(held[scope], oldest), oldest) == Live(held[scope], oldest) {
      LiveTwice(held[scope], oldest);
    }
  }

  lemma OneMore(held: Shelf, nextId: nat, scope: Scope, x: Snapshot)
    requires Tidy(held, nextId) && |At(held, scope)| < MAX_COUNT && x.id == nextId
    ensures Tidy(held[scope := At(held, scope) + [x]], nextId + 1)
    ensures Bytes(At(held, scope) + [x]) == Bytes(At(held, scope)) + x.bytes
  {
    var list := At(held, scope);
    assert (list + [x])[..|list|] == list;
  }

  lemma FewerTidy(held: Shelf, nextId: nat, scope: Scope, rest: seq<Snapshot>)
    requires Tidy(held, nextId) && |rest| <= |At(held, scope)| && forall x <- rest :: x in At(held, scope)
    ensures Tidy(Put(held, scope, rest), nextId)
  {
  }

  lemma NothingGone(held: Shelf, nextId: nat, scope: Scope)
    requires Tidy(held, nextId)
    ensures Put(held, scope, At(held, scope)) == held
  {
  }

  lemma LeaseAdded(leases: seq<Lease>, lease: Lease)
    requires !lease.released
    ensures Limits(leases + [lease]) == Limits(leases) + [lease.limit]
    ensures Released(leases + [lease]) == Released(leases) + [false]
  {
    assert (leases + [lease])[..|leases|] == leases;
  }

  class SnapshotStore {
    var held: Shelf
    var nextId: nat
    /** The limits of the leases still out, together. */
    var reserved: int
    const totalLimit: nat
    const ttlMs: nat
    /** Every lease ever handed out. */
    ghost var leases: seq<Lease>

    ghost predicate Valid()
      reads this, leases
    {
      && (forall i, j :: 0 <= i < j < |leases| ==> leases[i] != leases[j])
      && reserved == Room(Limits(leases), Released(leases))
      && Total(held) + reserved <= totalLimit
      && Tidy(held, nextId)
    }

    constructor (totalLimit: nat, ttlMs: nat)
      ensures Valid() && held == map[] && leases == [] && this.totalLimit == totalLimit && this.ttlMs == ttlMs
    {
      held, nextId, reserved := map[], 1, 0;
      this.totalLimit, this.ttlMs := totalLimit, ttlMs;
      leases := [];
    }

    /** The loop over the scopes. */
    method DropOlder(oldest: int)
      requires Tidy(held, nextId)
      modifies this`held
      ensures held == Unexpired(old(held), oldest) && Total(held) <= Total(old(held)) && Tidy(held, nextId)
    {
      var todo := held.Keys;
      ghost var before := held;
      ExpireStart(held, oldest, nextId);
      hide *;
      while todo != {}
        invariant Expiring(before, held, todo, oldest, nextId)
        decreases |todo|
      {
        var scope :| scope in todo;
        ExpireOne(before, held, todo, oldest, nextId, scope);
        var kept := Live(held[scope], oldest);
        PutIs(held, scope, kept);
        if |kept| != |held[scope]| {
          if kept == [] { held := held - {scope}; } else { held := held[scope := kept]; }
        }
        todo := todo - {scope};
      }
      ShelfIs(before, held, nextId, oldest);
    }

    /** Only the snapshots of the last `ttlMs` stay. */
    method Expire(now: int)
      requires Valid()
      modifies this`held
      ensures Valid() && held == Unexpired(old(held), now - ttlMs)
    {
      hide Total, Bytes, Live, Unexpired, Limits, Released, Room, Tidy;
      DropOlder(now - ttlMs);
    }

    /** Never shows a snapshot that has expired. */
    method List(scope: Scope, now: int) returns (r: seq<Snapshot>)
      requires Valid()
      modifies this`held
      ensures Valid() && held == Unexpired(old(held), now - ttlMs)
      ensures r == Live(At(old(held), scope), now - ttlMs) && forall x <- r :: x.at > now - ttlMs
    {
      hide Total, Bytes, Live, Limits, Released, Room, Tidy;
      Expire(now);
      r := if scope in held then held[scope] else [];
      LiveOnes(At(old(held), scope), now - ttlMs);
    }

    method Get(scope: Scope, id: nat, now: int) returns (r: Option<Snapshot>)
      requires Valid()
      modifies this`held
      ensures Valid() && held == Unexpired(old(held), now - ttlMs)
      ensures r.None? ==> forall x <- At(old(held), scope) :: x.id != id || x.at <= now - ttlMs
      ensures r.Some? ==> r.value in At(old(held), scope) && r.value.id == id && r.value.at > now - ttlMs
    {
      hide *;
      Expire(now);
      var list := At(held, scope);
      AtUnexpired(old(held), scope, now - ttlMs);
      for i := 0 to |list|
        invariant forall k :: 0 <= k < i ==> list[k].id != id
      {
        if list[i].id == id { return Some(list[i]); }
      }
      r := None;
    }

    method TotalBytes() returns (total: int)
      ensures total == reserved + Total(held)
    {
      total := reserved;
      var todo := held;
      while todo != map[]
        invariant todo.Keys <= held.Keys && (forall scope <- todo :: todo[scope] == held[scope])
        invariant total + Total(todo) == reserved + Total(held)
        decreases |todo|
      {
        var scope :| scope in todo;
        var list := todo[scope];
        TotalApart(todo, scope);
        for i := 0 to |list|
          invariant total + Bytes(list) - Bytes(list[..i]) + Total(todo - {scope}) == reserved + Total(held)
        {
          assert list[..i + 1][..i] == list[..i];
          total := total + list[i].bytes;
        }
        assert list[..|list|] == list;
        todo := todo - {scope};
      }
    }

    /** Sets room aside, as much as is left up to `most`; refused exactly where nothing is left. */
    method Reserve(most: int, now: int) returns (r: Result<Lease, Refusal>)
      requires Valid()
      modifies this`held, this`reserved, this`leases
      ensures Valid() && held == Unexpired(old(held), now - ttlMs)
      ensures var left := totalLimit - old(reserved) - Total(held);
              var limit := if most < left then most else left;
              if limit <= 0 then r == Err(Full) && leases == old(leases) && reserved == old(reserved)
              else r.Ok? && fresh(r.value) && leases == old(leases) + [r.value] && r.value.limit == limit
                   && !r.value.released && reserved == old(reserved) + limit
    {
      hide Total, Bytes, Live, Unexpired, Limits, Released, Room, Tidy;
      Expire(now);
      var total := TotalBytes();
      var limit := if most < totalLimit - total then most else totalLimit - total;
      if limit <= 0 { return Err(Full); }
      var lease := new Lease(limit);
      reserved := reserved + limit;
      ghost var was := leases;
      leases := leases + [lease];
      LeaseAdded(was, lease);
      RoomTaken(Limits(was), Released(was), limit);
      r := Ok(lease);
    }

    /** Gives the room back; calling it twice does nothing. */
    method Release(lease: Lease)
      requires Valid() && lease in leases
      modifies this`reserved, lease
      ensures Valid() && lease.released
      ensures reserved == if old(lease.released) then old(reserved) else old(reserved) - lease.limit
      ensures reserved <= old(reserved)
    {
      if lease.released { return; }
      ghost var k :| 0 <= k < |leases| && leases[k] == lease;
      ghost var was := Released(leases);
      lease.released := true;
      reserved := reserved - lease.limit;
      assert Released(leases) == was[k := true];
      hide Total, Tidy, Limits, Room;
      RoomGivenBack(Limits(leases), was, k);
      LimitAt(leases, k);
    }

    /** Holds a new snapshot, or refuses: too many in the scope, or no room for it. */
    method Add(scope: Scope, name: string, at: int, bytes: nat, now: int) returns (r: Result<Snapshot, Refusal>)
      requires Valid()
      modifies this`held, this`nextId
      ensures Valid()
      ensures var kept := Unexpired(old(held), now - ttlMs);
              if |At(kept, scope)| >= MAX_COUNT then r == Err(TooMany) && held == kept && nextId == old(nextId)
              else if Total(kept) + reserved + bytes > totalLimit then r == Err(Full) && held == kept && nextId == old(nextId)
              else r == Ok(Snapshot(old(nextId), name, at, bytes)) && nextId == old(nextId) + 1
                   && held == kept[scope := At(kept, scope) + [r.value]]
    {
      hide Total, Bytes, Live, Unexpired, Limits, Released, Room, Tidy;
      Expire(now);
      var list := At(held, scope);
      if |list| >= MAX_COUNT { return Err(TooMany); }
      var total := TotalBytes();
      if total + bytes > totalLimit { return Err(Full); }
      var snapshot := Snapshot(nextId, name, at, bytes);
      var more := list + [snapshot];
      PutTotal(held, scope, more);
      OneMore(held, nextId, scope, snapshot);
      nextId := nextId + 1;
      held := held[scope := more];
      r := Ok(snapshot);
    }

    method Remove(scope: Scope, id: nat, now: int) returns (found: bool)
      requires Valid()
      modifies this`held
      ensures Valid()
      ensures var kept := Unexpired(old(held), now - ttlMs);
              held == Put(kept, scope, Without(At(kept, scope), id)) && (found <==> exists x <- At(kept, scope) :: x.id == id)
    {
      hide Total, Bytes, Live, Unexpired, Limits, Released, Room, Tidy, Without;
      Expire(now);
      var list := At(held, scope);
      var rest := Without(list, id);
      WithoutSize(list, id);
      WithoutMembers(list, id);
      if |rest| == |list| {
        NothingGone(held, nextId, scope);
        return false;
      }
      PutTotal(held, scope, rest);
      FewerTidy(held, nextId, scope, rest);
      held := if rest == [] then held - {scope} else held[scope := rest];
      found := true;
    }

    /**
     * The end of taking a snapshot: the room is given back and the snapshot added with nothing awaited between. What
     * fits its own room is never refused for the total, whatever the others did meanwhile.
     */
    method Keep(lease: Lease, scope: Scope, name: string, at: int, bytes: nat, now: int) returns (r: Result<Snapshot, Refusal>)
      requires Valid() && lease in leases && !lease.released
      modifies this`held, this`nextId, this`reserved, lease
      ensures Valid() && lease.released && reserved == old(reserved) - lease.limit
      ensures bytes <= lease.limit ==> r != Err(Full)
      ensures var kept := Unexpired(old(held), now - ttlMs);
              if |At(kept, scope)| >= MAX_COUNT then r == Err(TooMany) && held == kept && nextId == old(nextId)
              else if Total(kept) + reserved + bytes > totalLimit then r == Err(Full) && held == kept && nextId == old(nextId)
              else r == Ok(Snapshot(old(nextId), name, at, bytes)) && nextId == old(nextId) + 1
                   && held == kept[scope := At(kept, scope) + [r.value]]
    {
      hide Total, Bytes, Live, Unexpired, Limits, Released, Room, Tidy;
      Release(lease);
      UnexpiredTotal(held, now - ttlMs);
      r := Add(scope, name, at, bytes, now);
    }

    /**
     * Taking a snapshot, here with nothing else going on meanwhile: `chunks` are the sizes of the dump's pieces, `kept`
     * the weight of what is kept beside it. However it ends, the room set aside has been given back.
     */
    method Take(scope: Scope, name: string, at: int, most: nat, chunks: seq<nat>, complete: bool, kept: nat, now: int)
      returns (r: Result<Snapshot, TakeRefusal>)
      requires Valid()
      modifies this
      ensures Valid() && reserved == old(reserved)
      ensures var live, bytes := Unexpired(old(held), now - ttlMs), Sum(chunks) + kept;
              var left := totalLimit - old(reserved) - Total(live);
              var refusal := if left <= 0 || most <= 0 then Some(NoRoom)
                             else if Sum(chunks) > most && most <= left then Some(TooLarge)
                             else if Sum(chunks) > left then Some(NoRoom)
                             else if !complete then Some(Incomplete)
                             else if |At(live, scope)| >= MAX_COUNT then Some(TooManyHeld)
                             else if bytes > left then Some(NoRoom) else None;
              if refusal.Some? then r == Err(refusal.value) && held == live && nextId == old(nextId)
              else r == Ok(Snapshot(old(nextId), name, at, bytes)) && nextId == old(nextId) + 1
                   && held == live[scope := At(live, scope) + [r.value]]
    {
      hide Total, Bytes, Live, Unexpired, Limits, Released, Room, Tidy;
      UnexpiredTwice(held, now - ttlMs);
      var lease := Reserve(most, now);
      if lease.Err? { return Err(NoRoom); }
      var dump := ReadDump(chunks, lease.value.limit);
      if dump.None? {
        Release(lease.value);
        return Err(if lease.value.limit < most then NoRoom else TooLarge);
      }
      if !complete {
        Release(lease.value);
        return Err(Incomplete);
      }
      var added := Keep(lease.value, scope, name, at, dump.value + kept, now);
      Release(lease.value);
      match added
      case Ok(snapshot) => r := Ok(snapshot);
      case Err(Full) => r := Err(NoRoom);
      case Err(TooMany) => r := Err(TooManyHeld);
    }
  }
}
