/**
 * Stored items (bookmarked statements, export templates): what one atomic write does to an owner's rows.
 *
 * This is the list as its readers see it, opened rows only, and the effect of one `transaction` of the SQLite store on
 * it, with what that effect promises. The Redis store (RedisItems) has to refine it.
 */
module SavedItems {
  import opened Wrappers

  type Id = string
  type Kind = string

  datatype Item = Item(id: Id, kind: Kind, name: string, body: string, at: int)

  /** An owner's readable rows by id. */
  type Items = map<Id, Item>

  ghost predicate WellKeyed(m: Items) {
    forall id <- m :: m[id].id == id
  }

  /** `out` is what listing a kind may give: every row of the kind once, newest first, equal times in any order. */
  ghost predicate IsListing(m: Items, kind: Kind, out: seq<Item>) {
    && (forall i :: 0 <= i < |out| ==> out[i].id in m && m[out[i].id] == out[i] && out[i].kind == kind)
    && (forall id <- m :: m[id].kind == kind ==> m[id] in out)
    && Distinct(out)
    && NewestFirst(out)
  }

  ghost predicate Distinct(out: seq<Item>) {
    forall i, j :: 0 <= i < j < |out| ==> out[i].id != out[j].id
  }

  ghost predicate NewestFirst(out: seq<Item>) {
    forall i, j :: 0 <= i < j < |out| ==> out[i].at >= out[j].at
  }

  ghost predicate NamesUnique(m: Items, kind: Kind) {
    forall a <- m, b <- m :: m[a].kind == kind && m[b].kind == kind && m[a].name == m[b].name ==> a == b
  }

  /** The first item of that name. */
  function Named(mine: seq<Item>, name: string): (r: Option<Item>)
    ensures r.Some? ==> r.value in mine && r.value.name == name
    ensures r.None? ==> forall x <- mine :: x.name != name
  {
    if mine == [] then None else if mine[0].name == name then Some(mine[0]) else Named(mine[1..], name)
  }

  function WithId(mine: seq<Item>, id: Id): (r: Option<Item>)
    ensures r.Some? ==> r.value in mine && r.value.id == id
    ensures r.None? ==> forall x <- mine :: x.id != id
  {
    if mine == [] then None else if mine[0].id == id then Some(mine[0]) else WithId(mine[1..], id)
  }

  function Without(mine: seq<Item>, gone: Option<Item>): seq<Item> {
    if mine == [] then []
    else if gone.Some? && mine[0].id == gone.value.id then Without(mine[1..], gone)
    else [mine[0]] + Without(mine[1..], gone)
  }

  /** All but the `limit - 1` rows at the head of a listing: those a new row would push past the cap. */
  function OverCap(mine: seq<Item>, limit: nat): seq<Item> {
    var keep := if limit == 0 then 0 else limit - 1;
    if keep < |mine| then mine[keep..] else []
  }

  function Ids(items: seq<Item>): set<Id> {
    set x <- items :: x.id
  }

  /** The row to be replaced (`replaces` in the source), never the one being written. */
  function Replaced(mine: seq<Item>, supersedes: Option<Id>, existing: Option<Item>): Option<Item> {
    if supersedes.None? || (existing.Some? && existing.value.id == supersedes.value) then None
    else WithId(mine, supersedes.value)
  }

  function Victims(mine: seq<Item>, name: string, supersedes: Option<Id>, limit: nat): seq<Item> {
    var existing := Named(mine, name);
    if existing.Some? then [] else OverCap(Without(mine, Replaced(mine, supersedes, existing)), limit)
  }

  /** One committed transaction that stores `body` under `name`, decided from the listing `mine`. */
  function Saved(m: Items, mine: seq<Item>, kind: Kind, name: string, body: string, supersedes: Option<Id>,
                 at: int, newId: Id, limit: nat): Items
  {
    var existing := Named(mine, name);
    var replaced := Replaced(mine, supersedes, existing);
    var base := if replaced.Some? then m - {replaced.value.id} else m;
    if existing.Some? then base[existing.value.id := Item(existing.value.id, kind, name, body, at)]
    else (base - Ids(Victims(mine, name, supersedes, limit)))[newId := Item(newId, kind, name, body, at)]
  }

  // ---------------------------------------------------------------------------------------------------------------
  // What a transaction promises
  // ---------------------------------------------------------------------------------------------------------------

  function KindIds(m: Items, kind: Kind): set<Id> {
    set id <- m | m[id].kind == kind
  }

  lemma {:induction false} WithoutMembers(mine: seq<Item>, gone: Option<Item>)
    ensures forall x :: x in Without(mine, gone) <==> x in mine && !(gone.Some? && x.id == gone.value.id)
  {
    if mine != [] {
      WithoutMembers(mine[1..], gone);
      assert mine == [mine[0]] + mine[1..];
    }
  }

  lemma {:induction false} WithoutOrdered(mine: seq<Item>, gone: Option<Item>)
    requires Distinct(mine) && NewestFirst(mine)
    ensures Distinct(Without(mine, gone)) && NewestFirst(Without(mine, gone))
  {
    if mine != [] {
      WithoutOrdered(mine[1..], gone);
      var rest := Without(mine[1..], gone);
      WithoutMembers(mine[1..], gone);
      forall k | 0 <= k < |rest| ensures rest[k].id != mine[0].id && mine[0].at >= rest[k].at {
        assert rest[k] in rest;
        var j :| 0 <= j < |mine[1..]| && mine[1..][j] == rest[k];
        assert mine[1 + j] == rest[k];
      }
    }
  }

  lemma {:induction false} WithoutSize(mine: seq<Item>, gone: Option<Item>)
    requires Distinct(mine) && (gone.Some? ==> gone.value in mine)
    ensures |Without(mine, gone)| == |mine| - (if gone.Some? then 1 else 0)
  {
    if mine != [] {
      if gone.Some? && mine[0].id == gone.value.id {
        WithoutAbsent(mine[1..], gone);
      } else {
        WithoutSize(mine[1..], gone);
      }
    }
  }

  lemma {:induction false} WithoutAbsent(mine: seq<Item>, gone: Option<Item>)
    requires gone.Some? ==> forall x <- mine :: x.id != gone.value.id
    ensures Without(mine, gone) == mine
  {
    if mine != [] { WithoutAbsent(mine[1..], gone); }
  }

  lemma {:induction false} DistinctIds(items: seq<Item>)
    requires Distinct(items)
    ensures |Ids(items)| == |items|
  {
    if items != [] {
      DistinctIds(items[1..]);
      assert Ids(items) == {items[0].id} + Ids(items[1..]);
    }
  }

  lemma ListingIds(m: Items, kind: Kind, mine: seq<Item>)
    requires WellKeyed(m) && IsListing(m, kind, mine)
    ensures Ids(mine) == KindIds(m, kind) && |mine| == |KindIds(m, kind)|
  {
    DistinctIds(mine);
    assert Ids(mine) == KindIds(m, kind) by {
      forall id <- KindIds(m, kind) ensures id in Ids(mine) { assert m[id] in mine; }
    }
  }

  /** The id a new row gets is free, or that of a row it may take over: one of the same kind and name. */
  ghost predicate IdFree(m: Items, kind: Kind, name: string, id: Id) {
    id in m ==> m[id].kind == kind && m[id].name == name
  }

  /** Rows of every other kind are exactly as they were. */
  ghost predicate OthersKept(m: Items, n: Items, kind: Kind) {
    && (forall id <- m :: m[id].kind != kind ==> id in n && n[id] == m[id])
    && (forall id <- n :: n[id].kind != kind ==> id in m && m[id] == n[id])
  }

  function TargetId(mine: seq<Item>, name: string, newId: Id): Id {
    var existing := Named(mine, name);
    if existing.Some? then existing.value.id else newId
  }

  /** The ids a transaction drops: the superseded row's, and those evicted to keep the cap. */
  function Dropped(mine: seq<Item>, name: string, supersedes: Option<Id>, limit: nat): set<Id> {
    var replaced := Replaced(mine, supersedes, Named(mine, name));
    (if replaced.Some? then {replaced.value.id} else {}) + Ids(Victims(mine, name, supersedes, limit))
  }

  /** The dropped ids are of listed rows, and never the one being written. */
  lemma DroppedListed(m: Items, mine: seq<Item>, kind: Kind, name: string, supersedes: Option<Id>, newId: Id, limit: nat)
    requires WellKeyed(m) && IsListing(m, kind, mine) && IdFree(m, kind, name, newId)
    ensures var drop := Dropped(mine, name, supersedes, limit);
            && drop <= KindIds(m, kind)
            && TargetId(mine, name, newId) !in drop
            && (Named(mine, name).None? ==> newId !in m)
  {
    var replaced := Replaced(mine, supersedes, Named(mine, name));
    WithoutMembers(mine, replaced);
    assert forall x <- Victims(mine, name, supersedes, limit) :: x in Without(mine, replaced);
    assert newId in m ==> m[newId] in mine;
  }

  /** A transaction writes one row and drops those; every other row is as it was. */
  lemma SavedRows(m: Items, mine: seq<Item>, kind: Kind, name: string, body: string, supersedes: Option<Id>,
                  at: int, newId: Id, limit: nat)
    requires WellKeyed(m) && IsListing(m, kind, mine) && IdFree(m, kind, name, newId)
    ensures var p := TargetId(mine, name, newId);
            Saved(m, mine, kind, name, body, supersedes, at, newId, limit)
              == (m - Dropped(mine, name, supersedes, limit))[p := Item(p, kind, name, body, at)]
  {
    DroppedListed(m, mine, kind, name, supersedes, newId, limit);
    var p := TargetId(mine, name, newId);
    var n := Saved(m, mine, kind, name, body, supersedes, at, newId, limit);
    var drop := Dropped(mine, name, supersedes, limit);
    assert n.Keys == (m.Keys - drop) + {p};
  }

  /**
   * What a transaction leaves: the named row with the new body, rows of other kinds untouched, names still unique, and
   * of this kind only the superseded row and the oldest beyond the cap gone.
   */
  lemma SavedMeets(m: Items, mine: seq<Item>, kind: Kind, name: string, body: string, supersedes: Option<Id>,
                   at: int, newId: Id, limit: nat)
    requires WellKeyed(m) && IsListing(m, kind, mine) && IdFree(m, kind, name, newId)
    ensures var n := Saved(m, mine, kind, name, body, supersedes, at, newId, limit);
            var p := TargetId(mine, name, newId);
            && WellKeyed(n) && OthersKept(m, n, kind)
            && p in n && n[p] == Item(p, kind, name, body, at)
            && (NamesUnique(m, kind) ==> NamesUnique(n, kind))
            && (forall id <- n :: n[id].kind == kind && id != p ==> id in m && n[id] == m[id])
  {
    SavedRows(m, mine, kind, name, body, supersedes, at, newId, limit);
    DroppedListed(m, mine, kind, name, supersedes, newId, limit);
    var n := Saved(m, mine, kind, name, body, supersedes, at, newId, limit);
    var p := TargetId(mine, name, newId);
    if NamesUnique(m, kind) {
      forall a <- n, b <- n | n[a].kind == kind && n[b].kind == kind && n[a].name == n[b].name ensures a == b {
        if a != p && b == p { NameTaken(m, mine, kind, name, newId, a); }
        if b != p && a == p { NameTaken(m, mine, kind, name, newId, b); }
      }
    }
  }

  lemma NameTaken(m: Items, mine: seq<Item>, kind: Kind, name: string, newId: Id, id: Id)
    requires IsListing(m, kind, mine) && WellKeyed(m) && NamesUnique(m, kind)
    requires id in m && m[id].kind == kind && m[id].name == name
    ensures id == TargetId(mine, name, newId)
  {
    assert m[id] in mine;
  }

  /** Which rows of the kind go: the superseded one (never the row written), and otherwise only for a new row, and then
      none that is newer than a row that stays. */
  lemma SavedDrops(m: Items, mine: seq<Item>, kind: Kind, name: string, body: string, supersedes: Option<Id>,
                   at: int, newId: Id, limit: nat)
    requires WellKeyed(m) && IsListing(m, kind, mine) && IdFree(m, kind, name, newId)
    ensures var n := Saved(m, mine, kind, name, body, supersedes, at, newId, limit);
            var p := TargetId(mine, name, newId);
            && (forall id <- m :: m[id].kind == kind && id != p && supersedes == Some(id) ==> id !in n)
            && (forall id <- m :: m[id].kind == kind && id !in n ==> supersedes == Some(id) || Named(mine, name).None?)
            && (forall id <- m, kept <- n ::
                  m[id].kind == kind && id !in n && supersedes != Some(id) && n[kept].kind == kind && kept != p ==>
                    m[id].at <= n[kept].at)
  {
    SavedRows(m, mine, kind, name, body, supersedes, at, newId, limit);
    DroppedListed(m, mine, kind, name, supersedes, newId, limit);
    var n := Saved(m, mine, kind, name, body, supersedes, at, newId, limit);
    var p := TargetId(mine, name, newId);
    var replaced := Replaced(mine, supersedes, Named(mine, name));
    var others := Without(mine, replaced);
    WithoutMembers(mine, replaced);
    WithoutOrdered(mine, replaced);
    forall id <- m | m[id].kind == kind && id != p && supersedes == Some(id) ensures id !in n {
      assert m[id] in mine;
    }
    forall id <- m, kept <- n | m[id].kind == kind && id !in n && supersedes != Some(id) && n[kept].kind == kind && kept != p
      ensures m[id].at <= n[kept].at
    {
      assert m[id] in mine && m[kept] in mine && n[kept] == m[kept];
      assert id in Ids(Victims(mine, name, supersedes, limit));
      var evicted :| evicted in Victims(mine, name, supersedes, limit) && evicted.id == id;
      assert evicted in others && evicted == m[id];
      assert m[kept] in others && m[kept] !in OverCap(others, limit);
      EvictedOldest(others, limit, m[id], m[kept]);
    }
  }

  /** Whatever is beyond the cap is no newer than what is not. */
  lemma EvictedOldest(others: seq<Item>, limit: nat, evicted: Item, kept: Item)
    requires NewestFirst(others) && evicted in OverCap(others, limit) && kept in others && kept !in OverCap(others, limit)
    ensures evicted.at <= kept.at
  {
    var keep := if limit == 0 then 0 else limit - 1;
    var i :| 0 <= i < |others| && others[i] == kept;
    var j :| 0 <= j < |others| - keep && others[keep..][j] == evicted;
    assert forall k :: keep <= k < |others| ==> others[keep..][k - keep] == others[k];
    assert others[keep + j] == evicted;
  }

  /** The kind's size after a transaction. */
  function SizeAfter(mine: seq<Item>, name: string, supersedes: Option<Id>, limit: nat): int {
    var existing := Named(mine, name);
    var without := |mine| - (if Replaced(mine, supersedes, existing).Some? then 1 else 0);
    if existing.Some? then without else (if without < limit then without else if limit == 0 then 0 else limit - 1) + 1
  }

  lemma SavedKindIds(m: Items, mine: seq<Item>, kind: Kind, name: string, body: string, supersedes: Option<Id>,
                     at: int, newId: Id, limit: nat)
    requires WellKeyed(m) && IsListing(m, kind, mine) && IdFree(m, kind, name, newId)
    ensures var p := TargetId(mine, name, newId);
            && KindIds(Saved(m, mine, kind, name, body, supersedes, at, newId, limit), kind)
                 == (KindIds(m, kind) - Dropped(mine, name, supersedes, limit)) + {p}
            && (p in KindIds(m, kind) <==> Named(mine, name).Some?)
  {
    SavedRows(m, mine, kind, name, body, supersedes, at, newId, limit);
    DroppedListed(m, mine, kind, name, supersedes, newId, limit);
  }

  /** The size is exactly that. */
  lemma SavedSize(m: Items, mine: seq<Item>, kind: Kind, name: string, body: string, supersedes: Option<Id>,
                  at: int, newId: Id, limit: nat)
    requires WellKeyed(m) && IsListing(m, kind, mine) && IdFree(m, kind, name, newId)
    ensures |KindIds(Saved(m, mine, kind, name, body, supersedes, at, newId, limit), kind)|
              == SizeAfter(mine, name, supersedes, limit)
  {
    SavedKindIds(m, mine, kind, name, body, supersedes, at, newId, limit);
    DroppedListed(m, mine, kind, name, supersedes, newId, limit);
    ListingIds(m, kind, mine);
    SizeByDropped(mine, name, supersedes, limit);
    KeptSize(KindIds(m, kind), Dropped(mine, name, supersedes, limit), TargetId(mine, name, newId));
  }

  lemma KeptSize(all: set<Id>, drop: set<Id>, p: Id)
    requires drop <= all && p !in drop
    ensures |(all - drop) + {p}| == |all| - |drop| + (if p in all then 0 else 1)
  {
    if p in all { assert (all - drop) + {p} == all - drop; }
  }

  /** Under a cap of at least one, a transaction ends at or under it exactly when it adds a row or had no excess to keep. */
  lemma SavedKeepsCap(m: Items, mine: seq<Item>, kind: Kind, name: string, body: string, supersedes: Option<Id>,
                      at: int, newId: Id, limit: nat)
    requires WellKeyed(m) && IsListing(m, kind, mine) && IdFree(m, kind, name, newId) && limit >= 1
    ensures var replaced := Replaced(mine, supersedes, Named(mine, name));
            |KindIds(Saved(m, mine, kind, name, body, supersedes, at, newId, limit), kind)| <= limit <==>
              Named(mine, name).None? || |KindIds(m, kind)| - (if replaced.Some? then 1 else 0) <= limit
  {
    SavedSize(m, mine, kind, name, body, supersedes, at, newId, limit);
    ListingIds(m, kind, mine);
  }

  lemma VictimsDistinct(mine: seq<Item>, name: string, supersedes: Option<Id>, limit: nat)
    requires Distinct(mine) && NewestFirst(mine)
    ensures Distinct(Victims(mine, name, supersedes, limit))
    ensures var replaced := Replaced(mine, supersedes, Named(mine, name));
            replaced.Some? ==> replaced.value.id !in Ids(Victims(mine, name, supersedes, limit))
  {
    var replaced := Replaced(mine, supersedes, Named(mine, name));
    WithoutMembers(mine, replaced);
    WithoutOrdered(mine, replaced);
    assert forall x <- Victims(mine, name, supersedes, limit) :: x in Without(mine, replaced);
  }

  lemma DroppedSize(mine: seq<Item>, name: string, supersedes: Option<Id>, limit: nat)
    requires Distinct(mine) && NewestFirst(mine)
    ensures |Dropped(mine, name, supersedes, limit)|
              == (if Replaced(mine, supersedes, Named(mine, name)).Some? then 1 else 0)
                 + |Victims(mine, name, supersedes, limit)|
  {
    VictimsDistinct(mine, name, supersedes, limit);
    DistinctIds(Victims(mine, name, supersedes, limit));
  }

  lemma SizeByDropped(mine: seq<Item>, name: string, supersedes: Option<Id>, limit: nat)
    requires Distinct(mine) && NewestFirst(mine)
    ensures SizeAfter(mine, name, supersedes, limit)
              == |mine| - |Dropped(mine, name, supersedes, limit)| + (if Named(mine, name).Some? then 0 else 1)
  {
    DroppedSize(mine, name, supersedes, limit);
    WithoutSize(mine, Replaced(mine, supersedes, Named(mine, name)));
  }
}
