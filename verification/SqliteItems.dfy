/**
 * The SQLite store of saved items (`SqliteSavedQueries`): one table for every owner and kind, read and written inside
 * one transaction. node:sqlite is synchronous, so a call is one atomic step; it is proved against `SavedItems.Saved`.
 */
module SqliteItems {
  import opened Wrappers
  import opened SavedItems

  type Owner = string

  /** A sealed value: what opening it with the row's id gives. */
  datatype Payload = Sealed(kind: Kind, name: string, body: string) | Unreadable

  datatype Row = Row(owner: Owner, payload: Payload, at: int)

  type Table = map<Id, Row>

  function ItemOf(t: Table, id: Id): Item
    requires id in t && t[id].payload.Sealed?
  {
    Item(id, t[id].payload.kind, t[id].payload.name, t[id].payload.body, t[id].at)
  }

  /** The owner's rows that open. */
  function Opened(t: Table, owner: Owner): Items {
    map id | id in t && t[id].owner == owner && t[id].payload.Sealed? :: ItemOf(t, id)
  }

  /** The table without the owner's rows that do not open. */
  function Purged(t: Table, owner: Owner): Table {
    map id | id in t && !(t[id].owner == owner && t[id].payload.Unreadable?) :: t[id]
  }

  ghost predicate OtherOwnersKept(t: Table, u: Table, owner: Owner) {
    && (forall id <- t :: t[id].owner != owner ==> id in u && u[id] == t[id])
    && (forall id <- u :: u[id].owner != owner ==> id in t && t[id] == u[id])
  }

  /** Dropping what does not open changes nothing anybody can read. */
  lemma PurgedReadsTheSame(t: Table, owner: Owner)
    ensures Opened(Purged(t, owner), owner) == Opened(t, owner) && OtherOwnersKept(t, Purged(t, owner), owner)
  {
  }

  lemma OpenedWellKeyed(t: Table, owner: Owner)
    ensures WellKeyed(Opened(t, owner))
  {
  }

  /** Deleting a readable row of the owner. */
  lemma DeletedReads(t: Table, owner: Owner, id: Id)
    requires id in Opened(t, owner)
    ensures Opened(t - {id}, owner) == Opened(t, owner) - {id} && OtherOwnersKept(t, t - {id}, owner)
  {
  }

  lemma OtherOwnersKeptOn(t: Table, u: Table, v: Table, owner: Owner)
    requires OtherOwnersKept(t, u, owner) && OtherOwnersKept(u, v, owner)
    ensures OtherOwnersKept(t, v, owner)
  {
  }

  /** A new row goes in front of the rows that are no newer. */
  function InsertByTime(out: seq<Item>, x: Item): seq<Item> {
    if out == [] || out[0].at <= x.at then [x] + out else [out[0]] + InsertByTime(out[1..], x)
  }

  lemma {:induction false} InsertMembers(out: seq<Item>, x: Item)
    ensures forall y :: y in InsertByTime(out, x) <==> y == x || y in out
  {
    if out != [] {
      InsertMembers(out[1..], x);
      assert out == [out[0]] + out[1..];
    }
  }

  /** Inserting keeps the order, and the ids distinct where the new one is. */
  lemma {:induction false} InsertKeepsOrder(out: seq<Item>, x: Item)
    requires NewestFirst(out) && Distinct(out) && forall y <- out :: y.id != x.id
    ensures NewestFirst(InsertByTime(out, x)) && Distinct(InsertByTime(out, x))
  {
    if out != [] && out[0].at > x.at {
      InsertKeepsOrder(out[1..], x);
      InsertMembers(out[1..], x);
      var rest := InsertByTime(out[1..], x);
      forall k | 0 <= k < |rest| ensures out[0].at >= rest[k].at && out[0].id != rest[k].id {
        assert rest[k] in rest;
        assert rest[k] == x || exists j :: 0 < j < |out| && out[j] == rest[k];
      }
    }
  }

  /** The statements of one transaction, in the order they run, on a table whose unreadable rows were dropped. */
  function Stored(t: Table, owner: Owner, mine: seq<Item>, kind: Kind, name: string, body: string,
                  supersedes: Option<Id>, at: int, uuid: Id, limit: nat): Table
  {
    var existing := Named(mine, name);
    var replaced := Replaced(mine, supersedes, existing);
    var row := Row(owner, Sealed(kind, name, body), at);
    var base := if replaced.Some? then t - {replaced.value.id} else t;
    if existing.Some? then base[existing.value.id := row]
    else (base - Ids(OverCap(Without(mine, replaced), limit)))[uuid := row]
  }

  lemma StoredRows(t: Table, owner: Owner, mine: seq<Item>, kind: Kind, name: string, body: string,
                   supersedes: Option<Id>, at: int, uuid: Id, limit: nat)
    requires IsListing(Opened(t, owner), kind, mine) && uuid !in t
    ensures var p := TargetId(mine, name, uuid);
            Stored(t, owner, mine, kind, name, body, supersedes, at, uuid, limit)
              == (t - Dropped(mine, name, supersedes, limit))[p := Row(owner, Sealed(kind, name, body), at)]
  {
    DroppedListed(Opened(t, owner), mine, kind, name, supersedes, uuid, limit);
    var p := TargetId(mine, name, uuid);
    var u := Stored(t, owner, mine, kind, name, body, supersedes, at, uuid, limit);
    assert u.Keys == (t.Keys - Dropped(mine, name, supersedes, limit)) + {p};
  }

  /** They change the owner's readable rows as `Saved` says, and no other owner's rows. */
  lemma StoredIsSaved(t: Table, owner: Owner, mine: seq<Item>, kind: Kind, name: string, body: string,
                      supersedes: Option<Id>, at: int, uuid: Id, limit: nat)
    requires IsListing(Opened(t, owner), kind, mine) && uuid !in t
    ensures var u := Stored(t, owner, mine, kind, name, body, supersedes, at, uuid, limit);
            && OtherOwnersKept(t, u, owner)
            && Opened(u, owner) == Saved(Opened(t, owner), mine, kind, name, body, supersedes, at, uuid, limit)
  {
    var m := Opened(t, owner);
    StoredRows(t, owner, mine, kind, name, body, supersedes, at, uuid, limit);
    SavedRows(m, mine, kind, name, body, supersedes, at, uuid, limit);
    DroppedListed(m, mine, kind, name, supersedes, uuid, limit);
    OpenedAfter(t, owner, Dropped(mine, name, supersedes, limit), TargetId(mine, name, uuid),
                Row(owner, Sealed(kind, name, body), at));
  }

  lemma OpenedAfter(t: Table, owner: Owner, drop: set<Id>, p: Id, row: Row)
    requires drop <= Opened(t, owner).Keys && (p in t ==> t[p].owner == owner) && row.owner == owner && row.payload.Sealed?
    ensures var u := (t - drop)[p := row];
            && OtherOwnersKept(t, u, owner)
            && Opened(u, owner) == (Opened(t, owner) - drop)[p := ItemOf(u, p)]
  {
    var u := (t - drop)[p := row];
    assert Opened(u, owner).Keys == (Opened(t, owner).Keys - drop) + {p};
  }

  class SqliteSavedQueries {
    var rows: Table
    const limit: nat

    constructor (limit: nat)
      ensures rows == map[] && this.limit == limit
    {
      rows := map[];
      this.limit := limit;
    }

    /** A listing of one kind for the owner; rows of the owner that do not open are dropped on the way. */
    method Read(owner: Owner, kind: Kind) returns (out: seq<Item>)
      modifies this
      ensures rows == Purged(old(rows), owner)
      ensures IsListing(Opened(old(rows), owner), kind, out)
    {
      out := [];
      var todo := set id | id in rows && rows[id].owner == owner;
      ghost var was := rows;
      while todo != {}
        invariant todo <= rows.Keys && forall id <- todo :: was[id].owner == owner
        invariant rows.Keys <= was.Keys && forall id <- rows :: rows[id] == was[id]
        invariant forall id <- was :: id !in rows <==>
                    was[id].owner == owner && was[id].payload.Unreadable? && id !in todo
        invariant Distinct(out) && NewestFirst(out)
        invariant forall x <- out :: x.id in was && was[x.id].owner == owner && was[x.id].payload.Sealed?
                                     && x == ItemOf(was, x.id) && x.kind == kind && x.id !in todo
        invariant forall id <- was | id !in todo && was[id].owner == owner && was[id].payload.Sealed? ::
                    was[id].payload.kind == kind ==> ItemOf(was, id) in out
        decreases todo
      {
        var id :| id in todo;
        todo := todo - {id};
        match rows[id].payload
        case Unreadable => rows := rows - {id};
        case Sealed(k, _, _) =>
          if k == kind {
            var x := ItemOf(rows, id);
            InsertMembers(out, x);
            InsertKeepsOrder(out, x);
            out := InsertByTime(out, x);
          }
      }
      assert rows == Purged(was, owner);
    }

    /** The statements that write the row and drop others, in the order they run. */
    method Store(owner: Owner, mine: seq<Item>, kind: Kind, name: string, body: string, supersedes: Option<Id>,
                 at: int, uuid: Id)
      modifies this
      ensures rows == Stored(old(rows), owner, mine, kind, name, body, supersedes, at, uuid, limit)
    {
      var existing := Named(mine, name);
      var replaced := Replaced(mine, supersedes, existing);
      var row := Row(owner, Sealed(kind, name, body), at);
      if replaced.Some? { rows := rows - {replaced.value.id}; }
      if existing.Some? {
        rows := rows[existing.value.id := row];
      } else {
        var victims := OverCap(Without(mine, replaced), limit);
        ghost var base := rows;
        for i := 0 to |victims|
          invariant rows == base - Ids(victims[..i])
        {
          rows := rows - {victims[i].id};
          assert Ids(victims[..i + 1]) == Ids(victims[..i]) + {victims[i].id};
        }
        assert victims[..|victims|] == victims;
        rows := rows[uuid := row];
      }
    }

    /** The rest of a transaction whose `change` gave a body: the writes, and the list as it is then. */
    method Commit(owner: Owner, kind: Kind, name: string, body: string, mine: seq<Item>, supersedes: Option<Id>,
                  at: int, uuid: Id)
      returns (list: seq<Item>)
      requires uuid !in rows && IsListing(Opened(rows, owner), kind, mine)
      modifies this
      ensures OtherOwnersKept(old(rows), rows, owner)
      ensures Opened(rows, owner)
                == Saved(Opened(old(rows), owner), mine, kind, name, body, supersedes, at, uuid, limit)
      ensures IsListing(Opened(rows, owner), kind, list)
    {
      StoredIsSaved(rows, owner, mine, kind, name, body, supersedes, at, uuid, limit);
      Store(owner, mine, kind, name, body, supersedes, at, uuid);
      PurgedReadsTheSame(rows, owner);
      list := Read(owner, kind);
    }

    /**
     * Stores under `name` what `change` makes of what is there, in one transaction. `mine` is the listing it decided
     * from; a `change` that fails leaves the table exactly as it was.
     */
    method Transaction(owner: Owner, kind: Kind, name: string,
                       change: (Option<Item>, seq<Item>) -> Result<Option<string>, string>,
                       supersedes: Option<Id>, at: int, uuid: Id)
      returns (list: Result<seq<Item>, string>, ghost mine: seq<Item>)
      requires uuid !in rows
      modifies this
      ensures IsListing(Opened(old(rows), owner), kind, mine)
      ensures OtherOwnersKept(old(rows), rows, owner)
      ensures match change(Named(mine, name), mine)
              case Err(e) => list == Err(e) && rows == old(rows)
              case Ok(None) => list == Ok(mine) && Opened(rows, owner) == Opened(old(rows), owner)
              case Ok(Some(body)) =>
                && Opened(rows, owner)
                     == Saved(Opened(old(rows), owner), mine, kind, name, body, supersedes, at, uuid, limit)
                && list.Ok? && IsListing(Opened(rows, owner), kind, list.value)
    {
      var begun := rows;
      var read := Read(owner, kind);
      mine := read;
      ghost var m := Opened(begun, owner);
      assert Opened(rows, owner) == m;
      var existing := Named(read, name);
      match change(existing, read)
      case Err(e) =>
        rows := begun;
        list := Err(e);
      case Ok(None) =>
        list := Ok(read);
      case Ok(Some(body)) =>
        var after := Commit(owner, kind, name, body, read, supersedes, at, uuid);
        list := Ok(after);
    }

    /** Deletes one of the owner's rows of that kind where `when` agrees; any other id matches nothing. */
    method Remove(owner: Owner, kind: Kind, id: Id, when: Item -> bool) returns (list: seq<Item>)
      modifies this
      ensures OtherOwnersKept(old(rows), rows, owner)
      ensures var was := Opened(old(rows), owner);
              Opened(rows, owner) == if id in was && was[id].kind == kind && when(was[id]) then was - {id} else was
      ensures IsListing(Opened(rows, owner), kind, list)
    {
      hide Opened, Purged, OtherOwnersKept;
      ghost var begun, was := rows, Opened(rows, owner);
      PurgedReadsTheSame(rows, owner);
      var read := Read(owner, kind);
      var current := WithId(read, id);
      OpenedWellKeyed(begun, owner);
      assert id in was && was[id].kind == kind ==> was[id] in read;
      assert current.Some? <==> id in was && was[id].kind == kind;
      assert current.Some? ==> was[id] == current.value;
      if current.Some? && when(current.value) {
        DeletedReads(rows, owner, id);
        OtherOwnersKeptOn(begun, rows, rows - {id}, owner);
        rows := rows - {id};
      }
      PurgedReadsTheSame(rows, owner);
      OtherOwnersKeptOn(begun, rows, Purged(rows, owner), owner);
      list := Read(owner, kind);
    }
  }
}
