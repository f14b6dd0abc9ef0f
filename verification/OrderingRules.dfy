/**
 * What the order of a dump is an order of: which objects depend on which, and where those stand that depend on nothing.
 */
module OrderingRules {
  import opened Wrappers
  import opened Ordering

  // ---------------------------------------------------------------------------------------------------------------
  // Who depends on whom
  // ---------------------------------------------------------------------------------------------------------------

  /** The last of the dumped objects with this kind and name. */
  ghost predicate IsLastOf(objects: seq<LateObject>, key: LateObject, d: nat) {
    d < |objects| && objects[d] == key && forall j :: d < j < |objects| ==> objects[j] != key
  }

  predicate IsOf(entry: Dependency, o: LateObject) {
    entry.kind == o.kind && entry.name == o.name
  }

  ghost predicate IsLastEntry(catalog: seq<Dependency>, o: LateObject, k: nat) {
    k < |catalog| && IsOf(catalog[k], o) && forall j :: k < j < |catalog| ==> !IsOf(catalog[j], o)
  }

  /** What the catalog says of an object: the last entry for its kind and name, if there is one. */
  ghost predicate CatalogSays(catalog: seq<Dependency>, o: LateObject, key: LateObject) {
    exists k: nat :: IsLastEntry(catalog, o, k) && key in catalog[k].dependsOn
  }

  lemma {:induction false} IndexIsLast(objects: seq<LateObject>, key: LateObject)
    ensures var i := IndexOf(objects, key);
            if i.Some? then IsLastOf(objects, key, i.value) else forall x <- objects :: x != key
    decreases |objects|
  {
    if objects != [] && objects[|objects| - 1] != key {
      var n := |objects| - 1;
      IndexIsLast(objects[..n], key);
      assert forall x <- objects :: x in objects[..n] || x == objects[n];
      assert forall j :: 0 <= j < n ==> objects[..n][j] == objects[j];
    }
  }

  lemma LastEntryOn(catalog: seq<Dependency>, entry: Dependency, o: LateObject, k: nat)
    ensures IsLastEntry(catalog + [entry], o, k)
       <==> if IsOf(entry, o) then k == |catalog| else IsLastEntry(catalog, o, k)
  {
    var all := catalog + [entry];
    assert all[|catalog|] == entry && forall j :: 0 <= j < |catalog| ==> all[j] == catalog[j];
  }

  lemma {:induction false} EntryIsLast(catalog: seq<Dependency>, o: LateObject, key: LateObject)
    ensures key in CatalogEntry(catalog, o) <==> CatalogSays(catalog, o, key)
    decreases |catalog|
  {
    if catalog != [] {
      var before, entry := catalog[..|catalog| - 1], catalog[|catalog| - 1];
      EntryIsLast(before, o, key);
      assert catalog == before + [entry];
      forall k: nat ensures IsLastEntry(catalog, o, k) <==> if IsOf(entry, o) then k == |before| else IsLastEntry(before, o, k) {
        LastEntryOn(before, entry, o, k);
      }
      assert forall k :: 0 <= k < |before| ==> catalog[k] == before[k];
      assert IsOf(entry, o) <==> LateObject(entry.kind, entry.name) == o;
      assert forall k: nat :: IsLastEntry(before, o, k) ==> k < |before|;
      hide IsLastEntry;
      if IsOf(entry, o) {
        assert IsLastEntry(catalog, o, |before|);
      } else if CatalogSays(before, o, key) {
        var k: nat :| IsLastEntry(before, o, k) && key in before[k].dependsOn;
        assert IsLastEntry(catalog, o, k);
      }
    }
  }

  lemma {:induction false} KnownAre(objects: seq<LateObject>, keys: seq<LateObject>, o: nat, d: nat)
    ensures d in Known(objects, keys, o) <==> d != o && exists key <- keys :: IsLastOf(objects, key, d)
    decreases keys
  {
    if keys != [] {
      IndexIsLast(objects, keys[0]);
      KnownAre(objects, keys[1..], o, d);
      assert forall key <- keys :: key == keys[0] || key in keys[1..];
      assert keys[0] in keys && forall key <- keys[1..] :: key in keys;
      if IsLastOf(objects, keys[0], d) {
        assert objects[d] in objects;
        assert IndexOf(objects, keys[0]) == Some(d);
      }
    }
  }

  lemma {:induction false} MentionedAre(objects: seq<LateObject>, mentions: (LateObject, string) -> bool, o: nat, n: nat, d: nat)
    requires o < |objects| && n <= |objects|
    ensures d in Mentioned(objects, mentions, o, n)
       <==> d < n && d != o && objects[d].kind.View? && mentions(objects[o], objects[d].name)
  {
    if n > 0 { MentionedAre(objects, mentions, o, n - 1, d); }
  }

  /**
   * One object depends on another exactly where the catalog's entry for it names that one, or without a catalog where
   * that one is a view its definition mentions; and where that one is dumped and is not the object itself.
   */
  lemma DependsExactly(objects: seq<LateObject>, catalog: Option<seq<Dependency>>, mentions: (LateObject, string) -> bool,
                       o: nat, d: nat)
    requires o < |objects|
    ensures d in GraphOf(objects, catalog, mentions).deps[o]
       <==> d < |objects| && d != o
            && if catalog.Some? then CatalogSays(catalog.value, objects[o], objects[d]) && IsLastOf(objects, objects[d], d)
               else objects[d].kind.View? && mentions(objects[o], objects[d].name)
  {
    assert GraphOf(objects, catalog, mentions).deps[o] == Dependencies(objects, catalog, mentions, o);
    if catalog.Some? {
      var keys := CatalogEntry(catalog.value, objects[o]);
      KnownAre(objects, keys, o, d);
      forall key <- keys ensures CatalogSays(catalog.value, objects[o], key) { EntryIsLast(catalog.value, objects[o], key); }
      if d < |objects| { EntryIsLast(catalog.value, objects[o], objects[d]); }
      hide CatalogSays, CatalogEntry, Known;
    } else {
      MentionedAre(objects, mentions, o, |objects|, d);
    }
  }

  // ---------------------------------------------------------------------------------------------------------------
  // The order that is kept
  // ---------------------------------------------------------------------------------------------------------------

  /** It is the object, or something the object needs. */
  ghost predicate Leads(g: Graph, o: nat, x: nat) {
    x == o || Needs(Next(g), o, x)
  }

  lemma LeadsOn(g: Graph, o: nat, d: nat, x: nat)
    requires IsGraph(g) && o in Nodes(g) && d in g.deps[o] && Leads(g, d, x)
    ensures Leads(g, o, x)
  {
    NeedsDirectly(Next(g), o, d);
    if x != d { NeedsOn(Next(g), o, d, x); }
  }

  /** A visit writes nothing but the object and what it needs. */
  lemma {:induction false} VisitWrites(g: Graph, o: nat, stack: set<nat>, out: seq<nat>)
    requires IsGraph(g) && o in Nodes(g)
    ensures forall x <- Visit(g, o, stack, out).1 :: x in out || Leads(g, o, x)
    decreases Nodes(g) - stack, 0
  {
    hide Leads;
    if o !in out && o !in stack {
      VisitAllWrites(g, g.deps[o], stack + {o}, out);
      var after := VisitAll(g, g.deps[o], stack + {o}, out).1;
      forall x <- after ensures x in out || Leads(g, o, x) {
        if x !in out {
          var d :| d in g.deps[o] && Leads(g, d, x);
          LeadsOn(g, o, d, x);
        }
      }
      ItLeads(g, o);
    }
  }

  lemma ItLeads(g: Graph, o: nat)
    ensures Leads(g, o, o)
  {
  }

  lemma {:induction false} VisitAllWrites(g: Graph, ds: seq<nat>, stack: set<nat>, out: seq<nat>)
    requires IsGraph(g) && forall d <- ds :: d in Nodes(g)
    ensures forall x <- VisitAll(g, ds, stack, out).1 :: x in out || exists d <- ds :: Leads(g, d, x)
    decreases Nodes(g) - stack, |ds| + 1
  {
    hide Leads;
    if ds != [] {
      VisitWrites(g, ds[0], stack, out);
      var after := Visit(g, ds[0], stack, out).1;
      VisitAllWrites(g, ds[1..], stack, after);
      assert ds[0] in ds && forall d <- ds[1..] :: d in ds;
    }
  }

  /** The visits from one object on to another. */
  function VisitsTo(g: Graph, from: nat, end: nat, out: seq<nat>): seq<nat>
    requires IsGraph(g) && from <= end <= |g.deps|
    decreases end - from
  {
    if from == end then out else VisitsTo(g, from + 1, end, Visit(g, from, {}, out).1)
  }

  lemma {:induction false} RootsGoOn(g: Graph, from: nat, end: nat, out: seq<nat>)
    requires IsGraph(g) && from <= end <= |g.deps|
    ensures VisitRoots(g, from, out) == VisitRoots(g, end, VisitsTo(g, from, end, out))
    decreases end - from
  {
    if from < end { RootsGoOn(g, from + 1, end, Visit(g, from, {}, out).1); }
  }

  lemma {:induction false} VisitsWrite(g: Graph, from: nat, end: nat, out: seq<nat>)
    requires IsGraph(g) && from <= end <= |g.deps| && Sound(g, {}, out)
    ensures Sound(g, {}, VisitsTo(g, from, end, out))
    ensures forall x <- VisitsTo(g, from, end, out) :: x in out || (exists o: nat :: from <= o < end && Leads(g, o, x))
    decreases end - from
  {
    hide Leads, Visit;
    if from < end {
      VisitWrites(g, from, {}, out);
      VisitSound(g, from, {}, out);
      VisitsWrite(g, from + 1, end, Visit(g, from, {}, out).1);
    }
  }

  lemma {:induction false} VisitsRanked(g: Graph, safe: set<nat>, rank: nat -> nat, from: nat, end: nat, out: seq<nat>)
    requires IsGraph(g) && from <= end <= |g.deps| && Sound(g, {}, out) && Ranked(g, safe, rank) && DepsFirst(g, safe, out)
    requires forall o <- safe :: o < from ==> o in out
    ensures forall o <- safe :: o < end ==> o in VisitsTo(g, from, end, out)
    decreases end - from
  {
    hide Visit, DepsFirst, Sound, IsGraph;
    if from < end {
      VisitSound(g, from, {}, out);
      VisitRanked(g, safe, rank, from, {}, out);
      VisitsRanked(g, safe, rank, from + 1, end, Visit(g, from, {}, out).1);
    }
  }

  lemma FrontHas(g: Graph, a: nat)
    requires IsGraph(g) && a < |g.deps| && CycleFree(Next(g), a)
    ensures a in VisitsTo(g, 0, a + 1, [])
  {
    var safe, rank := CycleFreeOnes(Nodes(g), Next(g)), Height(Nodes(g), Next(g));
    assert a in safe;
    assert forall o <- Nodes(g) :: Next(g)(o) == g.deps[o];
    hide Height, CycleFreeOnes, Next, VisitsTo;
    CycleFreeOnesRanked(Nodes(g), Next(g));
    VisitsRanked(g, safe, rank, 0, a + 1, []);
  }

  lemma FrontHasNot(g: Graph, a: nat, b: nat)
    requires IsGraph(g) && a < b < |g.deps| && forall o: nat :: o <= a ==> !Needs(Next(g), o, b)
    ensures b !in VisitsTo(g, 0, a + 1, [])
  {
    hide VisitsTo, Needs, Next;
    VisitsWrite(g, 0, a + 1, []);
  }

  /** What the first visits write is where the order begins. */
  lemma FrontIsFirst(g: Graph, a: nat)
    requires IsGraph(g) && a < |g.deps|
    ensures VisitsTo(g, 0, a + 1, []) <= Ordered(g) && forall o <- Nodes(g) :: o in Ordered(g)
  {
    hide VisitsTo, VisitRoots, Visit;
    VisitsWrite(g, 0, a + 1, []);
    RootsGoOn(g, 0, a + 1, []);
    RootsSound(g, a + 1, VisitsTo(g, 0, a + 1, []));
    LeftOverSound(g, 0, VisitRoots(g, 0, []));
    hide LeftOver;
  }

  /**
   * An object that leads into no cycle comes before every later one that nothing up to it needs: without dependencies
   * the order stays what it was.
   */
  lemma OrderIsKept(g: Graph, a: nat, b: nat)
    requires IsGraph(g) && a < b < |g.deps| && CycleFree(Next(g), a) && forall o: nat :: o <= a ==> !Needs(Next(g), o, b)
    ensures exists i, j :: 0 <= i < j < |Ordered(g)| && Ordered(g)[i] == a && Ordered(g)[j] == b
  {
    FrontHas(g, a);
    FrontHasNot(g, a, b);
    FrontIsFirst(g, a);
    hide VisitsTo, Ordered, Needs, CycleFree, Next;
    var front, all := VisitsTo(g, 0, a + 1, []), Ordered(g);
    assert b in Nodes(g);
    var i :| 0 <= i < |front| && front[i] == a;
    var j :| 0 <= j < |all| && all[j] == b;
    assert forall k :: 0 <= k < |front| ==> all[k] == front[k] && all[k] in front;
  }

  // ---------------------------------------------------------------------------------------------------------------
  // Tables
  // ---------------------------------------------------------------------------------------------------------------

  /** Of several listed under one name the last is meant. */
  lemma {:induction false} ListedIsLast(listing: seq<TableInfo>, name: string)
    ensures name in Listed(listing) <==> exists t <- listing :: t.name == name
    ensures name in Listed(listing) ==>
              exists k :: 0 <= k < |listing| && listing[k] == Listed(listing)[name] && listing[k].name == name
                          && forall j :: k < j < |listing| ==> listing[j].name != name
    decreases |listing|
  {
    if listing != [] {
      var n := |listing| - 1;
      ListedIsLast(listing[..n], name);
      assert forall t <- listing :: t in listing[..n] || t == listing[n];
      assert listing[n] in listing && forall t <- listing[..n] :: t in listing;
      if listing[n].name == name {
        assert listing[n] == Listed(listing)[name];
      } else if name in Listed(listing[..n]) {
        var k :| 0 <= k < n && listing[..n][k] == Listed(listing[..n])[name] && listing[..n][k].name == name
                 && forall j :: k < j < n ==> listing[..n][j].name != name;
        assert listing[k] == Listed(listing)[name];
        assert forall j :: k < j < n ==> listing[j] == listing[..n][j];
      }
    }
  }

  lemma {:induction false} NoParents(infos: Infos, parents: seq<string>, stack: set<string>, order: seq<string>)
    requires forall p <- parents :: p !in infos
    ensures PlaceAll(infos, parents, stack, order) == (stack, order)
    decreases parents
  {
    if parents != [] { NoParents(infos, parents[1..], stack, order); }
  }

  lemma {:induction false} TablesAdded(infos: Infos, tables: seq<string>, order: seq<string>)
    requires forall t <- tables :: t in infos && t !in order && forall p <- infos[t].inherits :: p !in infos
    requires forall i, j :: 0 <= i < j < |tables| ==> tables[i] != tables[j]
    ensures TableOrder(infos, tables, order) == order + tables
    decreases tables
  {
    if tables == [] {
      assert order + tables == order;
    } else {
      var t := tables[0];
      assert t in tables;
      NoParents(infos, infos[t].inherits, {t}, order);
      assert {} + {t} == {t};
      assert Place(infos, t, {}, order).1 == order + [t];
      assert forall x <- tables[1..] :: x in tables && x != t;
      TablesAdded(infos, tables[1..], order + [t]);
      assert order + tables == order + [t] + tables[1..];
    }
  }

  /** Tables that inherit from none of the others stay in the order they were asked for. */
  lemma UnrelatedTablesKeepTheirOrder(infos: Infos, tables: seq<string>)
    requires forall t <- tables :: t in infos && forall p <- infos[t].inherits :: p !in infos
    requires forall i, j :: 0 <= i < j < |tables| ==> tables[i] != tables[j]
    ensures TableOrder(infos, tables, []) == tables
  {
    TablesAdded(infos, tables, []);
  }
}
