/**
 * The order a dump writes its objects in: views and routines after what they depend on (`orderObjects`), tables after
 * the tables they inherit from (`resolveObjects`). Both visit depth first and must end on any graph, cyclic or not.
 */
module Ordering {
  import opened Wrappers

  /** Objects are their positions in the input; `deps` lists what each depends on, never itself. */
  datatype Graph = Graph(deps: seq<seq<nat>>, routine: seq<bool>)

  ghost predicate IsGraph(g: Graph) {
    |g.routine| == |g.deps| && forall o :: 0 <= o < |g.deps| ==> forall d <- g.deps[o] :: d < |g.deps| && d != o
  }

  function Below(n: nat): (s: set<nat>)
    ensures forall o: nat :: o in s <==> o < n
  {
    if n == 0 then {} else Below(n - 1) + {n - 1}
  }

  function Nodes(g: Graph): set<nat> {
    Below(|g.deps|)
  }

  // ---------------------------------------------------------------------------------------------------------------
  // The objects of a dump as a graph
  // ---------------------------------------------------------------------------------------------------------------

  datatype Kind = View | Routine | OtherKind

  datatype LateObject = LateObject(kind: Kind, name: string)

  /** An entry of the server's catalog. */
  datatype Dependency = Dependency(kind: Kind, name: string, dependsOn: seq<LateObject>)

  /** Of several with one key the last one is found. */
  function IndexOf(objects: seq<LateObject>, key: LateObject): Option<nat> {
    if objects == [] then None
    else if objects[|objects| - 1] == key then Some(|objects| - 1)
    else IndexOf(objects[..|objects| - 1], key)
  }

  function CatalogEntry(catalog: seq<Dependency>, key: LateObject): seq<LateObject> {
    if catalog == [] then []
    else
      var last := catalog[|catalog| - 1];
      if LateObject(last.kind, last.name) == key then last.dependsOn else CatalogEntry(catalog[..|catalog| - 1], key)
  }

  /** The dumped objects among the keys, but for `o` itself. */
  function Known(objects: seq<LateObject>, keys: seq<LateObject>, o: nat): seq<nat> {
    if keys == [] then []
    else
      var found := IndexOf(objects, keys[0]);
      (if found.Some? && found.value != o then [found.value] else []) + Known(objects, keys[1..], o)
  }

  /** The views `o`'s definition mentions, of the first `n` objects. */
  function Mentioned(objects: seq<LateObject>, mentions: (LateObject, string) -> bool, o: nat, n: nat): seq<nat>
    requires o < |objects| && n <= |objects|
  {
    if n == 0 then []
    else
      Mentioned(objects, mentions, o, n - 1)
      + if n - 1 != o && objects[n - 1].kind.View? && mentions(objects[o], objects[n - 1].name) then [n - 1] else []
  }

  /** The catalog decides where the server keeps one; otherwise the views a definition mentions are taken. */
  function Dependencies(objects: seq<LateObject>, catalog: Option<seq<Dependency>>, mentions: (LateObject, string) -> bool,
                        o: nat): seq<nat>
    requires o < |objects|
  {
    if catalog.Some? then Known(objects, CatalogEntry(catalog.value, objects[o]), o)
    else Mentioned(objects, mentions, o, |objects|)
  }

  function GraphOf(objects: seq<LateObject>, catalog: Option<seq<Dependency>>, mentions: (LateObject, string) -> bool): Graph {
    Graph(seq(|objects|, o requires 0 <= o < |objects| => Dependencies(objects, catalog, mentions, o)),
          seq(|objects|, o requires 0 <= o < |objects| => objects[o].kind.Routine?))
  }

  lemma {:induction false} IndexFound(objects: seq<LateObject>, key: LateObject)
    ensures var i := IndexOf(objects, key); i.Some? ==> i.value < |objects| && objects[i.value] == key
    decreases |objects|
  {
    if objects != [] { IndexFound(objects[..|objects| - 1], key); }
  }

  lemma {:induction false} KnownInside(objects: seq<LateObject>, keys: seq<LateObject>, o: nat)
    ensures forall d <- Known(objects, keys, o) :: d < |objects| && d != o
  {
    if keys != [] {
      IndexFound(objects, keys[0]);
      KnownInside(objects, keys[1..], o);
    }
  }

  lemma {:induction false} MentionedInside(objects: seq<LateObject>, mentions: (LateObject, string) -> bool, o: nat, n: nat)
    requires o < |objects| && n <= |objects|
    ensures forall d <- Mentioned(objects, mentions, o, n) :: d < |objects| && d != o
  {
    if n > 0 { MentionedInside(objects, mentions, o, n - 1); }
  }

  lemma ObjectsMakeAGraph(objects: seq<LateObject>, catalog: Option<seq<Dependency>>, mentions: (LateObject, string) -> bool)
    ensures IsGraph(GraphOf(objects, catalog, mentions))
  {
    forall o | 0 <= o < |objects| ensures forall d <- Dependencies(objects, catalog, mentions, o) :: d < |objects| && d != o {
      if catalog.Some? {
        KnownInside(objects, CatalogEntry(catalog.value, objects[o]), o);
      } else {
        MentionedInside(objects, mentions, o, |objects|);
      }
    }
  }

  // ---------------------------------------------------------------------------------------------------------------
  // Visiting
  // ---------------------------------------------------------------------------------------------------------------

  /** One visit: whether `o` is done after it, and the order so far. Each visit has one object more on the stack. */
  function Visit(g: Graph, o: nat, stack: set<nat>, out: seq<nat>): (bool, seq<nat>)
    requires IsGraph(g) && o in Nodes(g)
    decreases Nodes(g) - stack, 0
  {
    if o in out then (true, out)
    else if o in stack then (false, out)
    else
      var (blocked, after) := VisitAll(g, g.deps[o], stack + {o}, out);
      if blocked && g.routine[o] then (false, after) else (true, after + [o])
  }

  /** The visits to what an object depends on: whether one of them was blocked. */
  function VisitAll(g: Graph, ds: seq<nat>, stack: set<nat>, out: seq<nat>): (bool, seq<nat>)
    requires IsGraph(g) && forall d <- ds :: d in Nodes(g)
    decreases Nodes(g) - stack, |ds| + 1
  {
    if ds == [] then (false, out)
    else
      var (ok, after) := Visit(g, ds[0], stack, out);
      var (blocked, all) := VisitAll(g, ds[1..], stack, after);
      (!ok || blocked, all)
  }

  function VisitRoots(g: Graph, from: nat, out: seq<nat>): seq<nat>
    requires IsGraph(g) && from <= |g.deps|
    decreases |g.deps| - from
  {
    if from == |g.deps| then out else VisitRoots(g, from + 1, Visit(g, from, {}, out).1)
  }

  function LeftOver(g: Graph, from: nat, out: seq<nat>): seq<nat>
    requires from <= |g.deps|
    decreases |g.deps| - from
  {
    if from == |g.deps| then out else LeftOver(g, from + 1, if from in out then out else out + [from])
  }

  function Ordered(g: Graph): seq<nat>
    requires IsGraph(g)
  {
    LeftOver(g, 0, VisitRoots(g, 0, []))
  }

  /** The closures of the source over `out`, `done` and the stack. */
  class Orderer {
    const g: Graph
    var out: seq<nat>
    var done: set<nat>
    var stack: set<nat>

    ghost predicate Valid()
      reads this
    {
      IsGraph(g) && forall o :: o in done <==> o in out
    }

    constructor (g: Graph)
      requires IsGraph(g)
      ensures Valid() && this.g == g && out == [] && stack == {}
    {
      this.g := g;
      out, done, stack := [], {}, {};
    }

    method Emit(o: nat)
      requires Valid()
      modifies this`out, this`done
      ensures Valid() && out == old(out) + [o]
    {
      done := done + {o};
      out := out + [o];
    }

    /** What a visit leaves in `out`: see `VisitSound` and `VisitRanked`. */
    method VisitOne(o: nat) returns (ok: bool)
      requires Valid() && o in Nodes(g)
      modifies this
      ensures Valid() && stack == old(stack)
      ensures (ok, out) == Visit(g, o, old(stack), old(out))
      decreases Nodes(g) - stack
    {
      if o in done { return true; }
      if o in stack { return false; }
      ghost var was, before := stack, out;
      stack := stack + {o};
      var blocked := false;
      var deps := g.deps[o];
      for i := 0 to |deps|
        invariant Valid() && stack == was + {o} && forall d <- deps[i..] :: d in Nodes(g)
        invariant var (b, all) := VisitAll(g, deps[i..], stack, out);
                  (blocked || b, all) == VisitAll(g, deps, stack, before)
      {
        assert deps[i..][1..] == deps[i + 1..];
        assert deps[i] in deps;
        var fine := VisitOne(deps[i]);
        if !fine { blocked := true; }
      }
      stack := stack - {o};
      if blocked && g.routine[o] { return false; }
      Emit(o);
      ok := true;
    }

    /** The order is a permutation, dependencies first where that can be: `EachExactlyOnce`, `DependenciesFirst`. */
    method Run()
      requires Valid() && out == [] && stack == {}
      modifies this
      ensures Valid() && out == Ordered(g)
    {
      for o := 0 to |g.deps|
        invariant Valid() && stack == {}
        invariant VisitRoots(g, o, out) == VisitRoots(g, 0, [])
      {
        var ok := VisitOne(o);
      }
      for o := 0 to |g.deps|
        invariant Valid()
        invariant LeftOver(g, o, out) == Ordered(g)
      {
        if o !in done { Emit(o); }
      }
    }
  }

  method OrderObjects(objects: seq<LateObject>, catalog: Option<seq<Dependency>>, mentions: (LateObject, string) -> bool)
    returns (out: seq<nat>)
    ensures var g := GraphOf(objects, catalog, mentions);
            && IsGraph(g) && out == Ordered(g)
            && (forall o: nat :: o in out <==> o < |objects|) && (forall i, j :: 0 <= i < j < |out| ==> out[i] != out[j])
            && DepsFirst(g, CycleFreeOnes(Nodes(g), Next(g)), out)
  {
    ObjectsMakeAGraph(objects, catalog, mentions);
    EachExactlyOnce(GraphOf(objects, catalog, mentions));
    DependenciesFirst(GraphOf(objects, catalog, mentions));
    hide DepsFirst, CycleFreeOnes, Next;
    var orderer := new Orderer(GraphOf(objects, catalog, mentions));
    orderer.Run();
    out := orderer.out;
  }

  // ---------------------------------------------------------------------------------------------------------------
  // What the order is
  // ---------------------------------------------------------------------------------------------------------------

  /** An order in the making: objects once each, none of them still on the stack. */
  ghost predicate Sound(g: Graph, stack: set<nat>, out: seq<nat>) {
    && (forall o <- out :: o in Nodes(g) && o !in stack)
    && forall i, j :: 0 <= i < j < |out| ==> out[i] != out[j]
  }

  lemma {:induction false} VisitSound(g: Graph, o: nat, stack: set<nat>, out: seq<nat>)
    requires IsGraph(g) && o in Nodes(g) && Sound(g, stack, out)
    ensures var (ok, after) := Visit(g, o, stack, out); Sound(g, stack, after) && out <= after && (ok <==> o in after)
    decreases Nodes(g) - stack, 0
  {
    if o !in out && o !in stack {
      VisitAllSound(g, g.deps[o], stack + {o}, out);
    }
  }

  lemma {:induction false} VisitAllSound(g: Graph, ds: seq<nat>, stack: set<nat>, out: seq<nat>)
    requires IsGraph(g) && (forall d <- ds :: d in Nodes(g)) && Sound(g, stack, out)
    ensures var (blocked, after) := VisitAll(g, ds, stack, out);
            Sound(g, stack, after) && out <= after && (!blocked ==> forall d <- ds :: d in after)
    decreases Nodes(g) - stack, |ds| + 1
  {
    if ds != [] {
      VisitSound(g, ds[0], stack, out);
      VisitAllSound(g, ds[1..], stack, Visit(g, ds[0], stack, out).1);
    }
  }

  lemma {:induction false} RootsSound(g: Graph, from: nat, out: seq<nat>)
    requires IsGraph(g) && from <= |g.deps| && Sound(g, {}, out)
    ensures Sound(g, {}, VisitRoots(g, from, out)) && out <= VisitRoots(g, from, out)
    decreases |g.deps| - from
  {
    if from < |g.deps| {
      VisitSound(g, from, {}, out);
      RootsSound(g, from + 1, Visit(g, from, {}, out).1);
    }
  }

  lemma {:induction false} LeftOverSound(g: Graph, from: nat, out: seq<nat>)
    requires IsGraph(g) && from <= |g.deps| && Sound(g, {}, out) && forall o :: 0 <= o < from ==> o in out
    ensures var all := LeftOver(g, from, out); Sound(g, {}, all) && out <= all && forall o :: o in Nodes(g) ==> o in all
    decreases |g.deps| - from
  {
    if from < |g.deps| {
      LeftOverSound(g, from + 1, if from in out then out else out + [from]);
    }
  }

  /** Whatever the graph, every object is written exactly once. */
  lemma EachExactlyOnce(g: Graph)
    requires IsGraph(g)
    ensures var all := Ordered(g);
            (forall o :: o in all <==> o in Nodes(g)) && forall i, j :: 0 <= i < j < |all| ==> all[i] != all[j]
  {
    RootsSound(g, 0, []);
    LeftOverSound(g, 0, VisitRoots(g, 0, []));
  }

  // ---------------------------------------------------------------------------------------------------------------
  // Dependencies first
  // ---------------------------------------------------------------------------------------------------------------

  /** Everything a member of `safe` depends on is one too, and ranks lower. */
  ghost predicate Ranked(g: Graph, safe: set<nat>, rank: nat -> nat) {
    forall o <- safe :: o in Nodes(g) && forall d <- g.deps[o] :: d in safe && rank(d) < rank(o)
  }

  ghost predicate DepsFirst(g: Graph, safe: set<nat>, out: seq<nat>) {
    forall i :: 0 <= i < |out| && out[i] in safe && out[i] in Nodes(g) ==> forall d <- g.deps[out[i]] :: d in out[..i]
  }

  /** No safe object is visited from under one it depends on. */
  ghost predicate Reachable(safe: set<nat>, rank: nat -> nat, o: nat, stack: set<nat>) {
    if o in safe then forall x <- stack :: x in safe ==> rank(o) < rank(x) else stack !! safe
  }

  lemma {:induction false} VisitRanked(g: Graph, safe: set<nat>, rank: nat -> nat, o: nat, stack: set<nat>, out: seq<nat>)
    requires IsGraph(g) && o in Nodes(g) && Sound(g, stack, out)
    requires Ranked(g, safe, rank) && DepsFirst(g, safe, out) && Reachable(safe, rank, o, stack)
    ensures var (ok, after) := Visit(g, o, stack, out); DepsFirst(g, safe, after) && (o in safe ==> ok)
    decreases Nodes(g) - stack, 0
  {
    if o !in out && o !in stack {
      VisitAllSound(g, g.deps[o], stack + {o}, out);
      VisitAllRanked(g, safe, rank, g.deps[o], stack + {o}, out);
      var (blocked, after) := VisitAll(g, g.deps[o], stack + {o}, out);
      assert (after + [o])[..|after|] == after;
      forall i | 0 <= i < |after| ensures (after + [o])[..i] == after[..i] {}
    }
  }

  lemma {:induction false} VisitAllRanked(g: Graph, safe: set<nat>, rank: nat -> nat, ds: seq<nat>, stack: set<nat>, out: seq<nat>)
    requires IsGraph(g) && (forall d <- ds :: d in Nodes(g)) && Sound(g, stack, out)
    requires Ranked(g, safe, rank) && DepsFirst(g, safe, out) && forall d <- ds :: Reachable(safe, rank, d, stack)
    ensures var (blocked, after) := VisitAll(g, ds, stack, out);
            DepsFirst(g, safe, after) && ((forall d <- ds :: d in safe) ==> !blocked)
    decreases Nodes(g) - stack, |ds| + 1
  {
    if ds != [] {
      VisitSound(g, ds[0], stack, out);
      VisitRanked(g, safe, rank, ds[0], stack, out);
      VisitAllRanked(g, safe, rank, ds[1..], stack, Visit(g, ds[0], stack, out).1);
    }
  }

  lemma {:induction false} RootsRanked(g: Graph, safe: set<nat>, rank: nat -> nat, from: nat, out: seq<nat>)
    requires IsGraph(g) && from <= |g.deps| && Sound(g, {}, out) && Ranked(g, safe, rank) && DepsFirst(g, safe, out)
    requires forall o <- safe :: o < from ==> o in out
    ensures var all := VisitRoots(g, from, out); DepsFirst(g, safe, all) && forall o <- safe :: o in all
    decreases |g.deps| - from
  {
    hide Visit, DepsFirst, Sound, IsGraph;
    if from < |g.deps| {
      VisitSound(g, from, {}, out);
      VisitRanked(g, safe, rank, from, {}, out);
      RootsRanked(g, safe, rank, from + 1, Visit(g, from, {}, out).1);
    }
  }

  lemma {:induction false} LeftOverRanked(g: Graph, safe: set<nat>, from: nat, out: seq<nat>)
    requires from <= |g.deps| && DepsFirst(g, safe, out) && forall o <- safe :: o in out
    ensures DepsFirst(g, safe, LeftOver(g, from, out))
    decreases |g.deps| - from
  {
    if from < |g.deps| {
      var next := if from in out then out else out + [from];
      forall i | 0 <= i < |out| ensures next[..i] == out[..i] {}
      LeftOverRanked(g, safe, from + 1, next);
    }
  }

  lemma RankedFirst(g: Graph, safe: set<nat>, rank: nat -> nat)
    requires IsGraph(g) && Ranked(g, safe, rank)
    ensures DepsFirst(g, safe, Ordered(g))
  {
    RootsRanked(g, safe, rank, 0, []);
    LeftOverRanked(g, safe, 0, VisitRoots(g, 0, []));
  }

  /** Every object that leads into no cycle is written after everything it depends on, whatever cycles there are elsewhere. */
  lemma DependenciesFirst(g: Graph)
    requires IsGraph(g)
    ensures DepsFirst(g, CycleFreeOnes(Nodes(g), Next(g)), Ordered(g))
  {
    assert forall o <- Nodes(g) :: Next(g)(o) == g.deps[o];
    hide Height, CycleFreeOnes, Next;
    CycleFreeOnesRanked(Nodes(g), Next(g));
    RankedFirst(g, CycleFreeOnes(Nodes(g), Next(g)), Height(Nodes(g), Next(g)));
  }

  function Next(g: Graph): nat -> seq<nat> {
    (o: nat) => if o < |g.deps| then g.deps[o] else []
  }

  // ---------------------------------------------------------------------------------------------------------------
  // The tables of a dump
  // ---------------------------------------------------------------------------------------------------------------

  datatype TableKind = PlainTable | ViewTable | MaterializedView | Sequence

  datatype TableInfo = TableInfo(name: string, kind: TableKind, inherits: seq<string>, ownedBy: Option<string>)

  type Infos = map<string, TableInfo>

  /** Of several listed under one name the last one counts. */
  function Listed(listing: seq<TableInfo>): Infos {
    if listing == [] then map[]
    else Listed(listing[..|listing| - 1])[listing[|listing| - 1].name := listing[|listing| - 1]]
  }

  function Gone(listed: Infos, tables: seq<string>): seq<string> {
    if tables == [] then []
    else (if tables[0] in listed then [] else [tables[0]]) + Gone(listed, tables[1..])
  }

  /** A sequence that goes with a requested table: one of its columns owns it. */
  predicate Belongs(listed: Infos, tables: seq<string>, name: string) {
    name in listed && listed[name].kind.Sequence? && listed[name].ownedBy.Some?
    && var owner := listed[name].ownedBy.value;
       owner in tables && owner in listed && listed[owner].kind.PlainTable?
  }

  /** The objects a dump covers. */
  function Covered(listed: Infos, tables: seq<string>): Infos {
    map name | name in listed && (name in tables || Belongs(listed, tables, name)) :: listed[name]
  }

  /** One placing: what it has looked at, and the order so far. The set is never taken back. */
  function Place(infos: Infos, table: string, stack: set<string>, order: seq<string>): (r: (set<string>, seq<string>))
    requires table in infos
    ensures stack <= r.0
    decreases infos.Keys - stack, 0
  {
    if table in order || table in stack then (stack, order)
    else
      var (seen, after) := PlaceAll(infos, infos[table].inherits, stack + {table}, order);
      (seen, after + [table])
  }

  function PlaceAll(infos: Infos, parents: seq<string>, stack: set<string>, order: seq<string>): (r: (set<string>, seq<string>))
    ensures stack <= r.0
    decreases infos.Keys - stack, |parents| + 1
  {
    if parents == [] then (stack, order)
    else if parents[0] !in infos then PlaceAll(infos, parents[1..], stack, order)
    else
      var (seen, after) := Place(infos, parents[0], stack, order);
      PlaceAll(infos, parents[1..], seen, after)
  }

  function TableOrder(infos: Infos, tables: seq<string>, order: seq<string>): seq<string>
    requires forall t <- tables :: t in infos
    decreases tables
  {
    if tables == [] then order else TableOrder(infos, tables[1..], Place(infos, tables[0], {}, order).1)
  }

  class Placer {
    const infos: Infos
    var tableOrder: seq<string>
    var placed: set<string>
    var stack: set<string>

    ghost predicate Valid()
      reads this
    {
      forall t :: t in placed <==> t in tableOrder
    }

    constructor (infos: Infos)
      ensures Valid() && this.infos == infos && tableOrder == [] && stack == {}
    {
      this.infos := infos;
      tableOrder, placed, stack := [], {}, {};
    }

    /** What a placing adds to the order: see `PlaceSound` and `PlaceRanked`. */
    method PlaceOne(table: string)
      requires Valid() && table in infos
      modifies this
      ensures Valid() && (stack, tableOrder) == Place(infos, table, old(stack), old(tableOrder))
      decreases infos.Keys - stack
    {
      if table in placed || table in stack { return; }
      ghost var was, before := stack, tableOrder;
      stack := stack + {table};
      var parents := infos[table].inherits;
      for i := 0 to |parents|
        invariant Valid() && was + {table} <= stack
        invariant PlaceAll(infos, parents[i..], stack, tableOrder) == PlaceAll(infos, parents, was + {table}, before)
      {
        assert parents[i..][1..] == parents[i + 1..];
        if parents[i] in infos { PlaceOne(parents[i]); }
      }
      placed := placed + {table};
      tableOrder := tableOrder + [table];
    }
  }

  method OrderTables(infos: Infos, tables: seq<string>) returns (order: seq<string>)
    requires forall t <- tables :: t in infos
    ensures order == TableOrder(infos, tables, [])
  {
    var placer := new Placer(infos);
    for i := 0 to |tables|
      invariant placer.Valid() && placer.infos == infos && fresh(placer)
      invariant TableOrder(infos, tables[i..], placer.tableOrder) == TableOrder(infos, tables, [])
    {
      assert tables[i..][1..] == tables[i + 1..];
      placer.stack := {};
      placer.PlaceOne(tables[i]);
    }
    order := placer.tableOrder;
  }

  method MakeListing(listing: seq<TableInfo>) returns (listed: Infos)
    ensures listed == Listed(listing)
  {
    listed := map[];
    for i := 0 to |listing|
      invariant listed == Listed(listing[..i])
    {
      assert listing[..i + 1][..i] == listing[..i];
      listed := listed[listing[i].name := listing[i]];
    }
    assert listing[..|listing|] == listing;
  }

  function Requested(listed: Infos, tables: seq<string>): Infos {
    map name | name in listed && name in tables :: listed[name]
  }

  method PickRequested(listed: Infos, tables: seq<string>) returns (infos: Infos)
    ensures infos == Requested(listed, tables)
  {
    infos := map[];
    for i := 0 to |tables|
      invariant infos == Requested(listed, tables[..i])
    {
      assert tables[..i + 1] == tables[..i] + [tables[i]];
      if tables[i] in listed { infos := infos[tables[i] := listed[tables[i]]]; }
    }
    assert tables[..|tables|] == tables;
  }

  /** The requested objects and, of those looked at, the sequences that go with them. */
  function SoFar(listed: Infos, tables: seq<string>, todo: set<string>): Infos {
    map name | name in listed && (name in tables || (name !in todo && Belongs(listed, tables, name))) :: listed[name]
  }

  method AddSequences(listed: Infos, tables: seq<string>) returns (infos: Infos)
    ensures infos == Covered(listed, tables)
  {
    infos := PickRequested(listed, tables);
    var todo := listed.Keys;
    while todo != {}
      invariant todo <= listed.Keys && infos == SoFar(listed, tables, todo)
      decreases |todo|
    {
      var name :| name in todo;
      var t := listed[name];
      if t.kind.Sequence? && t.ownedBy.Some? && t.ownedBy.value in infos && infos[t.ownedBy.value].kind.PlainTable?
         && name !in infos {
        infos := infos[name := t];
      }
      todo := todo - {name};
    }
  }

  /** The objects to dump and the tables' order, or the requested names that are not there. */
  method ResolveObjects(listing: seq<TableInfo>, tables: seq<string>) returns (r: Result<(Infos, seq<string>), seq<string>>)
    ensures r.Err? <==> exists t <- tables :: t !in Listed(listing)
    ensures r.Err? ==> r.error == Gone(Listed(listing), tables)
    ensures r.Ok? ==> r.value.0 == Covered(Listed(listing), tables) && (forall t <- tables :: t in r.value.0)
                      && r.value.1 == TableOrder(r.value.0, tables, [])
  {
    var listed := MakeListing(listing);
    var gone := Gone(listed, tables);
    GoneOnes(listed, tables);
    hide Gone, Listed;
    if |gone| > 0 {
      assert gone[0] in gone;
      return Err(gone);
    }
    var infos := AddSequences(listed, tables);
    var order := OrderTables(infos, tables);
    r := Ok((infos, order));
  }

  lemma {:induction false} GoneOnes(listed: Infos, tables: seq<string>)
    ensures forall t :: t in Gone(listed, tables) <==> t in tables && t !in listed
    decreases tables
  {
    if tables != [] { GoneOnes(listed, tables[1..]); }
  }

  /** An order of the dump's tables in the making: each at most once. */
  ghost predicate TablesOnce(infos: Infos, order: seq<string>) {
    (forall t <- order :: t in infos) && forall i, j :: 0 <= i < j < |order| ==> order[i] != order[j]
  }

  /** What one placing, or several, may do: what is new was not on the stack, and what was looked at is placed. */
  ghost predicate Placed(infos: Infos, stack: set<string>, order: seq<string>, seen: set<string>, after: seq<string>) {
    && TablesOnce(infos, after) && order <= after
    && (forall t <- after :: t in order || t !in stack)
    && forall t <- seen :: t in stack || t in after
  }

  lemma {:induction false} PlaceSound(infos: Infos, table: string, stack: set<string>, order: seq<string>)
    requires table in infos && TablesOnce(infos, order)
    ensures var (seen, after) := Place(infos, table, stack, order);
            Placed(infos, stack, order, seen, after) && (table in stack || table in after)
    decreases infos.Keys - stack, 0
  {
    if table !in order && table !in stack {
      PlaceAllSound(infos, infos[table].inherits, stack + {table}, order);
    }
  }

  lemma {:induction false} PlaceAllSound(infos: Infos, parents: seq<string>, stack: set<string>, order: seq<string>)
    requires TablesOnce(infos, order)
    ensures var (seen, after) := PlaceAll(infos, parents, stack, order); Placed(infos, stack, order, seen, after)
    decreases infos.Keys - stack, |parents| + 1
  {
    if parents != [] {
      if parents[0] !in infos {
        PlaceAllSound(infos, parents[1..], stack, order);
      } else {
        PlaceSound(infos, parents[0], stack, order);
        var (seen, after) := Place(infos, parents[0], stack, order);
        PlaceAllSound(infos, parents[1..], seen, after);
      }
    }
  }

  /** Every requested table is placed, each object once, and nothing that is not dumped. */
  lemma {:induction false} TablesPlacedOnce(infos: Infos, tables: seq<string>, order: seq<string>)
    requires (forall t <- tables :: t in infos) && TablesOnce(infos, order)
    ensures var all := TableOrder(infos, tables, order); TablesOnce(infos, all) && order <= all && forall t <- tables :: t in all
    decreases tables
  {
    if tables != [] {
      PlaceSound(infos, tables[0], {}, order);
      TablesPlacedOnce(infos, tables[1..], Place(infos, tables[0], {}, order).1);
    }
  }

  function Parents(infos: Infos, names: seq<string>): seq<string> {
    if names == [] then [] else (if names[0] in infos then [names[0]] else []) + Parents(infos, names[1..])
  }

  lemma {:induction false} ParentsAre(infos: Infos, names: seq<string>)
    ensures forall p :: p in Parents(infos, names) <==> p in names && p in infos
    decreases names
  {
    if names != [] { ParentsAre(infos, names[1..]); }
  }

  /** A table's dumped parents. */
  function ParentsOf(infos: Infos): string -> seq<string> {
    t => if t in infos then Parents(infos, infos[t].inherits) else []
  }

  /** Each safe table's dumped parents are safe and rank lower. */
  ghost predicate RankedTables(infos: Infos, safe: set<string>, rank: string -> nat) {
    forall t <- safe :: t in infos && forall p <- infos[t].inherits :: p in infos ==> p in safe && rank(p) < rank(t)
  }

  ghost predicate ParentsFirst(infos: Infos, safe: set<string>, order: seq<string>) {
    forall i :: 0 <= i < |order| && order[i] in safe && order[i] in infos ==>
      forall p <- infos[order[i]].inherits :: p in infos ==> p in order[..i]
  }

  /** No safe table is placed from under one it inherits from; what is placed already does not matter. */
  ghost predicate Placeable(safe: set<string>, rank: string -> nat, t: string, stack: set<string>, order: seq<string>) {
    forall x <- stack :: x !in order && x in safe ==> t in safe && rank(t) < rank(x)
  }

  lemma {:induction false} PlaceRanked(infos: Infos, safe: set<string>, rank: string -> nat, table: string,
                                       stack: set<string>, order: seq<string>)
    requires table in infos && TablesOnce(infos, order)
    requires RankedTables(infos, safe, rank) && ParentsFirst(infos, safe, order) && Placeable(safe, rank, table, stack, order)
    ensures var (seen, after) := Place(infos, table, stack, order);
            ParentsFirst(infos, safe, after) && (table in safe ==> table in after)
    decreases infos.Keys - stack, 0
  {
    if table !in order && table !in stack {
      var parents := infos[table].inherits;
      PlaceAllSound(infos, parents, stack + {table}, order);
      PlaceAllRanked(infos, safe, rank, parents, stack + {table}, order);
      var (seen, after) := PlaceAll(infos, parents, stack + {table}, order);
      assert (after + [table])[..|after|] == after;
      forall i | 0 <= i < |after| ensures (after + [table])[..i] == after[..i] {}
    }
  }

  lemma {:induction false} PlaceAllRanked(infos: Infos, safe: set<string>, rank: string -> nat, parents: seq<string>,
                                          stack: set<string>, order: seq<string>)
    requires TablesOnce(infos, order) && RankedTables(infos, safe, rank) && ParentsFirst(infos, safe, order)
    requires forall p <- parents :: p in infos ==> Placeable(safe, rank, p, stack, order)
    ensures var (seen, after) := PlaceAll(infos, parents, stack, order);
            ParentsFirst(infos, safe, after) && forall p <- parents :: p in infos && p in safe ==> p in after
    decreases infos.Keys - stack, |parents| + 1
  {
    if parents != [] {
      if parents[0] !in infos {
        PlaceAllRanked(infos, safe, rank, parents[1..], stack, order);
      } else {
        PlaceSound(infos, parents[0], stack, order);
        PlaceRanked(infos, safe, rank, parents[0], stack, order);
        var (seen, after) := Place(infos, parents[0], stack, order);
        PlaceAllSound(infos, parents[1..], seen, after);
        PlaceAllRanked(infos, safe, rank, parents[1..], seen, after);
      }
    }
  }

  lemma {:induction false} RootsPlaced(infos: Infos, safe: set<string>, rank: string -> nat, tables: seq<string>, order: seq<string>)
    requires (forall t <- tables :: t in infos) && TablesOnce(infos, order)
    requires RankedTables(infos, safe, rank) && ParentsFirst(infos, safe, order)
    ensures ParentsFirst(infos, safe, TableOrder(infos, tables, order))
    decreases tables
  {
    if tables != [] {
      PlaceSound(infos, tables[0], {}, order);
      PlaceRanked(infos, safe, rank, tables[0], {}, order);
      RootsPlaced(infos, safe, rank, tables[1..], Place(infos, tables[0], {}, order).1);
    }
  }

  lemma ParentsInside(infos: Infos)
    ensures forall t <- infos.Keys :: forall p <- ParentsOf(infos)(t) :: p in infos.Keys
    ensures forall t, p :: t in infos && p in infos[t].inherits && p in infos ==> p in ParentsOf(infos)(t)
  {
    forall t | t in infos.Keys ensures forall p :: p in ParentsOf(infos)(t) <==> p in infos[t].inherits && p in infos {
      ParentsAre(infos, infos[t].inherits);
    }
  }

  lemma TablesRankedBy(infos: Infos, next: string -> seq<string>, safe: set<string>, rank: string -> nat)
    requires RankedBy(infos.Keys, next, safe, rank)
    requires forall t, p :: t in infos && p in infos[t].inherits && p in infos ==> p in next(t)
    ensures RankedTables(infos, safe, rank)
  {
  }

  lemma SafeTablesRanked(infos: Infos)
    ensures RankedTables(infos, CycleFreeOnes(infos.Keys, ParentsOf(infos)), Height(infos.Keys, ParentsOf(infos)))
  {
    ParentsInside(infos);
    hide Height, ParentsOf, CycleFreeOnes, RankedBy, RankedTables;
    CycleFreeOnesRanked(infos.Keys, ParentsOf(infos));
    TablesRankedBy(infos, ParentsOf(infos), CycleFreeOnes(infos.Keys, ParentsOf(infos)), Height(infos.Keys, ParentsOf(infos)));
  }

  /** Every table that inherits, directly or not, from no cycle is created after all its dumped parents. */
  lemma ParentsComeFirst(infos: Infos, tables: seq<string>)
    requires forall t <- tables :: t in infos
    ensures ParentsFirst(infos, CycleFreeOnes(infos.Keys, ParentsOf(infos)), TableOrder(infos, tables, []))
  {
    SafeTablesRanked(infos);
    hide RankedTables, Height, CycleFreeOnes, ParentsOf;
    RootsPlaced(infos, CycleFreeOnes(infos.Keys, ParentsOf(infos)), Height(infos.Keys, ParentsOf(infos)), tables, []);
  }

  // ---------------------------------------------------------------------------------------------------------------
  // Cycles, in any graph
  // ---------------------------------------------------------------------------------------------------------------

  ghost predicate IsPath<T(!new)>(next: T -> seq<T>, p: seq<T>) {
    |p| >= 2 && forall i :: 0 <= i < |p| - 1 ==> p[i + 1] in next(p[i])
  }

  ghost predicate Leads<T(!new)>(next: T -> seq<T>, p: seq<T>, a: T, b: T) {
    IsPath(next, p) && p[0] == a && p[|p| - 1] == b
  }

  /** `a` depends on `b`, directly or not. */
  ghost predicate Needs<T(!new)>(next: T -> seq<T>, a: T, b: T) {
    exists p :: Leads(next, p, a, b)
  }

  /** Neither the object nor anything it needs is in a cycle. */
  ghost predicate CycleFree<T(!new)>(next: T -> seq<T>, o: T) {
    !Needs(next, o, o) && forall x :: Needs(next, o, x) ==> !Needs(next, x, x)
  }

  ghost function CycleFreeOnes<T(!new)>(nodes: set<T>, next: T -> seq<T>): set<T> {
    set o | o in nodes && CycleFree(next, o)
  }

  lemma NeedsDirectly<T(!new)>(next: T -> seq<T>, a: T, d: T)
    requires d in next(a)
    ensures Needs(next, a, d)
  {
    assert Leads(next, [a, d], a, d);
  }

  lemma NeedsOn<T(!new)>(next: T -> seq<T>, a: T, b: T, c: T)
    requires Needs(next, a, b) && Needs(next, b, c)
    ensures Needs(next, a, c)
  {
    var p :| Leads(next, p, a, b);
    var q :| Leads(next, q, b, c);
    var r := p + q[1..];
    forall i | 0 <= i < |r| - 1 ensures r[i + 1] in next(r[i]) {
      if i >= |p| - 1 { assert r[i + 1] == q[i + 2 - |p|] && r[i] == q[i + 1 - |p|]; }
    }
    assert Leads(next, r, a, c);
  }

  ghost function Needed<T(!new)>(nodes: set<T>, next: T -> seq<T>, o: T): set<T> {
    set x | x in nodes && Needs(next, o, x)
  }

  ghost function Height<T(!new)>(nodes: set<T>, next: T -> seq<T>): T -> nat {
    o => |Needed(nodes, next, o)|
  }

  lemma {:induction false} FewerInside<T>(a: set<T>, b: set<T>)
    requires a < b
    ensures |a| < |b|
    decreases |a|
  {
    if a != {} {
      var x :| x in a;
      var y :| y in b && y !in a;
      assert y in b - {x} && y !in a - {x};
      FewerInside(a - {x}, b - {x});
    } else {
      var x :| x in b;
      assert |b| > 0;
    }
  }

  ghost predicate RankedBy<T(!new)>(nodes: set<T>, next: T -> seq<T>, safe: set<T>, rank: T -> nat) {
    forall o <- safe :: o in nodes && forall d <- next(o) :: d in safe && rank(d) < rank(o)
  }

  /** What leads into no cycle is ranked by how much it needs. */
  lemma CycleFreeOnesRanked<T(!new)>(nodes: set<T>, next: T -> seq<T>)
    requires forall o <- nodes :: forall d <- next(o) :: d in nodes
    ensures RankedBy(nodes, next, CycleFreeOnes(nodes, next), Height(nodes, next))
  {
    var safe := CycleFreeOnes(nodes, next);
    forall o, d | o in safe && d in next(o) ensures d in safe && Height(nodes, next)(d) < Height(nodes, next)(o) {
      NeedsDirectly(next, o, d);
      forall x | Needs(next, d, x) ensures Needs(next, o, x) { NeedsOn(next, o, d, x); }
      assert d in Needed(nodes, next, o) && d !in Needed(nodes, next, d);
      FewerInside(Needed(nodes, next, d), Needed(nodes, next, o));
    }
  }
}
