/** The end of the store: each plugin lives as long as the store or another plugin holds a handle on it,
    and drops its own handles only after its own end. */
module PluginHandles {
  import opened Digraph

  predicate Before(ended: seq<Node>, p: Node, q: Node) {
    exists i, j :: 0 <= i < j < |ended| && ended[i] == p && ended[j] == q
  }

  /** In the order of their ends, every plugin comes before all it depends on. */
  ghost predicate DependentsFirst(g: Graph, ended: seq<Node>) {
    forall p, q | Edge(g, p, q) && q in ended :: Before(ended, p, q)
  }

  lemma BeforePush(ended: seq<Node>, p: Node, q: Node, x: Node)
    requires Before(ended, p, q) || (p in ended && q == x)
    ensures Before(ended + [x], p, q)
  {
    var ended' := ended + [x];
    if Before(ended, p, q) {
      var i, j :| 0 <= i < j < |ended| && ended[i] == p && ended[j] == q;
      assert ended'[i] == p && ended'[j] == q;
    } else {
      var i :| 0 <= i < |ended| && ended[i] == p;
      assert ended'[i] == p && ended'[|ended|] == q;
    }
  }

  predicate Held(holds: map<Node, seq<Node>>, q: Node) {
    exists p :: p in holds && q in holds[p]
  }

  /** The living hold on to all they depend on, handles point to the living, and the dead ended in order. */
  ghost predicate Inv(g: Graph, entries: set<Node>, holds: map<Node, seq<Node>>, alive: set<Node>, ended: seq<Node>) {
    && holds.Keys == g.Keys && entries <= alive <= g.Keys
    && (forall p | p in alive :: holds[p] == g[p])
    && (forall p, q | p in g && q in holds[p] :: q in alive)
    && (forall p :: p in ended <==> p in g && p !in alive)
    && Distinct(ended) && DependentsFirst(g, ended)
  }

  /** Nothing lives without being held, except perhaps one. */
  ghost predicate Settled(entries: set<Node>, holds: map<Node, seq<Node>>, alive: set<Node>, but: set<Node>) {
    forall q | q in alive && q !in but :: q in entries || Held(holds, q)
  }

  lemma InvKeys(g: Graph, entries: set<Node>, holds: map<Node, seq<Node>>, alive: set<Node>, ended: seq<Node>)
    requires Inv(g, entries, holds, alive, ended)
    ensures holds.Keys == g.Keys && entries <= alive <= g.Keys
  {
  }

  lemma EndInv(g: Graph, entries: set<Node>, holds: map<Node, seq<Node>>, alive: set<Node>, ended: seq<Node>, q: Node)
    requires Inv(g, entries, holds, alive, ended) && q in alive && q !in entries && !Held(holds, q)
    ensures Inv(g, entries, holds, alive - {q}, ended + [q])
  {
    forall p, x | Edge(g, p, x) && x in ended + [q]
      ensures Before(ended + [q], p, x)
    {
      if x == q {
        assert p in holds && p !in alive;
      }
      BeforePush(ended, p, x, q);
    }
  }

  lemma DropInv(g: Graph, entries: set<Node>, holds: map<Node, seq<Node>>, alive: set<Node>, ended: seq<Node>, q: Node)
    requires Inv(g, entries, holds, alive, ended) && q in g && q !in alive && holds[q] != []
    ensures holds[q][0] in alive && Inv(g, entries, holds[q := holds[q][1..]], alive, ended)
  {
    hide DependentsFirst, Distinct;
  }

  lemma EndSettled(entries: set<Node>, holds: map<Node, seq<Node>>, alive: set<Node>, q: Node)
    requires Settled(entries, holds, alive, {q})
    ensures Settled(entries, holds, alive - {q}, {})
  {
  }

  lemma DropSettled(entries: set<Node>, holds: map<Node, seq<Node>>, alive: set<Node>, q: Node)
    requires Settled(entries, holds, alive, {}) && q in holds && holds[q] != []
    ensures Settled(entries, holds[q := holds[q][1..]], alive, {holds[q][0]})
  {
    var holds' := holds[q := holds[q][1..]];
    forall x | x in alive && x != holds[q][0] && x !in entries
      ensures Held(holds', x)
    {
      var p :| p in holds && x in holds[p];
      assert p in holds' && x in holds'[p];
    }
  }

  lemma HeldSettled(entries: set<Node>, holds: map<Node, seq<Node>>, alive: set<Node>, q: Node)
    requires Settled(entries, holds, alive, {q}) && (q in entries || Held(holds, q))
    ensures Settled(entries, holds, alive, {})
  {
  }

  /** Those that ended meanwhile dropped all their handles, those that had ended before are left alone. */
  ghost predicate Emptied(alive: set<Node>, holds: map<Node, seq<Node>>, alive': set<Node>,
                          holds': map<Node, seq<Node>>, but: set<Node>) {
    && holds.Keys == holds'.Keys && alive' <= alive
    && (forall x | x in holds && x !in alive :: holds'[x] == holds[x])
    && (forall x | x in holds && x in alive && x !in alive' && x !in but :: holds'[x] == [])
  }

  lemma EmptiedStart(alive: set<Node>, holds: map<Node, seq<Node>>, q: Node)
    ensures Emptied(alive, holds, alive - {q}, holds, {q}) && Emptied(alive, holds, alive, holds, {})
  {
  }

  /** One handle of the ended `q` went, with all that followed. */
  lemma EmptiedStep(alive: set<Node>, holds: map<Node, seq<Node>>, alive1: set<Node>, holds1: map<Node, seq<Node>>,
                    q: Node, rest: seq<Node>, alive2: set<Node>, holds2: map<Node, seq<Node>>)
    requires q in alive && q in holds && q !in alive1
    requires Emptied(alive, holds, alive1, holds1, {q}) && Emptied(alive1, holds1[q := rest], alive2, holds2, {})
    ensures Emptied(alive, holds, alive2, holds2, {q}) && q in holds2 && holds2[q] == rest
  {
    assert holds1[q := rest].Keys == holds1.Keys;
  }

  lemma EmptiedEnd(alive: set<Node>, holds: map<Node, seq<Node>>, alive': set<Node>, holds': map<Node, seq<Node>>,
                   q: Node)
    requires Emptied(alive, holds, alive', holds', {q}) && q in holds' && holds'[q] == []
    ensures Emptied(alive, holds, alive', holds', {})
  {
  }

  class Keeper {
    ghost const g: Graph
    var entries: set<Node>              // the plugins the store still holds
    var holds: map<Node, seq<Node>>     // the handles not dropped yet
    var alive: set<Node>
    var ended: seq<Node>

    constructor (handles: Graph)
      requires Closed(handles)
      ensures g == handles && Valid() && Settled(entries, holds, alive, {})
      ensures entries == alive == handles.Keys && ended == []
    {
      g, holds, entries, alive, ended := handles, handles, handles.Keys, handles.Keys, [];
      new;
      assert forall p, q | p in g && q in holds[p] :: Edge(g, p, q);
    }

    ghost predicate Valid()
      reads this
    {
      Inv(g, entries, holds, alive, ended)
    }

    /** After a handle on `q` went: whether it was the last one. */
    method Check(q: Node)
      requires Valid() && q in alive && Settled(entries, holds, alive, {q})
      modifies this`holds, this`alive, this`ended
      ensures Valid() && Settled(entries, holds, alive, {}) && alive <= old(alive) && old(ended) <= ended
      ensures Emptied(old(alive), old(holds), alive, holds, {})
      decreases alive, 1
    {
      EmptiedStart(alive, holds, q);
      if q in entries || Held(holds, q) {
        HeldSettled(entries, holds, alive, q);
      } else {
        End(q);
      }
    }

    /** The plugin ends, then its handles go, one by one. */
    method End(q: Node)
      requires Valid() && q in alive && q !in entries && !Held(holds, q) && Settled(entries, holds, alive, {q})
      modifies this`holds, this`alive, this`ended
      ensures Valid() && Settled(entries, holds, alive, {}) && alive <= old(alive) - {q} && old(ended) <= ended
      ensures Emptied(old(alive), old(holds), alive, holds, {})
      decreases alive, 0
    {
      hide Inv, Settled, Held, Emptied;
      InvKeys(g, entries, holds, alive, ended);
      EndInv(g, entries, holds, alive, ended, q);
      EndSettled(entries, holds, alive, q);
      EmptiedStart(alive, holds, q);
      alive, ended := alive - {q}, ended + [q];
      while holds[q] != []
        invariant Valid() && Settled(entries, holds, alive, {}) && alive <= old(alive) - {q} && old(ended) <= ended
        invariant q in holds
        invariant Emptied(old(alive), old(holds), alive, holds, {q})
        decreases |holds[q]|
      {
        ghost var alive1, holds1, rest := alive, holds, holds[q][1..];
        var d := holds[q][0];
        InvKeys(g, entries, holds, alive, ended);
        DropInv(g, entries, holds, alive, ended, q);
        DropSettled(entries, holds, alive, q);
        holds := holds[q := holds[q][1..]];
        Check(d);
        EmptiedStep(old(alive), old(holds), alive1, holds1, q, rest, alive, holds);
      }
      EmptiedEnd(old(alive), old(holds), alive, holds, q);
    }

    /** The store drops one of its entries. */
    method Drop(q: Node)
      requires Valid() && Settled(entries, holds, alive, {}) && q in entries
      modifies this
      ensures Valid() && Settled(entries, holds, alive, {}) && entries == old(entries) - {q} && alive <= old(alive)
      ensures Emptied(old(alive), old(holds), alive, holds, {})
    {
      hide DependentsFirst, Distinct, Held;
      entries := entries - {q};
      Check(q);
    }
  }

  // ----- what is left -----

  /** Held, through any number of handles, by a plugin that holds itself. */
  ghost predicate Stuck(g: Graph, q: Node) {
    exists c :: Cyclic(g, c) && Reaches(g, c, q)
  }

  ghost predicate HeldFrom(g: Graph, alive: set<Node>, y: Node) {
    exists p :: p in alive && Edge(g, p, y)
  }

  ghost predicate LeadsToAll(g: Graph, x: Node, seen: set<Node>) {
    forall y | y in seen :: Leads(g, x, y)
  }

  lemma LeadsToMore(g: Graph, p: Node, x: Node, seen: set<Node>)
    requires Edge(g, p, x) && LeadsToAll(g, x, seen)
    ensures LeadsToAll(g, p, seen + {x})
  {
    hide Leads, Edge;
    forall y | y in seen + {x}
      ensures Leads(g, p, y)
    {
      LeadsFirst(g, p, x, y);
    }
  }

  /** From `x`, which leads to all of `seen`, back to a cycle. */
  lemma {:induction false} BackToCycle(g: Graph, alive: set<Node>, seen: set<Node>, x: Node, q: Node)
    requires seen <= alive && x in alive && x !in seen && Reaches(g, x, q) && LeadsToAll(g, x, seen)
    requires forall y | y in alive :: HeldFrom(g, alive, y)
    ensures Stuck(g, q)
    decreases alive - seen
  {
    hide Leads, Reaches, Edge, Stuck, Cyclic, LeadsToAll;
    assert HeldFrom(g, alive, x);
    var p :| p in alive && Edge(g, p, x);
    EdgeReaches(g, p, x);
    ReachesTrans(g, p, x, q);
    LeadsToMore(g, p, x, seen);
    if p in seen + {x} {
      assert Leads(g, p, p) by { LeadsToOne(g, p, seen + {x}, p); }
      StuckBehind(g, p, q);
    } else {
      BackToCycle(g, alive, seen + {x}, p, q);
    }
  }

  lemma LeadsToOne(g: Graph, x: Node, seen: set<Node>, y: Node)
    requires LeadsToAll(g, x, seen) && y in seen
    ensures Leads(g, x, y)
  {
    hide Leads;
  }

  lemma StuckBehind(g: Graph, c: Node, q: Node)
    requires Leads(g, c, c) && Reaches(g, c, q)
    ensures Stuck(g, q)
  {
    hide Leads, Reaches;
    assert Cyclic(g, c);
  }

  lemma LeadsFirst(g: Graph, a: Node, b: Node, c: Node)
    requires Edge(g, a, b) && (b == c || Leads(g, b, c))
    ensures Leads(g, a, c)
  {
    ReachesSelf(g, b);
    if b != c {
      var d :| Edge(g, b, d) && Reaches(g, d, c);
      EdgeReaches(g, b, d);
      ReachesTrans(g, b, d, c);
    }
  }

  /** Whatever leads to a plugin that ended has ended before it. */
  lemma {:induction false} EndedAfter(g: Graph, ended: seq<Node>, w: seq<Node>, j: nat)
    requires DependentsFirst(g, ended) && Distinct(ended) && Walk(g, w) && |w| > 1
    requires j < |ended| && ended[j] == w[|w| - 1]
    ensures exists i :: 0 <= i < j && ended[i] == w[0]
    decreases |w|
  {
    var n := |w| - 1;
    assert Edge(g, w[n - 1], w[n]);
    assert w[n] in ended;
    var i, k :| 0 <= i < k < |ended| && ended[i] == w[n - 1] && ended[k] == w[n];
    assert k == j;
    if n > 1 {
      var v := w[..n];
      assert Walk(g, v) by {
        assert forall m | 0 <= m < |v| - 1 :: Edge(g, w[m], w[m + 1]);
      }
      EndedAfter(g, ended, v, i);
    }
  }

  lemma StuckNeverEnds(g: Graph, ended: seq<Node>, q: Node)
    requires DependentsFirst(g, ended) && Distinct(ended) && Stuck(g, q)
    ensures q !in ended
  {
    hide DependentsFirst, Distinct;
    if q in ended {
      var c :| Cyclic(g, c) && Reaches(g, c, q);
      var j :| 0 <= j < |ended| && ended[j] == q;
      var w :| WalkBetween(g, w, c, q);
      if |w| > 1 { EndedAfter(g, ended, w, j); }
      CycleNeverEnds(g, ended, c);
    }
  }

  lemma CycleNeverEnds(g: Graph, ended: seq<Node>, c: Node)
    requires DependentsFirst(g, ended) && Distinct(ended) && Cyclic(g, c)
    ensures c !in ended
  {
    hide DependentsFirst;
    var d :| Edge(g, c, d) && Reaches(g, d, c);
    var v :| WalkBetween(g, v, d, c);
    var w := [c] + v;
    assert Walk(g, w) by {
      forall m | 0 <= m < |w| - 1
        ensures Edge(g, w[m], w[m + 1])
      {
        if m > 0 { assert Edge(g, v[m - 1], v[m]); }
      }
    }
    forall i | 0 <= i < |ended|
      ensures ended[i] != c
    {
      if ended[i] == c { EndedAfter(g, ended, w, i); }
    }
  }

  /** Once the store holds nothing, what is alive is what is stuck. */
  lemma LeftIff(g: Graph, holds: map<Node, seq<Node>>, alive: set<Node>, ended: seq<Node>, q: Node)
    requires Inv(g, {}, holds, alive, ended) && Settled({}, holds, alive, {}) && q in g
    requires forall x | x in g && x !in alive :: holds[x] == []
    ensures q in alive <==> Stuck(g, q)
  {
    hide DependentsFirst, Distinct;
    if q in alive {
      forall y | y in alive
        ensures HeldFrom(g, alive, y)
      {
        assert Held(holds, y);
        var p :| p in holds && y in holds[p];
        assert p in alive && Edge(g, p, y);
      }
      ReachesSelf(g, q);
      BackToCycle(g, alive, {}, q, q);
    } else if Stuck(g, q) {
      StuckNeverEnds(g, ended, q);
      assert false;
    }
  }

  /** In whatever order the store drops its entries, whatever handles a load left, every plugin that ends does so once
      and before all it keeps alive; and exactly those end that no plugin holding itself keeps alive. */
  method DropAll(handles: Graph, names: seq<Node>) returns (ended: seq<Node>)
    requires Closed(handles)
    requires Distinct(names) && forall p :: p in names <==> p in handles
    ensures Distinct(ended) && DependentsFirst(handles, ended)
    ensures forall p :: p in ended <==> p in handles && !Stuck(handles, p)
  {
    hide DependentsFirst, Distinct, Held, Settled, Stuck;
    var keeper := new Keeper(handles);
    var i := 0;
    assert names[..0] == [];
    while i < |names|
      invariant 0 <= i <= |names| && keeper.g == handles && keeper.Valid() && fresh(keeper)
      invariant Settled(keeper.entries, keeper.holds, keeper.alive, {})
      invariant forall p :: p in keeper.entries <==> p in names[i..]
      invariant forall x | x in handles && x !in keeper.alive :: keeper.holds[x] == []
    {
      RestDistinct(names, i);
      keeper.Drop(names[i]);
      i := i + 1;
    }
    assert keeper.entries == {};
    forall p | p in handles
      ensures p in keeper.alive <==> Stuck(handles, p)
    {
      LeftIff(handles, keeper.holds, keeper.alive, keeper.ended, p);
    }
    return keeper.ended;
  }

  lemma RestDistinct(names: seq<Node>, i: nat)
    requires Distinct(names) && i < |names|
    ensures forall p :: p in names[i + 1..] <==> p in names[i..] && p != names[i]
  {
    assert names[i..] == [names[i]] + names[i + 1..];
  }

  /** After a load without errors everything ends: nothing is stuck. */
  lemma NothingStuck(g: Graph, order: seq<Node>, q: Node)
    requires Topological(g, order) && forall p :: p in g <==> p in order
    ensures !Stuck(g, q)
  {
    if Stuck(g, q) {
      var c :| Cyclic(g, c) && Reaches(g, c, q);
      assert c in g;
      NotCyclic(g, order, c);
    }
  }
}
