/** From the load of the plugins to the end of their store: which plugins end is known from what they depend on. */
module PluginLives {
  import opened Digraph
  import opened Plugins
  import opened PluginHandles

  /** What the load of a broken plugin failed on: the first dependency that is missing or broken, if it is there. */
  ghost function Blamed(g: Graph, names: seq<Node>): seq<Node> {
    if names == [] || names[0] !in g then []
    else if Broken(g, names[0]) then [names[0]]
    else Blamed(g, names[1..])
  }

  /** Every plugin blames at most one other. */
  ghost function Blame(g: Graph): Graph {
    map p | p in g :: Blamed(g, g[p])
  }

  /** The handles on broken plugins are those on what is blamed. */
  lemma {:induction false} TakenBroken(g: Graph, names: seq<Node>, d: Node)
    ensures d in Taken(g, names) ==> d in names && d in g
    ensures d in Blamed(g, names) <==> d in Taken(g, names) && Broken(g, d)
    decreases names
  {
    hide Broken;
    if names != [] && names[0] in g { TakenBroken(g, names[1..], d); }
  }

  lemma EdgesOf(g: Graph, p: Node, d: Node)
    ensures Edge(TakenAll(g), p, d) ==> Edge(g, p, d) && d in g
    ensures Edge(Blame(g), p, d) <==> Edge(TakenAll(g), p, d) && Broken(g, d)
  {
    hide Broken, Taken, Blamed;
    if p in g { TakenBroken(g, g[p], d); }
  }

  lemma TakenClosed(g: Graph)
    ensures Closed(TakenAll(g)) && TakenAll(g).Keys == g.Keys
  {
    hide Broken, Taken, Edge;
    forall a, b | Edge(TakenAll(g), a, b)
      ensures b in TakenAll(g)
    {
      EdgesOf(g, a, b);
    }
  }

  /** The same walk in a graph with more edges. */
  lemma SameWalk(g: Graph, g': Graph, w: seq<Node>)
    requires Walk(g, w) && forall a, b | Edge(g, a, b) :: Edge(g', a, b)
    ensures Walk(g', w)
  {
    hide Edge;
  }

  lemma MoreEdges(g: Graph, g': Graph, a: Node, b: Node)
    requires forall x, y | Edge(g, x, y) :: Edge(g', x, y)
    ensures Reaches(g, a, b) ==> Reaches(g', a, b)
    ensures Leads(g, a, b) ==> Leads(g', a, b)
  {
    hide Edge;
    if Reaches(g, a, b) { ReachesMore(g, g', a, b); }
    if Leads(g, a, b) {
      var c :| Edge(g, a, c) && Reaches(g, c, b);
      ReachesMore(g, g', c, b);
    }
  }

  lemma ReachesMore(g: Graph, g': Graph, a: Node, b: Node)
    requires Reaches(g, a, b) && forall x, y | Edge(g, x, y) :: Edge(g', x, y)
    ensures Reaches(g', a, b)
  {
    hide Edge;
    var w :| WalkBetween(g, w, a, b);
    SameWalk(g, g', w);
    assert WalkBetween(g', w, a, b);
  }

  /** All on a walk of handles to a broken plugin are broken, so that it is one of blame. */
  lemma {:induction false} WalkOfBlame(g: Graph, w: seq<Node>)
    requires Walk(TakenAll(g), w) && Broken(g, w[|w| - 1])
    ensures Walk(Blame(g), w) && Broken(g, w[0])
    decreases w
  {
    hide Edge, Broken, TakenAll, Blame;
    if |w| > 1 {
      assert Edge(TakenAll(g), w[0], w[1]);
      assert Walk(TakenAll(g), w[1..]) by {
        assert forall i | 0 <= i < |w| - 2 :: Edge(TakenAll(g), w[1..][i], w[1..][i + 1]);
      }
      WalkOfBlame(g, w[1..]);
      EdgesOf(g, w[0], w[1]);
      BrokenDependency(g, w[0], w[1]);
      forall i | 0 <= i < |w| - 1
        ensures Edge(Blame(g), w[i], w[i + 1])
      {
        if i > 0 { assert Edge(Blame(g), w[1..][i - 1], w[1..][i]); }
      }
    }
  }

  lemma TakenIsBlame(g: Graph, c: Node)
    requires Cyclic(TakenAll(g), c)
    ensures Cyclic(Blame(g), c)
  {
    hide Edge, Broken, TakenAll, Blame;
    forall a, b | Edge(TakenAll(g), a, b)
      ensures Edge(g, a, b)
    {
      EdgesOf(g, a, b);
    }
    MoreEdges(TakenAll(g), g, c, c);
    BrokenHere(g, c);
    var d :| Edge(TakenAll(g), c, d) && Reaches(TakenAll(g), d, c);
    var w :| WalkBetween(TakenAll(g), w, d, c);
    WalkOfBlame(g, w);
    EdgesOf(g, c, d);
    assert WalkBetween(Blame(g), w, d, c);
  }

  /** A plugin holds itself exactly when the blame for its failed load comes back to it. */
  lemma CyclicIff(g: Graph, c: Node)
    ensures Cyclic(TakenAll(g), c) <==> Cyclic(Blame(g), c)
  {
    hide Edge, Broken, TakenAll, Blame, Leads;
    if Cyclic(TakenAll(g), c) { TakenIsBlame(g, c); }
    forall a, b | Edge(Blame(g), a, b)
      ensures Edge(TakenAll(g), a, b)
    {
      EdgesOf(g, a, b);
    }
    MoreEdges(Blame(g), TakenAll(g), c, c);
  }

  /** All plugins end exactly when no blame comes back. */
  lemma AllEndIff(g: Graph)
    ensures (forall p | p in g :: !Stuck(TakenAll(g), p)) <==> (forall c | c in g :: !Cyclic(Blame(g), c))
  {
    hide Edge, Broken, TakenAll, Blame, Leads, Reaches;
    forall c | c in g && Cyclic(Blame(g), c)
      ensures Stuck(TakenAll(g), c)
    {
      CyclicIff(g, c);
      ReachesSelf(TakenAll(g), c);
    }
    forall p | p in g && Stuck(TakenAll(g), p)
      ensures exists c :: c in g && Cyclic(Blame(g), c)
    {
      var c :| Cyclic(TakenAll(g), c) && Reaches(TakenAll(g), c, p);
      CyclicIff(g, c);
      CyclicIsNode(Blame(g), c);
      BlameKeys(g);
    }
  }

  lemma CyclicIsNode(g: Graph, c: Node)
    requires Cyclic(g, c)
    ensures c in g
  {
  }

  lemma BlameKeys(g: Graph)
    ensures Blame(g).Keys == g.Keys
  {
    hide Blamed;
  }

  /** The life of a store: its plugins are loaded, and then it goes, in whatever order it drops them. */
  method Live(plugins: map<Node, Needs>, names: seq<Node>, drops: seq<Node>)
    returns (errors: seq<Node>, built: seq<Node>, ended: seq<Node>)
    requires forall p :: p in names <==> p in plugins
    requires Distinct(drops) && forall p :: p in drops <==> p in plugins
    ensures var g := Dependencies(plugins);
      && Topological(g, built)
      && (forall p :: p in built <==> p in plugins && !Broken(g, p))
      && (forall p :: p in errors <==> p in plugins && Broken(g, p))
      && Distinct(ended) && DependentsFirst(TakenAll(g), ended)
      && (forall p :: p in ended <==> p in plugins && !Stuck(TakenAll(g), p))
  {
    hide Dependencies, TakenAll, Broken, Stuck, Topological, DependentsFirst;
    var store;
    errors, store := LoadPlugins(plugins, names);
    DependenciesAre(plugins, "");
    TakenClosed(Dependencies(plugins));
    ended := DropAll(store.handles, drops);
    return errors, store.built, ended;
  }

  /** What stops in front stops before what follows. */
  lemma {:induction false} StopsInFront(g: Graph, front: seq<Node>, rest: seq<Node>, d: Node)
    requires d in front && (d !in g || Broken(g, d))
    ensures Taken(g, front + rest) == Taken(g, front)
    decreases front
  {
    hide Broken;
    assert (front + rest)[0] == front[0] && (front + rest)[1..] == front[1..] + rest;
    if front[0] in g && !Broken(g, front[0]) { StopsInFront(g, front[1..], rest, d); }
  }

  /** Required plugins come first: when one of them is missing or broken, no handle is taken on those that are only to
      come before. */
  lemma RequiredComeFirst(plugins: map<Node, Needs>, p: Node, d: Node, x: Node)
    requires p in plugins && d in plugins[p].required && (d !in plugins || Broken(Dependencies(plugins), d))
    ensures p in TakenAll(Dependencies(plugins))
    ensures x in TakenAll(Dependencies(plugins))[p] ==> x in plugins[p].required
  {
    hide Broken, Dependencies, Taken, Listed;
    var g := Dependencies(plugins);
    DependenciesAre(plugins, p);
    StopsInFront(g, plugins[p].required, Listed(plugins, plugins[p].before), d);
    TakenBroken(g, plugins[p].required, x);
  }

  // ----- inputs -----

  lemma PairBroken(g: Graph, a: Node, b: Node)
    requires Edge(g, a, b) && Edge(g, b, a)
    ensures Broken(g, a) && Broken(g, b)
  {
    EdgeReaches(g, a, b);
    EdgeReaches(g, b, a);
    BrokenHere(g, a);
    BrokenHere(g, b);
  }

  /** Two plugins that require each other keep each other alive for ever. */
  lemma CircularPairIsStuck(a: Node, b: Node)
    requires a != b
    ensures var g := Dependencies(map[a := Needs([b], []), b := Needs([a], [])]);
      Stuck(TakenAll(g), a) && Stuck(TakenAll(g), b)
  {
    hide Broken, Reaches;
    var g := Dependencies(map[a := Needs([b], []), b := Needs([a], [])]);
    assert g[a] == [b] && g[b] == [a];
    PairBroken(g, a, b);
    var t := TakenAll(g);
    assert t[a] == [b] && t[b] == [a];
    EdgeReaches(t, b, a);
    EdgeReaches(t, a, b);
    ReachesSelf(t, a);
    assert Cyclic(t, a);
  }

  /** They both end when one of them requires something missing first. */
  lemma CircularPairEnds(a: Node, b: Node, m: Node)
    requires a != b && m != a && m != b
    ensures var g := Dependencies(map[a := Needs([m, b], []), b := Needs([a], [])]);
      Cyclic(g, a) && forall p | p in g :: !Stuck(TakenAll(g), p)
  {
    hide Broken, Reaches;
    var g := Dependencies(map[a := Needs([m, b], []), b := Needs([a], [])]);
    assert g[a] == [m, b] && g[b] == [a];
    EdgeReaches(g, b, a);
    assert Cyclic(g, a);
    var order := [a, b];
    var t := TakenAll(g);
    PairBroken(g, a, b);
    assert t[a] == [] && t[b] == [a];
    assert order[..1] == [a];
    forall p | p in g
      ensures !Stuck(t, p)
    {
      NothingStuck(t, order, p);
    }
  }
}
