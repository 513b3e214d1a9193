/** Loading plugins after those they depend on. A plugin that fails stays marked as loading, and the others
    are tried all the same. Constructors do not fail. */
module Plugins {
  import opened Digraph

  datatype Mark = Preloaded | Loading | Loaded

  /** The plugins that must be there, and those that must come first if they are there. */
  datatype Needs = Needs(required: seq<Node>, before: seq<Node>)

  function Listed(plugins: map<Node, Needs>, names: seq<Node>): seq<Node> {
    if names == [] then []
    else Listed(plugins, names[..|names| - 1]) + if names[|names| - 1] in plugins then [names[|names| - 1]] else []
  }

  /** What a plugin depends on: all it requires, and the listed ones it must come after. */
  function Dependencies(plugins: map<Node, Needs>): Graph {
    map p | p in plugins :: plugins[p].required + Listed(plugins, plugins[p].before)
  }

  lemma {:induction false} ListedIs(plugins: map<Node, Needs>, names: seq<Node>, x: Node)
    ensures x in Listed(plugins, names) <==> x in names && x in plugins
    decreases names
  {
    if names != [] {
      ListedIs(plugins, names[..|names| - 1], x);
      assert names == names[..|names| - 1] + [names[|names| - 1]];
    }
  }

  lemma DependenciesAre(plugins: map<Node, Needs>, p: Node)
    ensures Dependencies(plugins).Keys == plugins.Keys
    ensures p in plugins ==> Dependencies(plugins)[p] == plugins[p].required + Listed(plugins, plugins[p].before)
  {
  }

  lemma DependencyIs(plugins: map<Node, Needs>, p: Node, d: Node)
    requires p in plugins
    ensures Edge(Dependencies(plugins), p, d) <==> d in plugins[p].required || (d in plugins[p].before && d in plugins)
  {
    ListedIs(plugins, plugins[p].before, d);
  }

  lemma LeadsOn(g: Graph, chain: set<Node>, p: Node, d: Node)
    requires AllLead(g, chain, p) && Edge(g, p, d)
    ensures AllLead(g, chain + {p}, d)
  {
    forall q | q in chain + {p}
      ensures Leads(g, q, d)
    {
      LeadsStep(g, q, p, d);
    }
  }

  lemma BrokenDependency(g: Graph, p: Node, d: Node)
    requires Edge(g, p, d) && (d !in g || Broken(g, d))
    ensures Broken(g, p)
  {
    if d !in g { BrokenHere(g, d); }
    EdgeReaches(g, p, d);
    BrokenBefore(g, p, d);
  }

  // ----- the handles a load leaves -----

  /** Of what a plugin depends on, those it takes a handle on: all up to the first one that is missing, or up to and
      with the first one that is broken. */
  ghost function Taken(g: Graph, names: seq<Node>): seq<Node> {
    if names == [] || names[0] !in g then []
    else if Broken(g, names[0]) then [names[0]]
    else [names[0]] + Taken(g, names[1..])
  }

  /** The handles of all plugins. */
  ghost function TakenAll(g: Graph): Graph {
    map p | p in g :: Taken(g, g[p])
  }

  lemma {:induction false} TakenWhole(g: Graph, built: seq<Node>, names: seq<Node>)
    requires Topological(g, built) && SuccessorsIn(names, built)
    ensures Taken(g, names) == names
    decreases names
  {
    hide Topological, Broken;
    if names != [] {
      OrderSound(g, built, names[0]);
      NotCyclic(g, built, names[0]);
      TakenWhole(g, built, names[1..]);
    }
  }

  /** Behind `names`, which are all loaded, the missing or broken `d` is the last thing looked at. */
  lemma {:induction false} TakenStops(g: Graph, built: seq<Node>, names: seq<Node>, d: Node, rest: seq<Node>)
    requires Topological(g, built) && SuccessorsIn(names, built) && (d !in g || Broken(g, d))
    ensures Taken(g, names + [d] + rest) == names + if d in g then [d] else []
    decreases names
  {
    hide Topological, Broken;
    var all := names + [d] + rest;
    if names == [] {
      assert all[0] == d;
    } else {
      OrderSound(g, built, names[0]);
      NotCyclic(g, built, names[0]);
      assert all[0] == names[0] && all[1..] == names[1..] + [d] + rest;
      TakenStops(g, built, names[1..], d, rest);
    }
  }

  lemma {:induction false} ListedSplit(plugins: map<Node, Needs>, names: seq<Node>, i: nat)
    requires i < |names| && names[i] in plugins
    ensures exists rest :: Listed(plugins, names) == Listed(plugins, names[..i]) + [names[i]] + rest
    decreases names
  {
    var n := |names| - 1;
    if i == n {
      assert Listed(plugins, names) == Listed(plugins, names[..i]) + [names[i]] + [];
    } else {
      assert names[..n][..i] == names[..i];
      ListedSplit(plugins, names[..n], i);
      var rest :| Listed(plugins, names[..n]) == Listed(plugins, names[..i]) + [names[i]] + rest;
      var more := if names[n] in plugins then [names[n]] else [];
      assert Listed(plugins, names) == Listed(plugins, names[..i]) + [names[i]] + (rest + more);
    }
  }

  /** A required plugin is missing, or one of those before is. */
  lemma RequiredStops(plugins: map<Node, Needs>, built: seq<Node>, p: Node, i: nat)
    requires p in plugins && i < |plugins[p].required| && Topological(Dependencies(plugins), built)
    requires SuccessorsIn(plugins[p].required[..i], built)
    requires var d := plugins[p].required[i]; d !in plugins || Broken(Dependencies(plugins), d)
    ensures p in Dependencies(plugins)
    ensures var g, names := Dependencies(plugins), plugins[p].required;
      Taken(g, g[p]) == names[..i] + if names[i] in plugins then [names[i]] else []
  {
    hide Topological, Broken, Taken, Dependencies, SuccessorsIn, Listed;
    var g, names := Dependencies(plugins), plugins[p].required;
    DependenciesAre(plugins, p);
    var rest := names[i + 1..] + Listed(plugins, plugins[p].before);
    assert g[p] == names[..i] + [names[i]] + rest;
    TakenStops(g, built, names[..i], names[i], rest);
  }

  lemma BeforeStops(plugins: map<Node, Needs>, built: seq<Node>, p: Node, i: nat)
    requires p in plugins && i < |plugins[p].before| && Topological(Dependencies(plugins), built)
    requires var d := plugins[p].before[i]; d in plugins && Broken(Dependencies(plugins), d)
    requires SuccessorsIn(plugins[p].required + Listed(plugins, plugins[p].before[..i]), built)
    ensures p in Dependencies(plugins)
    ensures var g, names := Dependencies(plugins), plugins[p].before;
      Taken(g, g[p]) == plugins[p].required + Listed(plugins, names[..i]) + [names[i]]
  {
    hide Topological, Broken, Taken, Dependencies, SuccessorsIn, Listed;
    var g, names := Dependencies(plugins), plugins[p].before;
    DependenciesAre(plugins, p);
    ListedSplit(plugins, names, i);
    var rest :| Listed(plugins, names) == Listed(plugins, names[..i]) + [names[i]] + rest;
    var first := plugins[p].required + Listed(plugins, names[..i]);
    assert g[p] == first + [names[i]] + rest;
    TakenStops(g, built, first, names[i], rest);
  }

  // ----- the state of the store -----

  /** Apart from the chain of those being loaded now, a plugin marked as loading is one that failed. */
  ghost predicate Good(g: Graph, marks: map<Node, Mark>, handles: map<Node, seq<Node>>, built: seq<Node>,
                       chain: set<Node>) {
    && marks.Keys == handles.Keys == g.Keys
    && Topological(g, built)
    && (forall p | p in g :: p in built <==> marks[p] == Loaded)
    && (forall p | p in chain :: p in g && marks[p] == Loading)
    && (forall p | p in g && marks[p] == Loading && p !in chain :: Broken(g, p) && handles[p] == Taken(g, g[p]))
    && (forall p | p in g && marks[p] == Preloaded :: handles[p] == [])
    && (forall p | p in built :: p in g && handles[p] == g[p])
    && Closed(handles)
  }

  /** Plugins that were visited before are left alone. */
  ghost predicate Kept(marks: map<Node, Mark>, handles: map<Node, seq<Node>>, marks': map<Node, Mark>,
                       handles': map<Node, seq<Node>>) {
    && marks.Keys == handles.Keys == marks'.Keys == handles'.Keys
    && forall q | q in marks && marks[q] != Preloaded :: marks'[q] == marks[q] && handles'[q] == handles[q]
  }

  lemma StartLoading(g: Graph, marks: map<Node, Mark>, handles: map<Node, seq<Node>>, built: seq<Node>,
                     chain: set<Node>, p: Node)
    requires Good(g, marks, handles, built, chain) && p in g && marks[p] == Preloaded
    ensures Good(g, marks[p := Loading], handles, built, chain + {p}) && handles[p] == [] && p !in chain
    ensures Kept(marks, handles, marks[p := Loading], handles)
  {
    hide Topological, Broken, Taken;
  }

  lemma KeepHandle(g: Graph, marks: map<Node, Mark>, handles: map<Node, seq<Node>>, built: seq<Node>, chain: set<Node>,
                   p: Node, d: Node)
    requires Good(g, marks, handles, built, chain) && p in chain && d in g
    ensures p in handles && Good(g, marks, handles[p := handles[p] + [d]], built, chain)
  {
    hide Topological, Broken, Taken, Closed;
    ClosedPush(handles, p, d);
  }

  lemma ClosedPush(g: Graph, p: Node, d: Node)
    requires Closed(g) && p in g && d in g
    ensures Closed(g[p := g[p] + [d]])
  {
    var g' := g[p := g[p] + [d]];
    forall a, b | Edge(g', a, b)
      ensures b in g'
    {
      assert Edge(g, a, b) || b == d;
    }
  }

  lemma StopLoading(g: Graph, marks: map<Node, Mark>, handles: map<Node, seq<Node>>, built: seq<Node>, chain: set<Node>,
                    p: Node)
    requires Good(g, marks, handles, built, chain + {p}) && Broken(g, p)
    requires p in g && p in handles && handles[p] == Taken(g, g[p])
    ensures Good(g, marks, handles, built, chain) && p in marks && marks[p] == Loading
  {
    hide Topological, Broken, Taken;
  }

  lemma FinishLoading(g: Graph, marks: map<Node, Mark>, handles: map<Node, seq<Node>>, built: seq<Node>,
                      chain: set<Node>, p: Node)
    requires Good(g, marks, handles, built, chain + {p}) && p !in chain && p in handles && p in g && handles[p] == g[p]
    requires SuccessorsIn(g[p], built)
    ensures Good(g, marks[p := Loaded], handles, built + [p], chain)
  {
    hide Topological, Broken, Taken, SuccessorsIn;
    assert p !in built;
    TopologicalPush(g, built, p);
  }

  lemma KeptSelf(marks: map<Node, Mark>, handles: map<Node, seq<Node>>, p: Node)
    requires marks.Keys == handles.Keys && p in handles
    ensures Kept(marks, handles[p := handles[p]], marks, handles)
  {
  }

  lemma KeptStep(m0: map<Node, Mark>, h0: map<Node, seq<Node>>, m1: map<Node, Mark>, h1: map<Node, seq<Node>>,
                 m2: map<Node, Mark>, h2: map<Node, seq<Node>>, p: Node)
    requires p in h0 && p in h1 && p in h2 && Kept(m0, h0[p := h1[p]], m1, h1) && Kept(m1, h1[p := h2[p]], m2, h2)
    ensures Kept(m0, h0[p := h2[p]], m2, h2)
  {
  }

  lemma NoSuccessors(built: seq<Node>)
    ensures SuccessorsIn([], built)
  {
  }

  lemma MoreSuccessors(names: seq<Node>, d: Node, built: seq<Node>, built': seq<Node>)
    requires SuccessorsIn(names, built) && built <= built' && d in built'
    ensures SuccessorsIn(names + [d], built')
  {
  }

  lemma EarlierSuccessors(names: seq<Node>, built: seq<Node>, built': seq<Node>)
    requires SuccessorsIn(names, built) && built <= built'
    ensures SuccessorsIn(names, built')
  {
  }

  /** The loaded plugin, and only it, changes beyond what its dependencies changed. */
  lemma KeptLoaded(m0: map<Node, Mark>, h0: map<Node, seq<Node>>, m1: map<Node, Mark>, h1: map<Node, seq<Node>>,
                   p: Node, mark: Mark)
    requires p in m0 && m0[p] == Preloaded && m0.Keys == h0.Keys && p in h1
    requires Kept(m0[p := Loading], h0[p := h1[p]], m1, h1)
    ensures Kept(m0, h0, m1, h1) && Kept(m0, h0, m1[p := mark], h1)
  {
    assert m0[p := Loading].Keys == m0.Keys && h0[p := h1[p]].Keys == h0.Keys && m1[p := mark].Keys == m1.Keys;
  }

  lemma GoodMarks(g: Graph, marks: map<Node, Mark>, handles: map<Node, seq<Node>>, built: seq<Node>, chain: set<Node>)
    requires Good(g, marks, handles, built, chain)
    ensures marks.Keys == handles.Keys == g.Keys
    ensures forall p | p in g :: p in built <==> marks[p] == Loaded
    ensures forall p | p in g && marks[p] == Loading && p !in chain :: Broken(g, p)
    ensures forall p | p in chain :: p in g && marks[p] == Loading
  {
  }

  lemma GoodOrder(g: Graph, marks: map<Node, Mark>, handles: map<Node, seq<Node>>, built: seq<Node>, chain: set<Node>)
    requires Good(g, marks, handles, built, chain)
    ensures Topological(g, built)
  {
  }

  class Store {
    const plugins: map<Node, Needs>
    var marks: map<Node, Mark>
    var handles: map<Node, seq<Node>>    // the dependencies each plugin keeps alive
    var built: seq<Node>                 // the constructors that ran, in order

    ghost const g: Graph

    constructor (plugins: map<Node, Needs>)
      ensures this.plugins == plugins && built == [] && Valid({})
      ensures forall p | p in plugins :: p in marks && marks[p] == Preloaded && p in handles && handles[p] == []
    {
      this.plugins, g := plugins, Dependencies(plugins);
      marks := map p | p in plugins :: Preloaded;
      handles := map p | p in plugins :: [];
      built := [];
    }

    ghost predicate Valid(chain: set<Node>)
      reads this
    {
      g == Dependencies(plugins) && Good(g, marks, handles, built, chain)
    }

    /** One dependency of `p`, whose handle is kept from now on. */
    method Depend(p: Node, d: Node, ghost chain: set<Node>) returns (ok: bool)
      requires Valid(chain + {p}) && p in plugins && d in plugins && AllLead(g, chain, p) && Edge(g, p, d)
      modifies this`marks, this`handles, this`built
      ensures Valid(chain + {p}) && old(built) <= built && p in old(handles) && p in handles
      ensures Kept(old(marks), old(handles)[p := handles[p]], marks, handles) && handles[p] == old(handles)[p] + [d]
      ensures if ok then d in built else Broken(g, p) && Broken(g, d)
      decreases plugins.Keys - (chain + {p}), 1
    {
      hide Good, Edge, Broken, Dependencies;
      DependenciesAre(plugins, d);
      KeepHandle(g, marks, handles, built, chain + {p}, p, d);
      GoodMarks(g, marks, handles, built, chain + {p});
      handles := handles[p := handles[p] + [d]];
      LeadsOn(g, chain, p, d);
      ok := EnsureLoaded(d, chain + {p});
      if !ok { BrokenDependency(g, p, d); }
    }

    method EnsureLoaded(p: Node, ghost chain: set<Node>) returns (ok: bool)
      requires Valid(chain) && p in plugins && AllLead(g, chain, p)
      modifies this`marks, this`handles, this`built
      ensures Valid(chain) && old(built) <= built && Kept(old(marks), old(handles), marks, handles)
      ensures if ok then p in built else Broken(g, p)
      ensures p in marks && marks[p] != Preloaded
      decreases plugins.Keys - chain, 0
    {
      hide Good, Edge, Broken, SuccessorsIn, Reaches, Kept, Dependencies, Leads;
      GoodMarks(g, marks, handles, built, chain);
      DependenciesAre(plugins, p);
      KeptSelf(marks, handles, p);
      assert handles[p := handles[p]] == handles;
      if marks[p] == Loaded { return true; }
      if marks[p] == Loading {
        if p in chain { BrokenHere(g, p); }
        return false;
      }
      StartLoading(g, marks, handles, built, chain, p);
      marks := marks[p := Loading];
      ghost var marks0 := marks;
      ok := LoadRequired(p, chain);
      ghost var marks1, handles1 := marks, handles;
      if ok {
        ok := LoadBefore(p, chain);
        KeptStep(marks0, old(handles), marks1, handles1, marks, handles, p);
      }
      KeptLoaded(old(marks), old(handles), marks, handles, p, Loaded);
      if !ok {
        StopLoading(g, marks, handles, built, chain, p);
        return false;
      }
      FinishLoading(g, marks, handles, built, chain, p);
      marks, built := marks[p := Loaded], built + [p];
    }

    method LoadRequired(p: Node, ghost chain: set<Node>) returns (ok: bool)
      requires Valid(chain + {p}) && p in plugins && AllLead(g, chain, p) && p in handles && handles[p] == []
      modifies this`marks, this`handles, this`built
      ensures Valid(chain + {p}) && old(built) <= built && p in handles
      ensures Kept(old(marks), old(handles)[p := handles[p]], marks, handles)
      ensures p in g
      ensures
        if ok then SuccessorsIn(plugins[p].required, built) && handles[p] == plugins[p].required
        else Broken(g, p) && handles[p] == Taken(g, g[p])
      decreases plugins.Keys - (chain + {p}), 2
    {
      hide Good, Edge, Broken, AllLead, Kept, Dependencies, SuccessorsIn, Taken;
      GoodMarks(g, marks, handles, built, chain + {p});
      DependenciesAre(plugins, p);
      KeptSelf(marks, handles, p);
      NoSuccessors(built);
      var names, i := plugins[p].required, 0;
      while i < |names|
        invariant 0 <= i <= |names| && Valid(chain + {p}) && old(built) <= built && p in handles
        invariant Kept(old(marks), old(handles)[p := handles[p]], marks, handles)
        invariant SuccessorsIn(names[..i], built) && handles[p] == names[..i]
      {
        DependencyIs(plugins, p, names[i]);
        if names[i] !in plugins {
          BrokenDependency(g, p, names[i]);
          GoodOrder(g, marks, handles, built, chain + {p});
          RequiredStops(plugins, built, p, i);
          return false;
        }
        ghost var marks1, handles1, built1 := marks, handles, built;
        ok := Depend(p, names[i], chain);
        KeptStep(old(marks), old(handles), marks1, handles1, marks, handles, p);
        if !ok {
          GoodOrder(g, marks, handles, built, chain + {p});
          EarlierSuccessors(names[..i], built1, built);
          RequiredStops(plugins, built, p, i);
          return;
        }
        MoreSuccessors(names[..i], names[i], built1, built);
        assert names[..i + 1] == names[..i] + [names[i]];
        i := i + 1;
      }
      assert names[..i] == names;
      return true;
    }

    method LoadBefore(p: Node, ghost chain: set<Node>) returns (ok: bool)
      requires Valid(chain + {p}) && p in plugins && AllLead(g, chain, p) && p in handles
      requires handles[p] == plugins[p].required
      requires SuccessorsIn(plugins[p].required, built)
      modifies this`marks, this`handles, this`built
      ensures Valid(chain + {p}) && old(built) <= built && p in handles
      ensures Kept(old(marks), old(handles)[p := handles[p]], marks, handles)
      ensures p in g
      ensures
        if ok then SuccessorsIn(g[p], built) && handles[p] == g[p]
        else Broken(g, p) && handles[p] == Taken(g, g[p])
      decreases plugins.Keys - (chain + {p}), 2
    {
      hide Good, Edge, Broken, AllLead, Kept, Dependencies, SuccessorsIn, Taken;
      GoodMarks(g, marks, handles, built, chain + {p});
      DependenciesAre(plugins, p);
      KeptSelf(marks, handles, p);
      NoSuccessors(built);
      var names, i := plugins[p].before, 0;
      while i < |names|
        invariant 0 <= i <= |names| && Valid(chain + {p}) && old(built) <= built && p in handles
        invariant Kept(old(marks), old(handles)[p := handles[p]], marks, handles)
        invariant handles[p] == plugins[p].required + Listed(plugins, names[..i])
        invariant SuccessorsIn(handles[p], built)
      {
        DependencyIs(plugins, p, names[i]);
        assert names[..i + 1][..i] == names[..i];
        if names[i] in plugins {
          ghost var marks1, handles1, built1 := marks, handles, built;
          ok := Depend(p, names[i], chain);
          KeptStep(old(marks), old(handles), marks1, handles1, marks, handles, p);
          if !ok {
            GoodOrder(g, marks, handles, built, chain + {p});
            EarlierSuccessors(handles1[p], built1, built);
            BeforeStops(plugins, built, p, i);
            return;
          }
          MoreSuccessors(handles1[p], names[i], built1, built);
        }
        i := i + 1;
      }
      assert names[..i] == names;
      return true;
    }
  }

  /** The loop over all the plugins of the store, in the order of their names; errors are collected. Every plugin that
      is not broken is constructed, once, after all it depends on; every other one is reported; and which handles are
      taken is known from the dependencies alone. */
  method LoadPlugins(plugins: map<Node, Needs>, names: seq<Node>) returns (errors: seq<Node>, store: Store)
    requires forall p :: p in names <==> p in plugins
    ensures fresh(store) && store.plugins == plugins
    ensures var g := Dependencies(plugins);
      && Topological(g, store.built)
      && (forall p :: p in store.built <==> p in plugins && !Broken(g, p))
      && (forall p :: p in errors <==> p in plugins && Broken(g, p))
      && store.handles == TakenAll(g) && store.handles.Keys == plugins.Keys && Closed(store.handles)
      && (forall p | p in store.built :: p in store.handles && store.handles[p] == g[p])
      && (errors == [] ==> store.handles == g && forall p :: p in g <==> p in store.built)
  {
    hide Broken, Dependencies, Good, Kept;
    store := new Store(plugins);
    errors := [];
    var i := 0;
    ghost var g := store.g;
    DependenciesAre(plugins, "");
    while i < |names|
      invariant 0 <= i <= |names| && store.Valid({}) && store.plugins == plugins && store.g == g
      invariant forall k | 0 <= k < i :: names[k] in store.built || names[k] in errors
      invariant forall k | 0 <= k < i :: names[k] in store.marks && store.marks[names[k]] != Preloaded
      invariant forall p | p in errors :: p in plugins && Broken(g, p)
    {
      ghost var marks0, handles0 := store.marks, store.handles;
      var ok := store.EnsureLoaded(names[i], {});
      if !ok { errors := errors + [names[i]]; }
      StillVisited(marks0, handles0, store.marks, store.handles);
      i := i + 1;
    }
    forall p | p in g
      ensures p in store.marks && store.marks[p] != Preloaded
    {
      assert p in names;
    }
    GoodEnd(g, store.marks, store.handles, store.built);
  }

  lemma StillVisited(m0: map<Node, Mark>, h0: map<Node, seq<Node>>, m1: map<Node, Mark>, h1: map<Node, seq<Node>>)
    requires Kept(m0, h0, m1, h1)
    ensures forall p | p in m0 && m0[p] != Preloaded :: p in m1 && m1[p] != Preloaded
  {
  }

  /** Once every plugin was visited. */
  lemma GoodEnd(g: Graph, marks: map<Node, Mark>, handles: map<Node, seq<Node>>, built: seq<Node>)
    requires Good(g, marks, handles, built, {})
    requires forall p | p in g :: p in marks && marks[p] != Preloaded
    ensures Topological(g, built) && handles == TakenAll(g) && handles.Keys == g.Keys && Closed(handles)
    ensures forall p | p in built :: p in g && p in handles && handles[p] == g[p] && !Broken(g, p)
    ensures (forall p | p in g :: p in built) ==> handles == g
  {
    hide Broken, Topological, Taken;
    forall p | p in built
      ensures !Broken(g, p)
    {
      OrderSound(g, built, p);
    }
    forall p | p in g
      ensures handles[p] == Taken(g, g[p])
    {
      if p in built { BuiltWhole(g, built, p); }
    }
  }

  lemma BuiltWhole(g: Graph, built: seq<Node>, p: Node)
    requires Topological(g, built) && p in built
    ensures p in g && Taken(g, g[p]) == g[p]
  {
    hide Taken;
    var i :| 0 <= i < |built| && built[i] == p;
    assert SuccessorsIn(g[p], built);
    TakenWhole(g, built, g[p]);
  }

  /** Nothing is broken, so that loading succeeds, exactly when all that is required is listed and no plugin
      depends on itself. */
  lemma NoneBrokenIff(plugins: map<Node, Needs>)
    ensures var g := Dependencies(plugins);
      (forall p | p in plugins :: !Broken(g, p)) <==>
        (forall p | p in plugins :: RequirementsListed(plugins, p) && !Cyclic(g, p))
  {
    hide Cyclic, Dependencies;
    var g := Dependencies(plugins);
    DependenciesAre(plugins, "");
    forall p | p in plugins && (!RequirementsListed(plugins, p) || Cyclic(g, p))
      ensures Broken(g, p)
    {
      if Cyclic(g, p) {
        BrokenHere(g, p);
      } else {
        var d :| d in plugins[p].required && d !in plugins;
        DependencyIs(plugins, p, d);
        BrokenDependency(g, p, d);
      }
    }
    if forall p | p in plugins :: RequirementsListed(plugins, p) && !Cyclic(g, p) {
      forall p | p in plugins
        ensures !Broken(g, p)
      {
        if Broken(g, p) {
          var y :| Reaches(g, p, y) && (y !in g || Cyclic(g, y));
          var w :| WalkBetween(g, w, p, y);
          StaysListed(plugins, w);
        }
      }
    }
  }

  predicate RequirementsListed(plugins: map<Node, Needs>, p: Node)
    requires p in plugins
  {
    forall d | d in plugins[p].required :: d in plugins
  }

  lemma {:induction false} StaysListed(plugins: map<Node, Needs>, w: seq<Node>)
    requires Walk(Dependencies(plugins), w) && w[0] in plugins
    requires forall p | p in plugins :: RequirementsListed(plugins, p)
    ensures w[|w| - 1] in plugins
    decreases w
  {
    hide Dependencies;
    if |w| > 1 {
      assert Edge(Dependencies(plugins), w[0], w[1]);
      DependencyIs(plugins, w[0], w[1]);
      assert RequirementsListed(plugins, w[0]);
      StaysListed(plugins, w[1..]);
    }
  }
}
