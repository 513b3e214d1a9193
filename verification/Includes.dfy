/** Gathering the files a configuration includes, directly or not: a depth-first search that keeps the
    chain of includers, the paths already there and the ordered result. */
module Includes {
  import opened Digraph

  datatype Outcome = Included | Circular(path: Node) | Missing(path: Node)

  ghost predicate FromSome(g: Graph, starts: seq<Node>, x: Node) {
    exists y :: y in starts && Reaches(g, y, x)
  }

  ghost predicate AllLeadTo(g: Graph, parents: set<Node>, targets: seq<Node>) {
    forall y | y in targets :: AllLead(g, parents, y)
  }

  ghost predicate AllFrom(g: Graph, starts: seq<Node>, xs: seq<Node>) {
    forall x | x in xs :: FromSome(g, starts, x)
  }

  /** What a failure tells: a circular or a missing path that the directives lead to. */
  ghost predicate Explains(g: Graph, starts: seq<Node>, out: Outcome) {
    match out
    case Included => false
    case Circular(path) => FromSome(g, starts, path) && Cyclic(g, path)
    case Missing(path) => FromSome(g, starts, path) && path !in g
  }

  lemma Deeper(g: Graph, starts: seq<Node>, path: Node, x: Node)
    requires path in starts && path in g && FromSome(g, g[path], x)
    ensures FromSome(g, starts, x)
  {
    var y :| y in g[path] && Reaches(g, y, x);
    EdgeReaches(g, path, y);
    ReachesTrans(g, path, y, x);
  }

  lemma Here(g: Graph, starts: seq<Node>, path: Node)
    requires path in starts
    ensures FromSome(g, starts, path)
  {
    ReachesSelf(g, path);
  }

  lemma DeeperLead(g: Graph, parents: set<Node>, path: Node)
    requires path in g && AllLeadTo(g, parents, [path])
    ensures AllLeadTo(g, parents + {path}, g[path])
  {
    forall q, y | q in parents + {path} && y in g[path]
      ensures Leads(g, q, y)
    {
      assert q in parents ==> AllLead(g, parents, path);
      LeadsStep(g, q, path, y);
    }
  }

  class Resolver {
    const files: Graph            // the include directives of each file that can be read
    var parents: set<Node>
    var done: set<Node>
    var result: seq<Node>

    constructor (files: Graph)
      ensures this.files == files && parents == {} && done == {} && result == [] && Valid()
    {
      this.files, parents, done, result := files, {}, {}, [];
    }

    ghost predicate Valid()
      reads this
    {
      && Topological(files, result)
      && (forall x :: x in done <==> x in result)
      && (forall x | x in parents :: x !in done)
    }

    /** One directive, at the end of the chain of includers. */
    method Include(path: Node) returns (out: Outcome)
      requires Valid() && parents <= files.Keys && AllLeadTo(files, parents, [path])
      modifies this`parents, this`done, this`result
      ensures out.Included? ==>
        && Valid() && parents == old(parents) && old(result) <= result
        && path in result && AllFrom(files, [path], result[|old(result)|..])
      ensures !out.Included? ==> Explains(files, [path], out)
      decreases files.Keys - parents, 0
    {
      hide Topological, Reaches, Edge;
      Here(files, [path], path);
      if path in parents {
        assert Leads(files, path, path);
        return Circular(path);
      }
      if path in done { return Included; }
      if path !in files { return Missing(path); }
      DeeperLead(files, parents, path);
      parents := parents + {path};
      out := Gather(files[path]);
      FromDeeper(files, path);
      if !out.Included? { return; }
      TopologicalPush(files, result, path);
      result := result + [path];
      parents := parents - {path};
      done := done + {path};
    }

    /** `get_includes` on the directives of a file. */
    method Gather(directives: seq<Node>) returns (out: Outcome)
      requires Valid() && parents <= files.Keys && AllLeadTo(files, parents, directives)
      modifies this`parents, this`done, this`result
      ensures out.Included? ==>
        && Valid() && parents == old(parents) && old(result) <= result
        && SuccessorsIn(directives, result) && AllFrom(files, directives, result[|old(result)|..])
        && (forall x | x in parents :: x !in result)
      ensures !out.Included? ==> Explains(files, directives, out)
      decreases files.Keys - parents
    {
      hide Topological, Reaches, Edge, Leads;
      var i := 0;
      while i < |directives|
        invariant 0 <= i <= |directives| && Valid() && parents == old(parents) && old(result) <= result
        invariant SuccessorsIn(directives[..i], result) && AllFrom(files, directives, result[|old(result)|..])
      {
        ghost var before := result;
        out := Include(directives[i]);
        FromOne(files, directives, directives[i]);
        if !out.Included? { return; }
        assert result[|old(result)|..] == before[|old(result)|..] + result[|before|..];
        assert directives[..i + 1] == directives[..i] + [directives[i]];
        i := i + 1;
      }
      assert directives[..i] == directives;
      return Included;
    }
  }

  /** What comes from the directives of a file comes from the file. */
  lemma FromDeeper(g: Graph, path: Node)
    requires path in g
    ensures forall x | FromSome(g, g[path], x) :: FromSome(g, [path], x)
  {
    forall x | FromSome(g, g[path], x)
      ensures FromSome(g, [path], x)
    {
      Deeper(g, [path], path, x);
    }
  }

  lemma FromOne(g: Graph, starts: seq<Node>, path: Node)
    requires path in starts
    ensures forall x | FromSome(g, [path], x) :: FromSome(g, starts, x)
  {
  }

  /** What the result holds: the tree behind a path, and the configuration itself. */
  datatype Tree = File(path: Node) | Root

  function Files(order: seq<Node>): seq<Tree> {
    seq(|order|, i requires 0 <= i < |order| => File(order[i]))
  }

  /** The whole: it fails exactly when the root's directives lead to a missing file or a cycle. Otherwise the
      result is each file that is included, directly or not, exactly once and after all those it includes, and
      the root last. */
  method GetIncludes(files: Graph, directives: seq<Node>)
    returns (out: Outcome, trees: seq<Tree>, ghost order: seq<Node>)
    ensures out.Included? <==> forall y | y in directives :: !Broken(files, y)
    ensures out.Included? ==> trees == Files(order) + [Root]
    ensures out.Included? ==> Topological(files, order) && forall x :: x in order <==> FromSome(files, directives, x)
    ensures !out.Included? ==> Explains(files, directives, out)
  {
    hide Topological, Reaches, Edge;
    var resolver := new Resolver(files);
    out := resolver.Gather(directives);
    var result := resolver.result;
    order, trees := result, Files(result) + [Root];
    if out.Included? {
      assert result[0..] == result;
      forall x | FromSome(files, directives, x)
        ensures x in result
      {
        var y :| y in directives && Reaches(files, y, x);
        OrderClosed(files, result, y, x);
      }
      forall y | y in directives
        ensures !Broken(files, y)
      {
        OrderSound(files, result, y);
      }
    } else {
      ExplainedIsBroken(files, directives, out);
    }
  }

  lemma ExplainedIsBroken(g: Graph, starts: seq<Node>, out: Outcome)
    requires Explains(g, starts, out)
    ensures exists y :: y in starts && Broken(g, y)
  {
    var y :| y in starts && Reaches(g, y, out.path);
    BrokenHere(g, out.path);
    BrokenBefore(g, y, out.path);
  }
}
