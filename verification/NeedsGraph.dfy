/** The `needs` graph of the release workflow: every job must depend on the identity gate `metadata`. */
module NeedsGraph {
  import opened Lists

  const METADATA := "metadata"

  datatype Job = Job(key: string, needs: seq<string>)

  type Graph = map<string, seq<string>>

  datatype Verdict = Reaches | Misses | Cycle

  datatype Error = DuplicateEdge | DuplicateJob | UnknownNeed | NotRoot | DependencyCycle | NotGated

  /** Every need is a job. */
  ghost predicate Closed(g: Graph) {
    forall k, n :: k in g && n in g[k] ==> n in g
  }

  // The search -----------------------------------------------------------

  /** `reaches_metadata`: depth first, stopping at the first parent that reaches the gate. */
  function Search(g: Graph, key: string, visiting: set<string>): Verdict
    requires Closed(g) && key in g
    decreases g.Keys - visiting, 0
  {
    if key == METADATA then Reaches
    else if key in visiting then Cycle
    else
      assert g.Keys - (visiting + {key}) < g.Keys - visiting;
      SearchAny(g, g[key], visiting + {key})
  }

  function SearchAny(g: Graph, parents: seq<string>, visiting: set<string>): Verdict
    requires Closed(g) && forall p :: p in parents ==> p in g
    decreases g.Keys - visiting, 1 + |parents|
  {
    if parents == [] then Misses
    else
      var first := Search(g, parents[0], visiting);
      if first.Misses? then SearchAny(g, parents[1..], visiting) else first
  }

  // Walks ----------------------------------------------------------------

  /** A walk along `needs` edges. */
  ghost predicate Walk(g: Graph, w: seq<string>) {
    && w != [] && (forall i :: 0 <= i < |w| ==> w[i] in g)
    && (forall i :: 0 <= i < |w| - 1 ==> w[i + 1] in g[w[i]])
  }

  ghost predicate Connects(g: Graph, from: string, w: seq<string>, to: string) {
    Walk(g, w) && w[0] == from && w[|w| - 1] == to
  }

  ghost predicate DependsOn(g: Graph, from: string, to: string) {
    exists w :: Connects(g, from, w, to)
  }

  ghost predicate Acyclic(g: Graph) {
    forall w :: Walk(g, w) && |w| >= 2 ==> w[0] != w[|w| - 1]
  }

  lemma Prepend(g: Graph, key: string, w: seq<string>)
    requires key in g && Walk(g, w) && w[0] in g[key]
    ensures Walk(g, [key] + w)
  {
  }

  lemma Append(g: Graph, w: seq<string>, key: string)
    requires Walk(g, w) && key in g && key in g[w[|w| - 1]]
    ensures Walk(g, w + [key])
  {
  }

  // What the three verdicts mean -----------------------------------------

  /** A positive verdict comes with a dependency path. */
  lemma {:induction false} ReachesIsPath(g: Graph, key: string, visiting: set<string>)
    requires Closed(g) && key in g && Search(g, key, visiting).Reaches?
    ensures DependsOn(g, key, METADATA)
    decreases g.Keys - visiting, 0
  {
    if key == METADATA {
      assert Connects(g, key, [key], METADATA);
    } else {
      assert g.Keys - (visiting + {key}) < g.Keys - visiting;
      var p := AnyReaches(g, g[key], visiting + {key});
      var w :| Connects(g, p, w, METADATA);
      Prepend(g, key, w);
      assert Connects(g, key, [key] + w, METADATA);
    }
  }

  lemma {:induction false} AnyReaches(g: Graph, parents: seq<string>, visiting: set<string>) returns (p: string)
    requires Closed(g) && (forall p :: p in parents ==> p in g) && SearchAny(g, parents, visiting).Reaches?
    ensures p in parents && DependsOn(g, p, METADATA)
    decreases g.Keys - visiting, 1 + |parents|
  {
    if Search(g, parents[0], visiting).Misses? {
      p := AnyReaches(g, parents[1..], visiting);
    } else {
      ReachesIsPath(g, parents[0], visiting);
      p := parents[0];
    }
  }

  /** A negative verdict means that no dependency path exists at all. */
  lemma {:induction false} MissesIsNoPath(g: Graph, key: string, visiting: set<string>, w: seq<string>)
    requires Closed(g) && key in g && Search(g, key, visiting).Misses?
    ensures !Connects(g, key, w, METADATA)
    decreases g.Keys - visiting, 0
  {
    if Connects(g, key, w, METADATA) && |w| >= 2 {
      assert g.Keys - (visiting + {key}) < g.Keys - visiting;
      var rest := w[1..];
      assert Connects(g, w[1], rest, METADATA);
      AnyMisses(g, g[key], visiting + {key}, w[1]);
      MissesIsNoPath(g, w[1], visiting + {key}, rest);
    }
  }

  lemma {:induction false} AnyMisses(g: Graph, parents: seq<string>, visiting: set<string>, p: string)
    requires Closed(g) && (forall q :: q in parents ==> q in g) && SearchAny(g, parents, visiting).Misses?
             && p in parents
    ensures Search(g, p, visiting).Misses?
    decreases |parents|
  {
    if p != parents[0] {
      AnyMisses(g, parents[1..], visiting, p);
    }
  }

  /** A cycle verdict points at a dependency cycle. */
  lemma {:induction false} CycleIsCycle(g: Graph, key: string, trail: seq<string>)
    requires Closed(g) && key in g && Walk(g, trail + [key]) && Search(g, key, Elements(trail)).Cycle?
    ensures !Acyclic(g)
    decreases g.Keys - Elements(trail), 0
  {
    var here := trail + [key];
    if key in Elements(trail) {
      var i :| 0 <= i < |trail| && trail[i] == key;
      assert Walk(g, here[i..]) && here[i..][0] == here[i..][|here[i..]| - 1];
    } else {
      assert Elements(here) == Elements(trail) + {key};
      assert here[|here| - 1] == key;
      assert g.Keys - Elements(here) < g.Keys - Elements(trail);
      AnyCycle(g, g[key], here);
    }
  }

  lemma {:induction false} AnyCycle(g: Graph, parents: seq<string>, trail: seq<string>)
    requires Closed(g) && Walk(g, trail) && SearchAny.requires(g, parents, Elements(trail))
    requires forall p :: p in parents ==> p in g[trail[|trail| - 1]]
    requires SearchAny(g, parents, Elements(trail)).Cycle?
    ensures !Acyclic(g)
    decreases g.Keys - Elements(trail), 1 + |parents|
  {
    assert parents[0] in parents && forall p :: p in parents[1..] ==> p in parents;
    if Search(g, parents[0], Elements(trail)).Misses? {
      AnyCycle(g, parents[1..], trail);
    } else {
      Append(g, trail, parents[0]);
      CycleIsCycle(g, parents[0], trail);
    }
  }

  /** On acyclic graphs the search decides dependency exactly. */
  lemma ExactOnAcyclic(g: Graph, key: string)
    requires Closed(g) && key in g && Acyclic(g)
    ensures Search(g, key, {}).Reaches? <==> DependsOn(g, key, METADATA)
    ensures !Search(g, key, {}).Cycle?
  {
    match Search(g, key, {})
    case Reaches => ReachesIsPath(g, key, {});
    case Misses =>
      forall w ensures !Connects(g, key, w, METADATA) {
        MissesIsNoPath(g, key, {}, w);
      }
    case Cycle =>
      assert Elements<string>([]) == {} && [] + [key] == [key];
      assert Walk(g, [] + [key]);
      CycleIsCycle(g, key, []);
      assert false;
  }

  // When the whole check passes ------------------------------------------

  /** Following the first need of each job arrives at the gate in `n` steps. */
  ghost predicate Leads(g: Graph, key: string, n: nat)
    decreases n
  {
    && key in g
    && if n == 0 then key == METADATA
       else key != METADATA && g[key] != [] && Leads(g, g[key][0], n - 1)
  }

  ghost predicate FirstNeedsLead(g: Graph, key: string) {
    exists n: nat :: Leads(g, key, n)
  }

  lemma {:induction false} LeadsUnique(g: Graph, key: string, n: nat, m: nat)
    requires Leads(g, key, n) && Leads(g, key, m)
    ensures n == m
    decreases n
  {
    if n > 0 {
      LeadsUnique(g, g[key][0], n - 1, m - 1);
    }
  }

  ghost predicate LeadsLater(g: Graph, key: string, n: int) {
    exists m: nat :: m > n && Leads(g, key, m)
  }

  /** A job whose first needs lead to the gate passes, whatever its other needs are. */
  lemma {:induction false} LeadsReaches(g: Graph, key: string, n: nat, visiting: set<string>)
    requires Closed(g) && Leads(g, key, n)
    requires forall x :: x in visiting ==> LeadsLater(g, x, n)
    ensures Search(g, key, visiting).Reaches?
    decreases n
  {
    if n > 0 {
      if key in visiting {
        var m: nat :| m > n && Leads(g, key, m);
        LeadsUnique(g, key, n, m);
        assert false;
      }
      forall x | x in visiting + {key} ensures LeadsLater(g, x, n - 1) {
        if x == key {
          assert n > n - 1 && Leads(g, x, n);
        } else {
          var m: nat :| m > n && Leads(g, x, m);
          assert m > n - 1 && Leads(g, x, m);
        }
      }
      LeadsReaches(g, g[key][0], n - 1, visiting + {key});
    }
  }

  ghost predicate DeadEnd(g: Graph, d: string) {
    d in g && d != METADATA && g[d] == []
  }

  /** Otherwise the search runs into a cycle or the chain of first needs stops short of the gate. */
  lemma {:induction false} FirstNeedsFate(g: Graph, key: string, visiting: set<string>)
    requires Closed(g) && key in g
    ensures Search(g, key, visiting).Cycle? || FirstNeedsLead(g, key) || exists d :: DeadEnd(g, d)
    decreases g.Keys - visiting
  {
    if key == METADATA {
      assert Leads(g, key, 0);
    } else if key !in visiting && g[key] == [] {
      assert DeadEnd(g, key);
    } else if key !in visiting {
      assert g.Keys - (visiting + {key}) < g.Keys - visiting;
      var next := g[key][0];
      FirstNeedsFate(g, next, visiting + {key});
      if FirstNeedsLead(g, next) {
        var n: nat :| Leads(g, next, n);
        assert Leads(g, key, n + 1);
      }
    }
  }

  /** What the check accepts: following first needs alone arrives at the gate from every job. */
  ghost predicate Gated(g: Graph) {
    && METADATA in g && g[METADATA] == []
    && forall k :: k in g ==> FirstNeedsLead(g, k)
  }

  ghost predicate AllReach(g: Graph) {
    Closed(g) && forall k :: k in g ==> Search(g, k, {}).Reaches?
  }

  /** The check passes exactly when every chain of first needs arrives at the gate. */
  lemma PassesExactly(g: Graph)
    requires Closed(g)
    ensures AllReach(g) <==> forall k :: k in g ==> FirstNeedsLead(g, k)
  {
    if AllReach(g) {
      forall k | k in g ensures FirstNeedsLead(g, k) {
        FirstNeedsFate(g, k, {});
        assert forall d :: DeadEnd(g, d) ==> Search(g, d, {}).Misses?;
      }
    }
    if forall k :: k in g ==> FirstNeedsLead(g, k) {
      forall k | k in g ensures Search(g, k, {}).Reaches? {
        var n: nat :| Leads(g, k, n);
        LeadsReaches(g, k, n, {});
      }
    }
  }

  /** A passing graph gives every job a dependency path to the gate. */
  lemma GatedDepends(g: Graph, key: string)
    requires Closed(g) && Gated(g) && key in g
    ensures DependsOn(g, key, METADATA)
  {
    PassesExactly(g);
    ReachesIsPath(g, key, {});
  }

  function CyclicExample(): Graph {
    map[METADATA := [], "a" := [METADATA, "b"], "b" := ["a"]]
  }

  /** Passing does not exclude cycles: the search stops at the first parent that reaches the gate. */
  lemma CyclicGraphPasses()
    ensures Closed(CyclicExample()) && Gated(CyclicExample()) && !Acyclic(CyclicExample())
  {
    var g := CyclicExample();
    assert g["a"][0] == METADATA && g["b"][0] == "a";
    assert Leads(g, METADATA, 0);
    assert Leads(g, "a", 1);
    assert Leads(g, "b", 2);
    assert g["a"][1] == "b";
    var w := ["a", "b", "a"];
    assert Walk(g, w) && w[0] == w[|w| - 1];
  }

  // The check over the job list ------------------------------------------

  ghost predicate KeysDistinct(jobs: seq<Job>) {
    forall i, j :: 0 <= i < j < |jobs| ==> jobs[i].key != jobs[j].key
  }

  function GraphOf(jobs: seq<Job>): (g: Graph)
    ensures g.Keys == set j | j in jobs :: j.key
    ensures forall k :: k in g ==> exists j :: j in jobs && j.key == k && j.needs == g[k]
  {
    if jobs == [] then map[]
    else
      var front, last := jobs[..|jobs| - 1], jobs[|jobs| - 1];
      assert jobs == front + [last];
      GraphOf(front)[last.key := last.needs]
  }

  lemma GraphHolds(jobs: seq<Job>, i: nat)
    requires KeysDistinct(jobs) && i < |jobs|
    ensures jobs[i].key in GraphOf(jobs) && GraphOf(jobs)[jobs[i].key] == jobs[i].needs
  {
  }

  ghost predicate NeedsKnown(jobs: seq<Job>) {
    forall i, n :: 0 <= i < |jobs| && n in jobs[i].needs ==> n in GraphOf(jobs)
  }

  ghost predicate EdgesDistinct(jobs: seq<Job>) {
    forall i :: 0 <= i < |jobs| ==> |Elements(jobs[i].needs)| == |jobs[i].needs|
  }

  method CheckNeeds(jobs: seq<Job>, known: set<string>) returns (ok: bool)
    ensures ok <==> forall i, n :: 0 <= i < |jobs| && n in jobs[i].needs ==> n in known
  {
    for i := 0 to |jobs|
      invariant forall k, n :: 0 <= k < i && n in jobs[k].needs ==> n in known
    {
      if !(Elements(jobs[i].needs) <= known) {
        return false;
      }
      assert forall n :: n in jobs[i].needs ==> n in Elements(jobs[i].needs);
    }
    return true;
  }

  /** The closing checks of `parse_graph`. */
  method CheckJobs(jobs: seq<Job>) returns (r: Result<Graph, Error>)
    ensures r.Ok? <==> EdgesDistinct(jobs) && KeysDistinct(jobs) && NeedsKnown(jobs)
    ensures r.Ok? ==> r.value == GraphOf(jobs) && Closed(r.value)
  {
    hide GraphOf;
    var keys: seq<string> := [];
    for i := 0 to |jobs|
      invariant forall k :: 0 <= k < i ==> |Elements(jobs[k].needs)| == |jobs[k].needs|
      invariant |keys| == i && forall k :: 0 <= k < i ==> keys[k] == jobs[k].key
    {
      if |jobs[i].needs| != |Elements(jobs[i].needs)| {
        return Err(DuplicateEdge);
      }
      keys := keys + [jobs[i].key];
    }
    if |keys| != |Elements(keys)| {
      if KeysDistinct(jobs) {
        DistinctCardinality(keys);
        assert false;
      }
      return Err(DuplicateJob);
    }
    FullSetDistinct(keys);
    var known := CheckNeeds(jobs, GraphOf(jobs).Keys);
    if !known {
      return Err(UnknownNeed);
    }
    GraphClosed(jobs);
    return Ok(GraphOf(jobs));
  }

  lemma {:induction false} FullSetDistinct(xs: seq<string>)
    requires |xs| == |Elements(xs)|
    ensures Distinct(xs)
  {
    if xs != [] {
      var front, last := xs[..|xs| - 1], xs[|xs| - 1];
      assert xs == front + [last];
      assert Elements(xs) == Elements(front) + {last};
      ElementsBound(front);
      FullSetDistinct(front);
      assert last !in front;
    }
  }

  lemma {:induction false} ElementsBound(xs: seq<string>)
    ensures |Elements(xs)| <= |xs|
  {
    if xs != [] {
      var front, last := xs[..|xs| - 1], xs[|xs| - 1];
      assert xs == front + [last];
      assert Elements(xs) == Elements(front) + {last};
      ElementsBound(front);
    }
  }

  lemma GraphClosed(jobs: seq<Job>)
    requires KeysDistinct(jobs) && NeedsKnown(jobs)
    ensures Closed(GraphOf(jobs))
  {
  }

  /** The reachability part of `_check_graph_security`. */
  method CheckGate(jobs: seq<Job>) returns (r: Result<(), Error>)
    requires KeysDistinct(jobs) && Closed(GraphOf(jobs))
    ensures r.Ok? <==> Gated(GraphOf(jobs))
  {
    hide GraphOf, Leads;
    var g := GraphOf(jobs);
    if METADATA !in g || g[METADATA] != [] {
      return Err(NotRoot);
    }
    for i := 0 to |jobs|
      invariant forall k :: 0 <= k < i ==> jobs[k].key in g && Search(g, jobs[k].key, {}).Reaches?
    {
      GraphHolds(jobs, i);
      if jobs[i].key != METADATA {
        var verdict := Search(g, jobs[i].key, {});
        if !verdict.Reaches? {
          PassesExactly(g);
          return Err(if verdict.Cycle? then DependencyCycle else NotGated);
        }
      }
    }
    forall k | k in g ensures Search(g, k, {}).Reaches? {
      var j :| j in jobs && j.key == k && j.needs == g[k];
    }
    PassesExactly(g);
    return Ok(());
  }
}
