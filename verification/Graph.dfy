/**
 Finite directed graphs over string names: chains, cycles and chain depth.

 The planner's two graph algorithms are stated against these definitions, which
 mention neither in-degrees nor a search stack.
 */
module Graph {

  datatype Digraph = Digraph(nodes: set<string>, succ: map<string, set<string>>) {
    ghost predicate Valid() {
      succ.Keys == nodes && forall n :: n in nodes ==> succ[n] <= nodes
    }
  }

  /** A walk along the edges; it has `|p| - 1` edges. */
  ghost predicate IsChain(g: Digraph, p: seq<string>)
    requires g.Valid()
  {
    && |p| > 0
    && (forall i :: 0 <= i < |p| ==> p[i] in g.nodes)
    && (forall i, j :: 0 <= i && j == i + 1 && j < |p| ==> p[j] in g.succ[p[i]])
  }

  ghost predicate HasChain(g: Digraph, s: string, k: nat)
    requires g.Valid()
  {
    exists p :: IsChain(g, p) && p[0] == s && |p| == k + 1
  }

  ghost predicate Reaches(g: Digraph, s: string, t: string)
    requires g.Valid()
  {
    exists p :: IsChain(g, p) && p[0] == s && p[|p| - 1] == t
  }

  ghost predicate OnCycle(g: Digraph, s: string)
    requires g.Valid()
  {
    exists p :: IsChain(g, p) && |p| >= 2 && p[0] == s && p[|p| - 1] == s
  }

  ghost predicate HasCycle(g: Digraph)
    requires g.Valid()
  {
    exists s :: OnCycle(g, s)
  }

  /** No cycle can be reached from `s`, and the longest chain from `s` has `k` edges. */
  ghost predicate HasLevel(g: Digraph, s: string, k: nat)
    requires g.Valid()
  {
    && (forall c :: Reaches(g, s, c) ==> !OnCycle(g, c))
    && HasChain(g, s, k)
    && (forall j: nat :: HasChain(g, s, j) ==> j <= k)
  }

  /** A chain of `k` edges starts at `s`, by recursion on `k`. */
  ghost predicate Deep(g: Digraph, s: string, k: nat)
    requires g.Valid()
    decreases k
  {
    s in g.nodes && (k > 0 ==> exists d :: d in g.succ[s] && Deep(g, d, k - 1))
  }

  lemma {:induction false} DeepGivesChain(g: Digraph, s: string, k: nat) returns (p: seq<string>)
    requires g.Valid() && Deep(g, s, k)
    ensures IsChain(g, p) && p[0] == s && |p| == k + 1
    decreases k
  {
    if k == 0 {
      p := [s];
    } else {
      var d :| d in g.succ[s] && Deep(g, d, k - 1);
      var q := DeepGivesChain(g, d, k - 1);
      p := [s] + q;
      forall i, j | 0 <= i && j == i + 1 && j < |p|
        ensures p[j] in g.succ[p[i]]
      {
        if i > 0 {
          assert q[j - 1] in g.succ[q[i - 1]];
        }
      }
    }
  }

  lemma {:induction false} ChainGivesDeep(g: Digraph, p: seq<string>)
    requires g.Valid() && IsChain(g, p)
    ensures Deep(g, p[0], |p| - 1)
  {
    if |p| > 1 {
      var q := p[1..];
      SubchainIsChain(g, p, 1, |p|);
      ChainGivesDeep(g, q);
      assert p[0 + 1] in g.succ[p[0]];
    }
  }

  lemma DeepIffHasChain(g: Digraph, s: string, k: nat)
    requires g.Valid()
    ensures Deep(g, s, k) <==> HasChain(g, s, k)
  {
    if Deep(g, s, k) {
      var p := DeepGivesChain(g, s, k);
    }
    if HasChain(g, s, k) {
      var p :| IsChain(g, p) && p[0] == s && |p| == k + 1;
      ChainGivesDeep(g, p);
    }
  }

  lemma {:induction false} DeepMonotone(g: Digraph, s: string, j: nat, k: nat)
    requires g.Valid() && j <= k && Deep(g, s, k)
    ensures Deep(g, s, j)
    decreases j
  {
    if j == 0 {
    } else {
      var d :| d in g.succ[s] && Deep(g, d, k - 1);
      DeepMonotone(g, d, j - 1, k - 1);
    }
  }

  ghost predicate StaysInside(g: Digraph, closed: set<string>, c: string)
    requires g.Valid()
  {
    c in g.nodes && exists d :: d in closed && d in g.succ[c]
  }

  ghost predicate NeverLeaves(g: Digraph, closed: set<string>)
    requires g.Valid()
  {
    forall c {:trigger StaysInside(g, closed, c)} :: c in closed ==> StaysInside(g, closed, c)
  }

  /** A set of nodes each with a successor in the set starts chains of every length. */
  lemma {:induction false} ClosedIsDeep(g: Digraph, closed: set<string>, s: string, k: nat)
    requires g.Valid() && s in closed && NeverLeaves(g, closed)
    ensures Deep(g, s, k)
    decreases k
  {
    assert StaysInside(g, closed, s);
    if k == 0 {
    } else {
      var d :| d in closed && d in g.succ[s];
      ClosedIsDeep(g, closed, d, k - 1);
    }
  }

  lemma CycleIsDeep(g: Digraph, c: string, k: nat)
    requires g.Valid() && OnCycle(g, c)
    ensures Deep(g, c, k)
  {
    var p :| IsChain(g, p) && |p| >= 2 && p[0] == c && p[|p| - 1] == c;
    var closed := set i | 0 <= i < |p| :: p[i];
    forall x | x in closed
      ensures StaysInside(g, closed, x)
    {
      var i :| 0 <= i < |p| && p[i] == x;
      var j := if i == |p| - 1 then 0 else i;
      assert p[j + 1] in g.succ[p[j]] && p[j + 1] in closed;
    }
    ClosedIsDeep(g, closed, c, k);
  }

  lemma {:induction false} ReachesDeep(g: Digraph, p: seq<string>, k: nat)
    requires g.Valid() && IsChain(g, p) && Deep(g, p[|p| - 1], k)
    ensures Deep(g, p[0], k + |p| - 1)
  {
    if |p| > 1 {
      var q := p[1..];
      SubchainIsChain(g, p, 1, |p|);
      ReachesDeep(g, q, k);
      assert p[0 + 1] in g.succ[p[0]];
    }
  }

  lemma ReachedCycleIsDeep(g: Digraph, s: string, c: string, k: nat)
    requires g.Valid() && Reaches(g, s, c) && OnCycle(g, c)
    ensures Deep(g, s, k)
  {
    CycleIsDeep(g, c, k);
    var p :| IsChain(g, p) && p[0] == s && p[|p| - 1] == c;
    ReachesDeep(g, p, k);
    DeepMonotone(g, s, k, k + |p| - 1);
  }

  lemma SubchainIsChain(g: Digraph, p: seq<string>, i: nat, j: nat)
    requires g.Valid() && IsChain(g, p) && i < j <= |p|
    ensures IsChain(g, p[i..j])
  {
    var q := p[i..j];
    forall n, m | 0 <= n && m == n + 1 && m < |q|
      ensures q[m] in g.succ[q[n]]
    {
      assert p[i + m] in g.succ[p[i + n]];
    }
  }

  /** Pigeonhole: a sequence longer than the set it draws from repeats an element. */
  lemma {:induction false} Pigeonhole(p: seq<string>, nodes: set<string>) returns (i: nat, j: nat)
    requires |p| > |nodes| && forall n :: 0 <= n < |p| ==> p[n] in nodes
    ensures i < j < |p| && p[i] == p[j]
    decreases |p|
  {
    var last := p[|p| - 1];
    if exists n :: 0 <= n < |p| - 1 && p[n] == last {
      i :| 0 <= i < |p| - 1 && p[i] == last;
      j := |p| - 1;
    } else {
      i, j := Pigeonhole(p[..|p| - 1], nodes - {last});
    }
  }

  lemma LongChainMeetsCycle(g: Digraph, s: string)
    requires g.Valid() && Deep(g, s, |g.nodes|)
    ensures exists c :: Reaches(g, s, c) && OnCycle(g, c)
  {
    var p := DeepGivesChain(g, s, |g.nodes|);
    var i, j := Pigeonhole(p, g.nodes);
    SubchainIsChain(g, p, 0, i + 1);
    SubchainIsChain(g, p, i, j + 1);
    var a, b := p[0..i + 1], p[i..j + 1];
    assert a[0] == s && a[|a| - 1] == p[i] && b[0] == p[i] && b[|b| - 1] == p[i];
    assert Reaches(g, s, p[i]) && OnCycle(g, p[i]);
  }

  /** The chain depth counts exactly the level: the bound and the acyclicity are one fact. */
  lemma LevelByDepth(g: Digraph, s: string, k: nat)
    requires g.Valid()
    ensures HasLevel(g, s, k) <==> Deep(g, s, k) && !Deep(g, s, k + 1)
  {
    forall j: nat ensures Deep(g, s, j) <==> HasChain(g, s, j) { DeepIffHasChain(g, s, j); }
    if Deep(g, s, k) && !Deep(g, s, k + 1) {
      forall j: nat | HasChain(g, s, j) ensures j <= k {
        if j > k { DeepMonotone(g, s, k + 1, j); }
      }
      forall c | Reaches(g, s, c) ensures !OnCycle(g, c) {
        if OnCycle(g, c) {
          ReachedCycleIsDeep(g, s, c, k + 1);
        }
      }
    }
  }

  /** The nodes that start a chain of `n` edges. */
  ghost function DeepNodes(g: Digraph, n: nat): set<string>
    requires g.Valid()
  {
    set x | x in g.nodes && Deep(g, x, n)
  }

  lemma StableDepthIsClosed(g: Digraph, n: nat)
    requires g.Valid() && DeepNodes(g, n) == DeepNodes(g, n + 1)
    ensures NeverLeaves(g, DeepNodes(g, n))
  {
    var closed := DeepNodes(g, n);
    forall c | c in closed
      ensures StaysInside(g, closed, c)
    {
      assert c in DeepNodes(g, n + 1);
      var d :| d in g.succ[c] && Deep(g, d, n);
      assert d in closed;
    }
  }

  lemma StableHasNoLaterLevel(g: Digraph, n: nat, k: nat, s: string)
    requires g.Valid() && DeepNodes(g, n) == DeepNodes(g, n + 1) && n <= k
    ensures Deep(g, s, k) ==> Deep(g, s, k + 1)
  {
    if Deep(g, s, k) {
      DeepMonotone(g, s, n, k);
      StableDepthIsClosed(g, n);
      assert s in DeepNodes(g, n);
      ClosedIsDeep(g, DeepNodes(g, n), s, k + 1);
    }
  }

  lemma {:induction false} LevelBelow(g: Digraph, s: string, n: nat) returns (k: nat)
    requires g.Valid() && s in g.nodes && !Deep(g, s, n)
    ensures k < n && Deep(g, s, k) && !Deep(g, s, k + 1)
    decreases n
  {
    k := n - 1;
    if !Deep(g, s, n - 1) {
      k := LevelBelow(g, s, n - 1);
    }
  }

  /** Once one more edge excludes no node, the remaining nodes are those that reach a cycle. */
  lemma StableDepthMeansCycle(g: Digraph, n: nat, s: string)
    requires g.Valid() && s in g.nodes && DeepNodes(g, n) == DeepNodes(g, n + 1)
    ensures s in DeepNodes(g, n) <==> exists c :: Reaches(g, s, c) && OnCycle(g, c)
  {
    StableDepthIsClosed(g, n);
    if s in DeepNodes(g, n) {
      ClosedMeetsCycle(g, DeepNodes(g, n), s);
    }
    if c :| Reaches(g, s, c) && OnCycle(g, c) {
      ReachedCycleIsDeep(g, s, c, n);
    }
  }

  lemma ClosedMeetsCycle(g: Digraph, closed: set<string>, s: string)
    requires g.Valid() && NeverLeaves(g, closed) && s in closed
    ensures exists c :: Reaches(g, s, c) && OnCycle(g, c)
  {
    ClosedIsDeep(g, closed, s, |g.nodes|);
    LongChainMeetsCycle(g, s);
  }

  /** Every node of the order has its successors strictly earlier. */
  ghost predicate SuccessorsFirst(g: Digraph, order: seq<string>)
    requires g.Valid()
  {
    forall i :: 0 <= i < |order| ==>
      order[i] in g.nodes && forall d :: d in g.succ[order[i]] ==> d in order[..i]
  }

  /** A node at index `i` of such an order starts no chain of more than `i` edges. */
  lemma {:induction false} DeepBelow(g: Digraph, order: seq<string>, i: nat)
    requires g.Valid() && i < |order| && SuccessorsFirst(g, order)
    ensures !Deep(g, order[i], i + 1)
    decreases i
  {
    if Deep(g, order[i], i + 1) {
      var d :| d in g.succ[order[i]] && Deep(g, d, i);
      var j :| 0 <= j < i && order[j] == d;
      DeepBelow(g, order, j);
      DeepMonotone(g, d, j + 1, i);
      assert false;
    }
  }

  lemma OrderedIsAcyclic(g: Digraph, order: seq<string>)
    requires g.Valid() && SuccessorsFirst(g, order)
    requires forall n :: n in g.nodes ==> n in order
    ensures !HasCycle(g)
  {
    if HasCycle(g) {
      var s :| OnCycle(g, s);
      CycleIsDeep(g, s, 0);
      var i :| 0 <= i < |order| && order[i] == s;
      DeepBelow(g, order, i);
      CycleIsDeep(g, s, i + 1);
      assert false;
    }
  }
}
