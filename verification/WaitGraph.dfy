/**
 Graphs in which every node has at most one successor: `g[p]` is the node that `p` waits for, -1 when
 it waits for no particular one. They stand for the relation that P_BLOCKEDON defines on the process table.
 */
module WaitGraph {
  import opened Lists

  type Graph = seq<int>

  ghost predicate Path(g: Graph, path: seq<nat>) {
    && path != []
    && (forall i :: 0 <= i < |path| ==> path[i] < |g|)
    && forall i: nat :: i + 1 < |path| ==> Edge(g, path, i)
  }

  ghost predicate Edge(g: Graph, path: seq<nat>, i: nat)
    requires i + 1 < |path|
  {
    path[i] < |g| && g[path[i]] == path[i + 1]
  }

  /** No node can be reached from itself along one or more edges. */
  ghost predicate Acyclic(g: Graph) {
    forall path: seq<nat> :: Path(g, path) && |path| >= 2 ==> path[0] != path[|path| - 1]
  }

  /** `b` can be reached from `a` along one or more edges. */
  ghost predicate Reaches(g: Graph, a: nat, b: nat) {
    exists path: seq<nat> :: Path(g, path) && |path| >= 2 && path[0] == a && path[|path| - 1] == b
  }

  lemma FirstEdge(g: Graph, path: seq<nat>)
    requires Path(g, path) && |path| >= 2
    ensures g[path[0]] == path[1]
  {
    assert Edge(g, path, 0);
  }

  lemma NoEdges(g: Graph)
    requires forall i :: 0 <= i < |g| ==> g[i] == -1
    ensures Acyclic(g)
  {
    forall path: seq<nat> | Path(g, path) ensures |path| < 2 {
      if |path| >= 2 { FirstEdge(g, path); }
    }
  }

  lemma TwoCycle(g: Graph, a: nat, b: nat)
    requires a < |g| && b < |g| && g[a] == b && g[b] == a
    ensures !Acyclic(g)
  {
    var loop: seq<nat> := [a, b, a];
    assert Path(g, loop) && loop[0] == loop[|loop| - 1];
  }

  lemma SubPath(g: Graph, path: seq<nat>, i: nat, j: nat)
    requires Path(g, path) && i < j <= |path|
    ensures Path(g, path[i..j])
  {
    var cut := path[i..j];
    forall k: nat | k + 1 < |cut| ensures Edge(g, cut, k) {
      assert Edge(g, path, i + k);
    }
  }

  lemma JoinPaths(g: Graph, p: seq<nat>, q: seq<nat>)
    requires Path(g, p) && Path(g, q) && p[|p| - 1] == q[0]
    ensures Path(g, p + q[1..])
    ensures (p + q[1..])[0] == p[0]
    ensures (p + q[1..])[|p + q[1..]| - 1] == q[|q| - 1]
  {
    var r := p + q[1..];
    forall k: nat | k + 1 < |r| ensures Edge(g, r, k) {
      if k + 1 < |p| {
        assert Edge(g, p, k);
      } else {
        var m: nat := k + 1 - |p|;
        assert r[k] == q[m] && r[k + 1] == q[m + 1];
        assert Edge(g, q, m);
      }
    }
  }

  /** A path of an acyclic graph visits no node twice, so it has at most |g| nodes. */
  lemma PathIsShort(g: Graph, path: seq<nat>)
    requires Acyclic(g) && Path(g, path)
    ensures Distinct(path) && |path| <= |g|
  {
    forall i, j | 0 <= i < j < |path| ensures path[i] != path[j] {
      SubPath(g, path, i, j + 1);
      var cut := path[i..j + 1];
      assert cut[0] == path[i] && cut[|cut| - 1] == path[j];
    }
    Pigeonhole(path, |g|);
  }

  /** Two paths from one node agree as far as both go. */
  lemma {:induction false} PathsAgree(g: Graph, p: seq<nat>, q: seq<nat>, k: nat)
    requires Path(g, p) && Path(g, q) && p[0] == q[0] && k < |p| && k < |q|
    ensures p[k] == q[k]
  {
    if k > 0 {
      PathsAgree(g, p, q, k - 1);
      assert Edge(g, p, k - 1) && Edge(g, q, k - 1);
    }
  }

  /** A path that ends at a node without successor contains everything its first node reaches. */
  lemma EndedPathIsAll(g: Graph, p: seq<nat>, b: nat)
    requires Path(g, p) && g[p[|p| - 1]] == -1 && b !in p[1..]
    ensures !Reaches(g, p[0], b)
  {
    forall q: seq<nat> | Path(g, q) && |q| >= 2 && q[0] == p[0] ensures q[|q| - 1] != b {
      if |q| <= |p| {
        assert p[|q| - 1] in p[1..];
        PathsAgree(g, p, q, |q| - 1);
      } else {
        assert Edge(g, q, |p| - 1);
        PathsAgree(g, p, q, |p| - 1);
      }
    }
  }

  /** A path goes on to the successor of its last node. */
  lemma PathOn(g: Graph, path: seq<nat>, x: nat)
    requires Path(g, path) && x < |g| && g[path[|path| - 1]] == x
    ensures Path(g, path + [x])
  {
    var longer := path + [x];
    forall k: nat | k + 1 < |longer| ensures Edge(g, longer, k) {
      if k + 1 < |path| { assert Edge(g, path, k); }
    }
  }

  /** In an acyclic graph every chain of waiting ends, after at most |g| nodes, at a node that waits for none. */
  lemma {:induction false} ChainEnds(g: Graph, path: seq<nat>) returns (full: seq<nat>)
    requires Acyclic(g) && Path(g, path)
    requires forall i :: 0 <= i < |g| ==> -1 <= g[i] < |g|
    ensures Path(g, full) && path <= full && |full| <= |g| && g[full[|full| - 1]] == -1
    decreases |g| - |path|
  {
    PathIsShort(g, path);
    var next := g[path[|path| - 1]];
    if next == -1 {
      full := path;
    } else {
      var longer: seq<nat> := path + [next];
      PathOn(g, path, next);
      PathIsShort(g, longer);
      full := ChainEnds(g, longer);
      assert longer <= full;
      assert path <= longer;
    }
  }

  /** Taking edges away keeps a graph acyclic. */
  lemma DropEdges(g: Graph, h: Graph)
    requires Acyclic(g) && |h| == |g|
    requires forall i :: 0 <= i < |g| ==> h[i] == g[i] || h[i] == -1
    ensures Acyclic(h)
  {
    forall path: seq<nat> | Path(h, path) && |path| >= 2 ensures path[0] != path[|path| - 1] {
      forall i: nat | i + 1 < |path| ensures Edge(g, path, i) {
        assert Edge(h, path, i);
      }
      assert Path(g, path);
    }
  }

  /** Adding the edge c -> d at a node without successor keeps the graph acyclic exactly when d does not lead back to c. */
  lemma AddEdge(g: Graph, c: nat, d: nat)
    requires Acyclic(g) && c < |g| && d < |g| && g[c] == -1
    ensures Acyclic(g[c := d]) <==> c != d && !Reaches(g, d, c)
  {
    var h := g[c := d];
    if c == d {
      assert Edge(h, [c, c], 0) && Path(h, [c, c]);
    } else if Reaches(g, d, c) {
      ReachesClosesCycle(g, c, d);
    } else {
      forall path: seq<nat> | Path(h, path) && |path| >= 2 ensures path[0] != path[|path| - 1] {
        if path[0] == path[|path| - 1] {
          CycleUsesEdge(g, c, d, path);
        }
      }
    }
  }

  lemma ReachesClosesCycle(g: Graph, c: nat, d: nat)
    requires c < |g| && d < |g| && g[c] == -1 && Reaches(g, d, c)
    ensures !Acyclic(g[c := d])
  {
    var h := g[c := d];
    var q: seq<nat> :| Path(g, q) && |q| >= 2 && q[0] == d && q[|q| - 1] == c;
    var loop: seq<nat> := [c] + q;
    forall i: nat | i + 1 < |loop| ensures Edge(h, loop, i) {
      if i > 0 {
        assert loop[i] == q[i - 1] && loop[i + 1] == q[i - 1 + 1];
        assert Edge(g, q, i - 1);
      }
    }
    assert Path(h, loop) && loop[0] == loop[|loop| - 1];
  }

  /** A stretch of a path of g[c := d] that does not leave from c is a path of g. */
  lemma OldStretch(g: Graph, c: nat, d: nat, path: seq<nat>, i: nat, j: nat)
    requires c < |g| && d < |g| && Path(g[c := d], path) && i < j <= |path|
    requires forall k :: i <= k < j - 1 ==> path[k] != c
    ensures Path(g, path[i..j])
  {
    var cut := path[i..j];
    forall k: nat | k + 1 < |cut| ensures Edge(g, cut, k) {
      assert Edge(g[c := d], path, i + k);
    }
  }

  lemma CycleUsesEdge(g: Graph, c: nat, d: nat, path: seq<nat>)
    requires Acyclic(g) && c < |g| && d < |g| && g[c] == -1 && c != d
    requires Path(g[c := d], path) && |path| >= 2 && path[0] == path[|path| - 1]
    ensures Reaches(g, d, c)
  {
    var n := |path|;
    if forall k :: 0 <= k < n - 1 ==> path[k] != c {
      assert path[0..n] == path;
      OldStretch(g, c, d, path, 0, n);
      assert false;
    }
    var first := FirstVisit(path, c, 0);
    var last := LastVisit(path, c, n - 1);
    OldStretch(g, c, d, path, 0, first + 1);
    OldStretch(g, c, d, path, last + 1, n);
    assert Edge(g[c := d], path, last);
    var tail, head := path[last + 1..n], path[0..first + 1];
    JoinPaths(g, tail, head);
    var q := tail + head[1..];
    assert q[0] == d && q[|q| - 1] == c;
    assert |q| >= 2;
  }

  lemma {:induction false} FirstVisit(path: seq<nat>, c: nat, from: nat) returns (k: nat)
    requires exists j :: from <= j < |path| - 1 && path[j] == c
    ensures from <= k < |path| - 1 && path[k] == c && forall j :: from <= j < k ==> path[j] != c
    decreases |path| - from
  {
    if path[from] == c {
      k := from;
    } else {
      k := FirstVisit(path, c, from + 1);
    }
  }

  lemma {:induction false} LastVisit(path: seq<nat>, c: nat, end: nat) returns (k: nat)
    requires end <= |path| && exists j :: 0 <= j < end && path[j] == c
    ensures 0 <= k < end && path[k] == c && forall j :: k < j < end ==> path[j] != c
    decreases end
  {
    if path[end - 1] == c {
      k := end - 1;
    } else {
      k := LastVisit(path, c, end - 1);
    }
  }
}
