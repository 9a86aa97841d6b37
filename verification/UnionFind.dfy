/** Union-find with path halving and no ranks, and the clustering of moving points built
    on it (cluster_moving, and motion_blob which repeats the algorithm). */
module UnionFind {
  import opened Proximity

  /** A forest over the indices: `rep` names the root of every index, and `depth` strictly
      falls along parent links. Both are ghosts of the array, used for proof only. */
  ghost predicate Forest(parent: seq<nat>, rep: seq<nat>, depth: seq<nat>) {
    && |parent| == |rep| == |depth|
    && (forall i :: 0 <= i < |parent| ==> parent[i] < |parent| && rep[i] < |parent|)
    && (forall i :: 0 <= i < |parent| ==> rep[parent[i]] == rep[i])
    && (forall i :: 0 <= i < |parent| ==> parent[rep[i]] == rep[i])
    && (forall i :: 0 <= i < |parent| ==> (parent[i] == i <==> rep[i] == i))
    && (forall i :: 0 <= i < |parent| && parent[i] != i ==> depth[parent[i]] < depth[i])
  }

  lemma ForestAt(parent: seq<nat>, rep: seq<nat>, depth: seq<nat>, i: nat)
    requires Forest(parent, rep, depth) && i < |parent|
    ensures |rep| == |depth| == |parent| && parent[i] < |parent| && rep[i] < |parent|
    ensures rep[parent[i]] == rep[i] && parent[rep[i]] == rep[i] && (parent[i] == i <==> rep[i] == i)
    ensures parent[i] != i ==> depth[parent[i]] < depth[i]
  {
  }

  /** What Forest says of one index. */
  ghost predicate NodeOk(parent: seq<nat>, rep: seq<nat>, depth: seq<nat>, i: nat)
    requires |parent| == |rep| == |depth| && i < |parent|
  {
    && parent[i] < |parent| && rep[i] < |parent|
    && rep[parent[i]] == rep[i] && parent[rep[i]] == rep[i]
    && (parent[i] == i <==> rep[i] == i)
    && (parent[i] != i ==> depth[parent[i]] < depth[i])
  }

  lemma NodesMakeForest(parent: seq<nat>, rep: seq<nat>, depth: seq<nat>)
    requires |parent| == |rep| == |depth|
    requires forall i :: 0 <= i < |parent| ==> NodeOk(parent, rep, depth, i)
    ensures Forest(parent, rep, depth)
  {
    forall i | 0 <= i < |parent|
      ensures parent[i] < |parent| && rep[i] < |parent| && rep[parent[i]] == rep[i] && parent[rep[i]] == rep[i]
    {
      assert NodeOk(parent, rep, depth, i);
    }
    forall i | 0 <= i < |parent|
      ensures parent[i] == i <==> rep[i] == i
      ensures parent[i] != i ==> depth[parent[i]] < depth[i]
    {
      assert NodeOk(parent, rep, depth, i);
    }
  }

  lemma HalvePath(parent: seq<nat>, rep: seq<nat>, depth: seq<nat>, i: nat)
    requires Forest(parent, rep, depth) && i < |parent| && parent[i] != i
    ensures parent[i] < |parent| && parent[parent[i]] < |parent|
    ensures Forest(parent[i := parent[parent[i]]], rep, depth)
    ensures rep[parent[parent[i]]] == rep[i] && depth[parent[parent[i]]] < depth[i]
  {
    hide Forest;
    ForestAt(parent, rep, depth, i);
    ForestAt(parent, rep, depth, parent[i]);
    var halved := parent[i := parent[parent[i]]];
    forall k | 0 <= k < |parent| ensures NodeOk(halved, rep, depth, k) {
      ForestAt(parent, rep, depth, k);
      ForestAt(parent, rep, depth, rep[k]);
    }
    NodesMakeForest(halved, rep, depth);
  }

  /** Path halving reaches the root and changes no root. */
  method Find(parent: array<nat>, start: nat, ghost rep: seq<nat>, ghost depth: seq<nat>) returns (i: nat)
    requires Forest(parent[..], rep, depth) && start < parent.Length
    modifies parent
    ensures Forest(parent[..], rep, depth)
    ensures start < |rep| && i == rep[start]
  {
    hide Forest;
    i := start;
    ForestAt(parent[..], rep, depth, i);
    while parent[i] != i
      invariant i < parent.Length == |rep| == |depth| && rep[i] == rep[start]
      invariant Forest(parent[..], rep, depth)
      decreases depth[i]
    {
      HalvePath(parent[..], rep, depth, i);
      ghost var halved := parent[..][i := parent[parent[i]]];
      parent[i] := parent[parent[i]];
      assert parent[..] == halved;
      i := parent[i];
    }
    ForestAt(parent[..], rep, depth, i);
  }

  ghost function Merged(rep: seq<nat>, a: nat, b: nat): seq<nat> {
    seq(|rep|, k requires 0 <= k < |rep| => if rep[k] == a then b else rep[k])
  }

  ghost function Lifted(rep: seq<nat>, depth: seq<nat>, a: nat, b: nat): seq<nat>
    requires |rep| == |depth| && b < |depth|
  {
    seq(|rep|, k requires 0 <= k < |rep| => if rep[k] == a then depth[k] + depth[b] + 1 else depth[k])
  }

  lemma LinkRoots(parent: seq<nat>, rep: seq<nat>, depth: seq<nat>, a: nat, b: nat)
    requires Forest(parent, rep, depth) && a < |parent| && b < |parent| && a != b
    requires parent[a] == a && parent[b] == b
    ensures Forest(parent[a := b], Merged(rep, a, b), Lifted(rep, depth, a, b))
  {
    hide Forest;
    ForestAt(parent, rep, depth, a);
    ForestAt(parent, rep, depth, b);
    var linked, merged, lifted := parent[a := b], Merged(rep, a, b), Lifted(rep, depth, a, b);
    forall k | 0 <= k < |parent| ensures NodeOk(linked, merged, lifted, k) {
      ForestAt(parent, rep, depth, k);
      ForestAt(parent, rep, depth, rep[k]);
    }
    NodesMakeForest(linked, merged, lifted);
  }

  lemma RepsInRange(parent: seq<nat>, rep: seq<nat>, depth: seq<nat>)
    requires Forest(parent, rep, depth)
    ensures |rep| == |parent| && forall i :: 0 <= i < |rep| ==> rep[i] < |rep|
  {
  }

  lemma RootsAreRoots(parent: seq<nat>, rep: seq<nat>, depth: seq<nat>, i: nat)
    requires Forest(parent, rep, depth) && i < |parent|
    ensures |rep| == |parent| && rep[i] < |parent| && parent[rep[i]] == rep[i] && rep[rep[i]] == rep[i]
  {
  }

  /** Joins the classes of p and q; every other class is kept. */
  method Unite(parent: array<nat>, p: nat, q: nat, ghost rep: seq<nat>, ghost depth: seq<nat>)
    returns (ghost rep': seq<nat>, ghost depth': seq<nat>)
    requires Forest(parent[..], rep, depth) && p < parent.Length && q < parent.Length
    modifies parent
    ensures Forest(parent[..], rep', depth')
    ensures |rep| == parent.Length && rep' == Merged(rep, rep[p], rep[q])
  {
    hide Forest;
    rep', depth' := rep, depth;
    ForestAt(parent[..], rep, depth, p);
    ForestAt(parent[..], rep, depth, q);
    var a := Find(parent, p, rep, depth);
    var b := Find(parent, q, rep, depth);
    if a != b {
      RootsAreRoots(parent[..], rep, depth, p);
      RootsAreRoots(parent[..], rep, depth, q);
      LinkRoots(parent[..], rep, depth, a, b);
      ghost var linked := parent[..][a := b];
      parent[a] := b;
      assert parent[..] == linked;
      rep', depth' := Merged(rep, a, b), Lifted(rep, depth, a, b);
    }
  }

  // ---------------------------------------------------------------- components

  /** Equal labels are linked, and near pairs visited so far have equal labels. */
  ghost predicate Sound(pts: seq<Point>, cell: real, rep: seq<nat>) {
    |rep| == |pts| && forall i, j :: 0 <= i < |pts| && 0 <= j < |pts| && rep[i] == rep[j] ==> Linked(pts, cell, i, j)
  }

  ghost predicate Visited(pts: seq<Point>, cell: real, rep: seq<nat>, a: nat, b: nat) {
    && |rep| == |pts|
    && (forall i, j :: 0 <= i < j < |pts| && (i < a || (i == a && j < b)) && Near(pts[i], pts[j], cell)
          ==> rep[i] == rep[j])
  }

  lemma MergedSound(pts: seq<Point>, cell: real, rep: seq<nat>, p: nat, q: nat)
    requires Sound(pts, cell, rep) && p < |pts| && q < |pts| && Near(pts[p], pts[q], cell)
    ensures Sound(pts, cell, Merged(rep, rep[p], rep[q]))
  {
    var rep' := Merged(rep, rep[p], rep[q]);
    LinkedStep(pts, cell, p, q);
    LinkedSym(pts, cell, p, q);
    forall i, j | 0 <= i < |pts| && 0 <= j < |pts| && rep'[i] == rep'[j] ensures Linked(pts, cell, i, j) {
      if rep[i] == rep[j] {
      } else if rep[i] == rep[p] {
        LinkedTrans(pts, cell, i, p, q);
        LinkedTrans(pts, cell, i, q, j);
      } else {
        LinkedTrans(pts, cell, i, q, p);
        LinkedTrans(pts, cell, i, p, j);
      }
    }
  }

  lemma VisitedNext(pts: seq<Point>, cell: real, rep: seq<nat>, rep': seq<nat>, a: nat, b: nat)
    requires Visited(pts, cell, rep, a, b) && a < b < |pts|
    requires if Near(pts[a], pts[b], cell) then rep' == Merged(rep, rep[a], rep[b]) else rep' == rep
    ensures Visited(pts, cell, rep', a, b + 1)
  {
  }

  lemma AllVisited(pts: seq<Point>, cell: real, rep: seq<nat>)
    requires Sound(pts, cell, rep) && Visited(pts, cell, rep, |pts|, 0)
    ensures IsComponentMap(pts, cell, rep)
  {
    forall i, j | 0 <= i < |pts| && 0 <= j < |pts| && Near(pts[i], pts[j], cell) ensures rep[i] == rep[j] {
      assert Near(pts[j], pts[i], cell);
    }
    ComponentsFromLabels(pts, cell, rep);
  }

  lemma SoundStart(pts: seq<Point>, cell: real, rep: seq<nat>)
    requires |rep| == |pts| && forall i :: 0 <= i < |rep| ==> rep[i] == i
    ensures Sound(pts, cell, rep)
  {
    forall i: nat | i < |pts| ensures Linked(pts, cell, i, i) { LinkedSelf(pts, cell, i); }
  }

  /** The roots after pair (i, j) is looked at. */
  ghost function Joined(pts: seq<Point>, cell: real, rep: seq<nat>, i: nat, j: nat): seq<nat>
    requires i < |pts| == |rep| && j < |pts|
  {
    if Near(pts[i], pts[j], cell) then Merged(rep, rep[i], rep[j]) else rep
  }

  /** And after the pairs of i with every index above i and below j. */
  ghost function RowRoots(pts: seq<Point>, cell: real, rep: seq<nat>, i: nat, j: nat): (r: seq<nat>)
    requires i < |pts| == |rep| && j <= |pts|
    ensures |r| == |pts|
  {
    if j <= i + 1 then rep else Joined(pts, cell, RowRoots(pts, cell, rep, i, j - 1), i, j - 1)
  }

  /** And after all pairs whose first index is below i. */
  ghost function RootsBelow(pts: seq<Point>, cell: real, i: nat): (r: seq<nat>)
    requires i <= |pts|
    ensures |r| == |pts|
  {
    if i == 0 then seq(|pts|, k => k)
    else RowRoots(pts, cell, RootsBelow(pts, cell, i - 1), i - 1, |pts|)
  }

  /** The root that the algorithm gives each point. */
  ghost function Roots(pts: seq<Point>, cell: real): (r: seq<nat>)
    ensures |r| == |pts|
  {
    RootsBelow(pts, cell, |pts|)
  }

  lemma {:induction false} RowIsSound(pts: seq<Point>, cell: real, rep: seq<nat>, i: nat, j: nat)
    requires i < j <= |pts| == |rep| && Sound(pts, cell, rep) && Visited(pts, cell, rep, i, 0)
    ensures var r := RowRoots(pts, cell, rep, i, j); Sound(pts, cell, r) && Visited(pts, cell, r, i, j)
  {
    hide Near, Merged, Linked, Sound, Visited;
    if j == i + 1 {
      RowStart(pts, cell, rep, i);
    } else {
      RowIsSound(pts, cell, rep, i, j - 1);
      var before := RowRoots(pts, cell, rep, i, j - 1);
      if Near(pts[i], pts[j - 1], cell) { MergedSound(pts, cell, before, i, j - 1); }
      VisitedNext(pts, cell, before, RowRoots(pts, cell, rep, i, j), i, j - 1);
    }
  }

  lemma {:induction false} RootsAreSound(pts: seq<Point>, cell: real, i: nat)
    requires i <= |pts|
    ensures Sound(pts, cell, RootsBelow(pts, cell, i)) && Visited(pts, cell, RootsBelow(pts, cell, i), i, 0)
  {
    hide Linked, Sound, Visited, RowRoots;
    if i == 0 {
      SoundStart(pts, cell, RootsBelow(pts, cell, 0));
      NothingVisited(pts, cell, RootsBelow(pts, cell, 0));
    } else {
      RootsAreSound(pts, cell, i - 1);
      RowIsSound(pts, cell, RootsBelow(pts, cell, i - 1), i - 1, |pts|);
      RowEnd(pts, cell, RootsBelow(pts, cell, i), i - 1);
    }
  }

  /** Two points get the same root exactly when a chain connects them. */
  lemma RootsAreComponents(pts: seq<Point>, cell: real)
    ensures IsComponentMap(pts, cell, Roots(pts, cell))
  {
    hide RootsBelow, IsComponentMap, Sound, Visited;
    RootsAreSound(pts, cell, |pts|);
    AllVisited(pts, cell, Roots(pts, cell));
  }

  /** The inner loop: the pairs of i with every later index. */
  method UniteRow(parent: array<nat>, pts: seq<Point>, cell: real, i: nat, ghost rep: seq<nat>, ghost depth: seq<nat>)
    returns (ghost rep': seq<nat>, ghost depth': seq<nat>)
    requires i < |pts| == parent.Length && Forest(parent[..], rep, depth) && |rep| == |pts|
    modifies parent
    ensures Forest(parent[..], rep', depth') && |rep'| == |pts| && rep' == RowRoots(pts, cell, rep, i, |pts|)
  {
    hide Near, Merged, RowRoots, Forest;
    rep', depth' := rep, depth;
    RowRootsStep(pts, cell, rep, i, i);
    for j := i + 1 to |pts|
      invariant Forest(parent[..], rep', depth') && |rep'| == |pts|
      invariant rep' == RowRoots(pts, cell, rep, i, j)
    {
      RowRootsStep(pts, cell, rep, i, j);
      if Near(pts[i], pts[j], cell) { rep', depth' := Unite(parent, i, j, rep', depth'); }
    }
  }

  /** The pairwise unite loop ends with labels that are the connected components. */
  method UniteNear(pts: seq<Point>, cell: real) returns (parent: array<nat>, ghost rep: seq<nat>, ghost depth: seq<nat>)
    ensures fresh(parent) && parent.Length == |pts|
    ensures Forest(parent[..], rep, depth) && IsComponentMap(pts, cell, rep) && rep == Roots(pts, cell)
  {
    hide RootsBelow, RowRoots, Forest, IsComponentMap;
    var n := |pts|;
    parent := new nat[n](i => i);
    rep, depth := seq(n, i => i), seq(n, i => 0);
    InitialForest(parent[..], rep, depth);
    RootsStart(pts, cell, rep);
    for i := 0 to n
      invariant Forest(parent[..], rep, depth) && |rep| == n
      invariant rep == RootsBelow(pts, cell, i)
    {
      rep, depth := UniteRow(parent, pts, cell, i, rep, depth);
      RootsStep(pts, cell, i);
    }
    RootsAreComponents(pts, cell);
  }

  lemma RootsStart(pts: seq<Point>, cell: real, rep: seq<nat>)
    requires |rep| == |pts| && forall k :: 0 <= k < |rep| ==> rep[k] == k
    ensures RootsBelow(pts, cell, 0) == rep
  {
  }

  lemma RootsStep(pts: seq<Point>, cell: real, i: nat)
    requires i < |pts|
    ensures |RootsBelow(pts, cell, i)| == |pts|
    ensures RootsBelow(pts, cell, i + 1) == RowRoots(pts, cell, RootsBelow(pts, cell, i), i, |pts|)
  {
  }

  lemma RowRootsStep(pts: seq<Point>, cell: real, rep: seq<nat>, i: nat, j: nat)
    requires i <= j <= |pts| == |rep| && i < |pts|
    ensures RowRoots(pts, cell, rep, i, i + 1) == rep && |RowRoots(pts, cell, rep, i, j)| == |pts|
    ensures i < j < |pts| ==> RowRoots(pts, cell, rep, i, j + 1) == Joined(pts, cell, RowRoots(pts, cell, rep, i, j), i, j)
  {
    hide Joined;
  }

  lemma InitialForest(parent: seq<nat>, rep: seq<nat>, depth: seq<nat>)
    requires |parent| == |rep| == |depth| && forall i :: 0 <= i < |rep| ==> parent[i] == rep[i] == i
    ensures Forest(parent, rep, depth)
  {
  }

  lemma NothingVisited(pts: seq<Point>, cell: real, rep: seq<nat>)
    requires |rep| == |pts|
    ensures Visited(pts, cell, rep, 0, 0)
  {
  }

  lemma RowStart(pts: seq<Point>, cell: real, rep: seq<nat>, i: nat)
    requires Visited(pts, cell, rep, i, 0)
    ensures Visited(pts, cell, rep, i, i + 1)
  {
  }

  lemma RowEnd(pts: seq<Point>, cell: real, rep: seq<nat>, i: nat)
    requires Visited(pts, cell, rep, i, |pts|)
    ensures Visited(pts, cell, rep, i + 1, 0)
  {
  }

  // ---------------------------------------------------------------- the largest class

  /** cnt[find(i)]++ for every i: the size of each class, at its root. */
  method ClassSizes(parent: array<nat>, ghost rep: seq<nat>, ghost depth: seq<nat>) returns (cnt: array<nat>)
    requires Forest(parent[..], rep, depth)
    modifies parent
    ensures Forest(parent[..], rep, depth)
    ensures fresh(cnt) && cnt.Length == |rep| == parent.Length
    ensures forall r :: 0 <= r < cnt.Length ==> cnt[r] == |Labelled(rep, r, |rep|)|
  {
    hide Forest;
    var n := parent.Length;
    cnt := new nat[n](i => 0);
    assert |rep| == n by { ForestSizes(parent[..], rep, depth); }
    forall r | 0 <= r < n ensures Labelled(rep, r, 0) == {} {}
    var i := 0;
    while i < n
      invariant 0 <= i <= n && Forest(parent[..], rep, depth)
      invariant forall r :: 0 <= r < n ==> cnt[r] == |Labelled(rep, r, i)|
    {
      forall r | 0 <= r < n ensures |Labelled(rep, r, i + 1)| == |Labelled(rep, r, i)| + (if rep[i] == r then 1 else 0) {
        LabelledStep(rep, r, i);
      }
      hide Labelled;
      ForestAt(parent[..], rep, depth, i);
      var f := Find(parent, i, rep, depth);
      cnt[f] := cnt[f] + 1;
      i := i + 1;
    }
  }

  lemma ForestSizes(parent: seq<nat>, rep: seq<nat>, depth: seq<nat>)
    requires Forest(parent, rep, depth)
    ensures |rep| == |parent|
  {
  }

  /** The first index of largest count; -1 when every count is 0. */
  method Largest(cnt: array<nat>) returns (root: int, best: nat)
    ensures -1 <= root < cnt.Length
    ensures forall r :: 0 <= r < cnt.Length ==> cnt[r] <= best
    ensures if root == -1 then best == 0 else best == cnt[root] > 0 && forall r :: 0 <= r < root ==> cnt[r] < best
  {
    root, best := -1, 0;
    var i := 0;
    while i < cnt.Length
      invariant 0 <= i <= cnt.Length && -1 <= root < i
      invariant forall r :: 0 <= r < i ==> cnt[r] <= best
      invariant if root == -1 then best == 0 else best == cnt[root] > 0 && forall r :: 0 <= r < root ==> cnt[r] < best
    {
      if cnt[i] > best { best, root := cnt[i], i; }
      i := i + 1;
    }
  }
}
