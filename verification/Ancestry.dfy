/** Parent pointers: climbing them, acyclicity, and the recursive subtree query built on them. */
module Ancestry {
  import opened Common

  // Parent of each node; a node whose parent is not a key is the top of what the map describes.
  type Parents = map<Id, Option<Id>>

  // The node reached from x by n parent steps.
  ghost function Up(p: Parents, x: Id, n: nat): Option<Id>
    decreases n
  {
    if n == 0 then Some(x)
    else if x in p && p[x].Some? then Up(p, p[x].value, n - 1)
    else None
  }

  ghost predicate Reaches(p: Parents, x: Id, y: Id) {
    exists n: nat :: Up(p, x, n) == Some(y)
  }

  // y and everything that climbs to y.
  ghost function Subtree(p: Parents, y: Id): set<Id> {
    set x | x in p.Keys + {y} && Reaches(p, x, y)
  }

  ghost predicate Ranked(p: Parents, r: map<Id, nat>) {
    && p.Keys <= r.Keys
    && (forall x {:trigger p[x]} | x in p && p[x].Some? && p[x].value in p :: r[p[x].value] < r[x])
  }

  ghost predicate Acyclic(p: Parents) {
    exists r :: Ranked(p, r)
  }

  lemma {:induction false} UpAdds(p: Parents, x: Id, m: nat, n: nat)
    ensures Up(p, x, m + n) == match Up(p, x, m) case None => None case Some(y) => Up(p, y, n)
    decreases m
  {
    if m > 0 && x in p && p[x].Some? {
      UpAdds(p, p[x].value, m - 1, n);
    }
  }

  lemma {:induction false} ClimbingLowersRank(p: Parents, r: map<Id, nat>, x: Id, n: nat)
    requires Ranked(p, r) && x in p && n > 0
    requires Up(p, x, n).Some? && Up(p, x, n).value in p
    ensures r[Up(p, x, n).value] < r[x]
    decreases n
  {
    var y := p[x].value;
    if n > 1 {
      ClimbingLowersRank(p, r, y, n - 1);
    }
  }

  // The ranking is a certificate: no node is its own proper ancestor.
  lemma AcyclicHasNoCycle(p: Parents, x: Id, n: nat)
    requires Acyclic(p) && n > 0
    ensures Up(p, x, n) != Some(x)
  {
    var r :| Ranked(p, r);
    if Up(p, x, n) == Some(x) {
      ClimbingLowersRank(p, r, x, n);
    }
  }

  // In an acyclic map a node stands at one distance only from each ancestor.
  lemma OneDistance(p: Parents, x: Id, y: Id, m: nat, n: nat)
    requires Acyclic(p)
    requires m <= n && Up(p, x, m) == Some(y) && Up(p, x, n) == Some(y)
    ensures m == n
  {
    if m < n {
      UpAdds(p, x, m, n - m);
      AcyclicHasNoCycle(p, y, n - m);
    }
  }

  lemma ReachesStep(p: Parents, x: Id, y: Id)
    ensures Reaches(p, x, y) <==> x == y || (x in p && p[x].Some? && Reaches(p, p[x].value, y))
  {
    assert Up(p, x, 0) == Some(x);
    if n: nat :| Up(p, x, n) == Some(y) {
      assert x != y ==> Up(p, p[x].value, n - 1) == Some(y);
    }
    if x in p && p[x].Some? {
      if n: nat :| Up(p, p[x].value, n) == Some(y) {
        assert Up(p, x, n + 1) == Some(y);
      }
    }
  }

  lemma ReachesTransitive(p: Parents, x: Id, y: Id, z: Id)
    requires Reaches(p, x, y) && Reaches(p, y, z)
    ensures Reaches(p, x, z)
  {
    var m: nat :| Up(p, x, m) == Some(y);
    var n: nat :| Up(p, y, n) == Some(z);
    UpAdds(p, x, m, n);
  }

  // Ancestors of one node lie on one path.
  lemma AncestorsAreComparable(p: Parents, x: Id, y: Id, z: Id)
    requires Reaches(p, x, y) && Reaches(p, x, z)
    ensures Reaches(p, y, z) || Reaches(p, z, y)
  {
    var m: nat :| Up(p, x, m) == Some(y);
    var n: nat :| Up(p, x, n) == Some(z);
    if m <= n {
      UpAdds(p, x, m, n - m);
      assert Up(p, y, n - m) == Some(z);
    } else {
      UpAdds(p, x, n, m - n);
      assert Up(p, z, m - n) == Some(y);
    }
  }

  // A new node that nobody points to closes no cycle.
  lemma AddingLeafKeepsAcyclic(p: Parents, x: Id, parent: Option<Id>)
    requires Acyclic(p) && x !in p
    requires forall y | y in p :: p[y] != Some(x)
    requires parent != Some(x)
    ensures Acyclic(p[x := parent])
  {
    var r :| Ranked(p, r);
    var q := p[x := parent];
    var above := if parent.Some? && parent.value in p then r[parent.value] else 0;
    assert Ranked(q, r[x := above + 1]);
  }

  // Re-parenting is safe exactly when the new parent is not below the moved node.
  lemma MovingKeepsAcyclicIff(p: Parents, f: Id, target: Option<Id>)
    requires Acyclic(p) && f in p
    ensures Acyclic(p[f := target]) <==> (target.Some? ==> !Reaches(p, target.value, f))
  {
    if target.Some? && Reaches(p, target.value, f) {
      MovingBelowItselfCloses(p, f, target.value);
    } else {
      MovingElsewhereKeepsAcyclic(p, f, target);
    }
  }

  lemma MovingBelowItselfCloses(p: Parents, f: Id, target: Id)
    requires f in p && Reaches(p, target, f)
    ensures !Acyclic(p[f := Some(target)])
  {
    var q := p[f := Some(target)];
    var far: nat :| Up(p, target, far) == Some(f);
    var n := FirstVisit(p, target, f, far);
    SamePathUntilMoved(p, f, Some(target), target, n);
    assert Up(q, f, n + 1) == Up(q, target, n);
    if Acyclic(q) {
      AcyclicHasNoCycle(q, f, n + 1);
    }
  }

  // The moved subtree is lifted as a whole above the new parent's rank.
  lemma MovingElsewhereKeepsAcyclic(p: Parents, f: Id, target: Option<Id>)
    requires Acyclic(p) && f in p
    requires target.Some? ==> !Reaches(p, target.value, f)
    ensures Acyclic(p[f := target])
  {
    var q := p[f := target];
    var r :| Ranked(p, r);
    var lift := 1 + if target.Some? && target.value in p then r[target.value] else 0;
    var r': map<Id, nat> := map x | x in p :: if Reaches(p, x, f) then r[x] + lift else r[x];
    forall x | x in q && q[x].Some? && q[x].value in q ensures r'[q[x].value] < r'[x] {
      ReachesStep(p, x, f);
    }
    assert Ranked(q, r');
  }

  lemma FirstVisit(p: Parents, x: Id, y: Id, n: nat) returns (first: nat)
    requires Up(p, x, n) == Some(y)
    ensures Up(p, x, first) == Some(y) && forall k: nat | k < first :: Up(p, x, k) != Some(y)
    decreases n
  {
    if k: nat :| k < n && Up(p, x, k) == Some(y) {
      first := FirstVisit(p, x, y, k);
    } else {
      first := n;
    }
  }

  lemma {:induction false} SamePathUntilMoved(p: Parents, f: Id, target: Option<Id>, x: Id, n: nat)
    requires forall k: nat | k < n :: Up(p, x, k) != Some(f)
    ensures Up(p[f := target], x, n) == Up(p, x, n)
    decreases n
  {
    if n > 0 {
      assert Up(p, x, 0) != Some(f);
      if x in p && p[x].Some? {
        forall k: nat | k < n - 1 ensures Up(p, p[x].value, k) != Some(f) {
          assert Up(p, x, k + 1) == Up(p, p[x].value, k);
        }
        SamePathUntilMoved(p, f, target, p[x].value, n - 1);
      }
    }
  }

  ghost function Level(p: Parents, root: Id, n: nat): set<Id> {
    set x | x in p.Keys + {root} && Up(p, x, n) == Some(root)
  }

  ghost function Levels(p: Parents, root: Id, n: nat): set<Id> {
    set x | x in p.Keys + {root} && exists k: nat :: k <= n && Up(p, x, k) == Some(root)
  }

  function ChildrenOf(p: Parents, s: set<Id>): set<Id> {
    set x | x in p && p[x].Some? && p[x].value in s
  }

  lemma NextLevel(p: Parents, root: Id, n: nat)
    requires Acyclic(p)
    ensures Level(p, root, n + 1) == ChildrenOf(p, Level(p, root, n))
    ensures Levels(p, root, n + 1) == Levels(p, root, n) + Level(p, root, n + 1)
    ensures Level(p, root, n + 1) !! Levels(p, root, n)
  {
    forall x ensures x in Level(p, root, n + 1) <==> x in ChildrenOf(p, Level(p, root, n)) {
      if x in p && p[x].Some? && Up(p, x, n + 1) == Some(root) {
        assert Up(p, p[x].value, n) == Some(root);
      }
    }
    forall x | x in Level(p, root, n + 1) ensures x !in Levels(p, root, n) {
      if k: nat :| k <= n && Up(p, x, k) == Some(root) {
        OneDistance(p, x, root, k, n + 1);
      }
    }
  }

  // Once a level is empty the walk has met the whole subtree.
  lemma LevelsComplete(p: Parents, root: Id, n: nat)
    requires Level(p, root, n) == {}
    ensures Levels(p, root, n) == Subtree(p, root)
  {
    forall x | x in Subtree(p, root) ensures x in Levels(p, root, n) {
      var m: nat :| Up(p, x, m) == Some(root);
      if m > n {
        EveryLevelInhabited(p, x, root, m, n);
      }
    }
  }

  // WITH RECURSIVE subtree AS (root UNION ALL children of subtree): level by level until a level is empty.
  method SubtreeQuery(p: Parents, root: Id) returns (all: set<Id>)
    requires Acyclic(p)
    ensures all == Subtree(p, root)
  {
    var frontier := {root};
    all := {root};
    ghost var n: nat := 0;
    while frontier != {}
      invariant frontier == Level(p, root, n)
      invariant all == Levels(p, root, n)
      decreases |p.Keys + {root} - all|, |frontier|
    {
      NextLevel(p, root, n);
      var next := ChildrenOf(p, frontier);
      WalkProgress(p.Keys + {root}, all, next);
      all := all + next;
      frontier := next;
      n := n + 1;
    }
    LevelsComplete(p, root, n);
  }

  // A path of length m passes through every shorter distance.
  lemma {:induction false} EveryLevelInhabited(p: Parents, x: Id, root: Id, m: nat, n: nat)
    requires Up(p, x, m) == Some(root) && n <= m && x in p.Keys + {root}
    ensures Level(p, root, n) != {}
    decreases m
  {
    if n < m {
      EveryLevelInhabited(p, p[x].value, root, m - 1, n);
    } else {
      assert x in Level(p, root, n);
    }
  }

  // A level that is not empty brings new nodes.
  lemma WalkProgress(universe: set<Id>, all: set<Id>, next: set<Id>)
    requires next !! all && next <= universe
    ensures next != {} ==> |universe - (all + next)| < |universe - all|
    ensures next == {} ==> all + next == all
  {
    if next != {} {
      SmallerSet(universe - (all + next), universe - all);
    }
  }

  lemma SmallerSet(a: set<Id>, b: set<Id>)
    requires a <= b
    ensures |a| <= |b| && (a != b ==> |a| < |b|)
  {
    assert b == a + (b - a);
    assert |b| == |a| + |b - a|;
  }
}
