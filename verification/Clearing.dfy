/** Emptying a Chrome folder before a rebuild, apart from the children to be left alone. */
module Clearing {
  import opened Common
  import opened Ancestry
  import opened ChromeTree

  // The children to be left, in their order.
  function Spared(children: seq<Id>, exclude: set<Id>): seq<Id> {
    if children == [] then []
    else
      var n := |children| - 1;
      Spared(children[..n], exclude) + (if children[n] in exclude then [children[n]] else [])
  }

  // Everything below a child that is not to be left.
  ghost function Doomed(p: Parents, children: seq<Id>, exclude: set<Id>): set<Id> {
    set x | x in p.Keys && exists i :: 0 <= i < |children| && children[i] !in exclude && Reaches(p, x, children[i])
  }

  ghost predicate ClosedBelow(p: Parents, gone: set<Id>) {
    forall z {:trigger p[z]} | z in p && p[z].Some? && p[z].value in gone :: z in gone
  }

  lemma {:induction false} ClimbOutside(p: Parents, gone: set<Id>, x: Id, n: nat)
    requires ClosedBelow(p, gone) && x !in gone
    ensures Up(p - gone, x, n) == Up(p, x, n)
    decreases n
  {
    if n > 0 && x in p && p[x].Some? {
      ClimbOutside(p, gone, p[x].value, n - 1);
    }
  }

  // Outside a removed set ancestry is as before.
  lemma ReachesOutside(p: Parents, gone: set<Id>, x: Id, y: Id)
    requires ClosedBelow(p, gone) && x !in gone
    ensures Reaches(p - gone, x, y) <==> Reaches(p, x, y)
  {
    if n: nat :| Up(p, x, n) == Some(y) {
      ClimbOutside(p, gone, x, n);
    }
    if n: nat :| Up(p - gone, x, n) == Some(y) {
      ClimbOutside(p, gone, x, n);
    }
  }

  lemma DoomedIsClosed(p: Parents, children: seq<Id>, exclude: set<Id>)
    ensures ClosedBelow(p, Doomed(p, children, exclude))
  {
    var gone := Doomed(p, children, exclude);
    forall z | z in p && p[z].Some? && p[z].value in gone ensures z in gone {
      var i :| 0 <= i < |children| && children[i] !in exclude && Reaches(p, p[z].value, children[i]);
      ReachesStep(p, z, children[i]);
    }
  }

  lemma DoomedNext(p: Parents, children: seq<Id>, exclude: set<Id>, i: nat)
    requires i < |children| && children[i] in p
    ensures var gone, next := Doomed(p, children[..i], exclude), Doomed(p, children[..i + 1], exclude);
            next == if children[i] in exclude then gone else gone + Subtree(p, children[i])
  {
    var gone, next := Doomed(p, children[..i], exclude), Doomed(p, children[..i + 1], exclude);
    forall x | x in next ensures x in gone || (children[i] !in exclude && x in Subtree(p, children[i])) {
      var k :| 0 <= k < i + 1 && children[..i + 1][k] !in exclude && Reaches(p, x, children[..i + 1][k]);
      if k < i {
        assert children[..i][k] == children[..i + 1][k];
      }
    }
    forall x | x in gone ensures x in next {
      var k :| 0 <= k < i && children[..i][k] !in exclude && Reaches(p, x, children[..i][k]);
      assert children[..i + 1][k] == children[..i][k];
    }
    if children[i] !in exclude {
      assert Up(p, children[i], 0) == Some(children[i]);
      forall x | x in Subtree(p, children[i]) ensures x in next {
        assert children[..i + 1][i] == children[i];
        SubtreeNode(p, children[i], x);
      }
    }
  }

  lemma SubtreeNode(p: Parents, y: Id, x: Id)
    requires x in Subtree(p, y) && y in p
    ensures x in p
  {
  }

  // Siblings do not lie below one another, and their parent lies below none of them.
  lemma SiblingNotBelow(t: Tree, folder: Id, a: Id, b: Id)
    requires Consistent(t) && folder in t.kids && a in t.kids[folder] && b in t.kids[folder] && a != b
    ensures !Reaches(t.parent, a, b)
  {
    ReachesStep(t.parent, a, b);
    ParentNotBelow(t, folder, b);
  }

  lemma ParentNotBelow(t: Tree, folder: Id, b: Id)
    requires Consistent(t) && folder in t.kids && b in t.kids[folder]
    ensures !Reaches(t.parent, folder, b)
  {
    if n: nat :| Up(t.parent, folder, n) == Some(b) {
      assert Up(t.parent, b, n + 1) == Some(b);
      AcyclicHasNoCycle(t.parent, b, n + 1);
    }
  }

  // The tree after the first i children have been dealt with.
  ghost predicate ClearedUpTo(was: Tree, t: Tree, folder: Id, exclude: set<Id>, i: nat)
    requires folder in was.kids && i <= |was.kids[folder]|
  {
    var children := was.kids[folder];
    && Consistent(t) && folder in t.kids
    && t.parent == was.parent - Doomed(was.parent, children[..i], exclude)
    && t.kids[folder] == Spared(children[..i], exclude) + children[i..]
    && (forall p | p in t.kids && p != folder :: p in was.kids && t.kids[p] == was.kids[p])
    && (forall x | x in t.caption :: x in was.caption && t.caption[x] == was.caption[x])
  }

  lemma NothingClearedYet(t: Tree, folder: Id, exclude: set<Id>)
    requires Consistent(t) && folder in t.kids
    ensures ClearedUpTo(t, t, folder, exclude, 0)
  {
    assert t.kids[folder][..0] == [] && t.kids[folder][0..] == t.kids[folder];
    assert Doomed(t.parent, [], exclude) == {};
    assert t.parent - {} == t.parent;
  }

  lemma SparedNext(children: seq<Id>, exclude: set<Id>, i: nat)
    requires i < |children|
    ensures Spared(children[..i + 1], exclude) == Spared(children[..i], exclude) + (if children[i] in exclude then [children[i]] else [])
  {
    assert children[..i + 1][..i] == children[..i];
  }

  lemma {:induction false} SparedAreChildren(children: seq<Id>, exclude: set<Id>)
    ensures forall x | x in Spared(children, exclude) :: x in children && x in exclude
  {
    if children != [] {
      SparedAreChildren(children[..|children| - 1], exclude);
    }
  }

  lemma NextChildLeft(was: Tree, folder: Id, exclude: set<Id>, i: nat)
    requires Consistent(was) && folder in was.kids && i < |was.kids[folder]|
    ensures was.kids[folder][i] in was.parent && was.parent[was.kids[folder][i]] == Some(folder)
    ensures was.kids[folder][i] !in Doomed(was.parent, was.kids[folder][..i], exclude)
  {
    var children := was.kids[folder];
    var x := children[i];
    var gone := Doomed(was.parent, children[..i], exclude);
    assert x in children;
    if x in gone {
      var k :| 0 <= k < i && children[..i][k] !in exclude && Reaches(was.parent, x, children[..i][k]);
      assert children[..i][k] == children[k] && children[k] in children;
      SiblingNotBelow(was, folder, x, children[k]);
    }
  }

  lemma SubtreeIntact(was: Tree, p: Parents, folder: Id, exclude: set<Id>, i: nat)
    requires Consistent(was) && folder in was.kids && i < |was.kids[folder]|
    requires p == was.parent - Doomed(was.parent, was.kids[folder][..i], exclude) && was.kids[folder][i] in p
    ensures Subtree(p, was.kids[folder][i]) == Subtree(was.parent, was.kids[folder][i])
  {
    var x := was.kids[folder][i];
    var gone := Doomed(was.parent, was.kids[folder][..i], exclude);
    DoomedIsClosed(was.parent, was.kids[folder][..i], exclude);
    forall y | y in was.parent ensures y in Subtree(p, x) <==> y in Subtree(was.parent, x) {
      if y !in gone {
        ReachesOutside(was.parent, gone, y, x);
      } else {
        GoneNotBelow(was, folder, exclude, i, y);
      }
    }
  }

  // The child is still there when its turn comes, with the subtree it had.
  lemma NextChildIntact(was: Tree, t: Tree, folder: Id, exclude: set<Id>, i: nat)
    requires Consistent(was) && folder in was.kids && i < |was.kids[folder]| && ClearedUpTo(was, t, folder, exclude, i)
    ensures var x := was.kids[folder][i];
            && x in t.parent && t.parent[x] == Some(folder)
            && Subtree(t.parent, x) == Subtree(was.parent, x)
            && folder !in Subtree(was.parent, x)
  {
    var x := was.kids[folder][i];
    assert x in was.kids[folder];
    NextChildLeft(was, folder, exclude, i);
    ParentNotBelow(was, folder, x);
    SubtreeIntact(was, t.parent, folder, exclude, i);
  }

  lemma GoneNotBelow(was: Tree, folder: Id, exclude: set<Id>, i: nat, y: Id)
    requires Consistent(was) && folder in was.kids && i < |was.kids[folder]| && y in Doomed(was.parent, was.kids[folder][..i], exclude)
    ensures !Reaches(was.parent, y, was.kids[folder][i])
  {
    var children := was.kids[folder];
    var k :| 0 <= k < i && children[..i][k] !in exclude && Reaches(was.parent, y, children[..i][k]);
    assert children[..i][k] == children[k] && children[k] in children && children[i] in children && children[k] != children[i];
    if Reaches(was.parent, y, children[i]) {
      AncestorsAreComparable(was.parent, y, children[k], children[i]);
      SiblingNotBelow(was, folder, children[k], children[i]);
      SiblingNotBelow(was, folder, children[i], children[k]);
    }
  }

  lemma DroppedFromList(children: seq<Id>, exclude: set<Id>, i: nat)
    requires i < |children| && Distinct(children) && children[i] !in exclude
    ensures Without(Spared(children[..i], exclude) + children[i..], children[i]) == Spared(children[..i + 1], exclude) + children[i + 1..]
  {
    var x := children[i];
    SparedNext(children, exclude, i);
    SparedAreChildren(children[..i], exclude);
    WithoutConcat(Spared(children[..i], exclude), children[i..], x);
    assert children[i..] == [x] + children[i + 1..];
    assert x !in children[i + 1..];
  }

  lemma KeptInList(children: seq<Id>, exclude: set<Id>, i: nat)
    requires i < |children| && children[i] in exclude
    ensures Spared(children[..i], exclude) + children[i..] == Spared(children[..i + 1], exclude) + children[i + 1..]
  {
    SparedNext(children, exclude, i);
    assert children[i..] == [children[i]] + children[i + 1..];
  }

  lemma ExcludedStep(was: Tree, t: Tree, folder: Id, exclude: set<Id>, i: nat)
    requires Consistent(was) && folder in was.kids && i < |was.kids[folder]| && ClearedUpTo(was, t, folder, exclude, i)
    requires was.kids[folder][i] in exclude
    ensures ClearedUpTo(was, t, folder, exclude, i + 1)
  {
    var children := was.kids[folder];
    assert children[i] in children;
    DoomedNext(was.parent, children, exclude, i);
    KeptInList(children, exclude, i);
  }

  // The lists and titles after one child and all below it have gone.
  lemma RemovedParts(was: Tree, t: Tree, folder: Id, exclude: set<Id>, i: nat, x: Id, gone: set<Id>)
    requires folder in was.kids && i < |was.kids[folder]| && Distinct(was.kids[folder]) && was.kids[folder][i] == x && x !in exclude
    requires folder in t.kids && folder !in gone
    requires t.kids[folder] == Spared(was.kids[folder][..i], exclude) + was.kids[folder][i..]
    requires forall p | p in t.kids && p != folder :: p in was.kids && t.kids[p] == was.kids[p]
    ensures var kids := t.kids[folder := Without(t.kids[folder], x)] - gone;
            && folder in kids && kids[folder] == Spared(was.kids[folder][..i + 1], exclude) + was.kids[folder][i + 1..]
            && forall p | p in kids && p != folder :: p in was.kids && kids[p] == was.kids[p]
  {
    DroppedFromList(was.kids[folder], exclude, i);
  }

  lemma DropTwice(p: Parents, a: set<Id>, b: set<Id>)
    ensures p - a - b == p - (a + b)
  {
  }

  lemma RemovedConsistent(t: Tree, x: Id, folder: Id)
    requires Consistent(t) && x in t.parent && t.parent[x] == Some(folder) && folder in t.kids
    ensures var gone := Subtree(t.parent, x);
            && RemoveTree(t, x) == Ok(Tree(t.parent - gone, t.caption - gone, t.kids[folder := Without(t.kids[folder], x)] - gone))
            && Consistent(RemoveTree(t, x).value)
  {
    RemoveKeepsConsistent(t, x);
  }

  lemma RemovedStep(was: Tree, t: Tree, folder: Id, exclude: set<Id>, i: nat)
    requires Consistent(was) && folder in was.kids && i < |was.kids[folder]| && ClearedUpTo(was, t, folder, exclude, i)
    requires was.kids[folder][i] !in exclude
    ensures var r := RemoveTree(t, was.kids[folder][i]); r.Ok? && ClearedUpTo(was, r.value, folder, exclude, i + 1)
  {
    var children := was.kids[folder];
    var x := children[i];
    NextChildIntact(was, t, folder, exclude, i);
    RemovedConsistent(t, x, folder);
    NextChildLeft(was, folder, exclude, i);
    DoomedNext(was.parent, children, exclude, i);
    DropTwice(was.parent, Doomed(was.parent, children[..i], exclude), Subtree(was.parent, x));
    RemovedParts(was, t, folder, exclude, i, x, Subtree(t.parent, x));
  }
}
