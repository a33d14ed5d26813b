/** Chrome's bookmark tree: an ordered tree whose nodes are created, moved and removed at an index. */
module ChromeTree {
  import opened Common
  import opened Ancestry
  import opened ForestView

  // kids has an entry for every folder; parent maps the top folder to None.
  datatype Tree = Tree(parent: Parents, caption: map<Id, Label>, kids: map<Id, seq<Id>>)

  datatype Refusal = NoSuchNode | NoSuchParent | IndexOutOfRange | IntoItself

  // Every node with a parent stands in the parent's list.
  ghost predicate Owned(parent: Parents, kids: map<Id, seq<Id>>) {
    forall x {:trigger parent[x]} | x in parent && parent[x].Some? :: parent[x].value in kids && x in kids[parent[x].value]
  }

  // Every list holds the parent's own children, each once.
  ghost predicate Lists(parent: Parents, kids: map<Id, seq<Id>>) {
    && (forall p | p in kids :: Distinct(kids[p]))
    && (forall p, x {:trigger x in kids[p]} | p in kids && x in kids[p] :: x in parent && parent[x] == Some(p))
  }

  ghost predicate Consistent(t: Tree) {
    && t.caption.Keys == t.parent.Keys && t.kids.Keys <= t.parent.Keys
    && Acyclic(t.parent)
    && Owned(t.parent, t.kids)
    && Lists(t.parent, t.kids)
  }

  function IndexOf(s: seq<Id>, x: Id): (i: nat)
    requires x in s
    ensures i < |s| && s[i] == x && x !in s[..i]
  {
    if s[0] == x then 0
    else
      assert x in s[1..];
      var i := 1 + IndexOf(s[1..], x);
      assert s[..i] == [s[0]] + s[1..][..i - 1];
      i
  }

  function Create(t: Tree, parent: Id, caption: Label, index: int, newId: Id): Result<Tree, Refusal> {
    if parent !in t.kids then Err(NoSuchParent)
    else if index < 0 || index > |t.kids[parent]| then Err(IndexOutOfRange)
    else
      var kids := t.kids[parent := Inserted(t.kids[parent], newId, index)];
      Ok(Tree(t.parent[newId := Some(parent)], t.caption[newId := caption],
              if caption.FolderLabel? then kids[newId := []] else kids))
  }

  // The final index a destination index stands for. It is read before the node is taken out of its list.
  function LandingIndex(sameParent: bool, oldIndex: int, index: int): int {
    if sameParent && (index == oldIndex || index == oldIndex + 1) then oldIndex
    else if sameParent && index > oldIndex then index - 1
    else index
  }

  // BookmarkModel::Move.
  ghost function Move(t: Tree, id: Id, to: Id, index: int): Result<Tree, Refusal>
    requires Consistent(t)
  {
    if id !in t.parent || t.parent[id].None? then Err(NoSuchNode)
    else if to !in t.kids then Err(NoSuchParent)
    else if index < 0 || index > |t.kids[to]| then Err(IndexOutOfRange)
    else if to in Subtree(t.parent, id) then Err(IntoItself)
    else
      var from := t.parent[id].value;
      var at := LandingIndex(from == to, IndexOf(t.kids[from], id), index);
      WithoutDistinct(t.kids[from], id);
      Ok(PutAt(t, id, to, at))
  }

  // The node taken out of its list and put at a final index of another.
  ghost function PutAt(t: Tree, id: Id, to: Id, at: nat): Tree
    requires id in t.parent && t.parent[id].Some? && t.parent[id].value in t.kids && to in t.kids
    requires at <= |Without(t.kids[to], id)|
  {
    var rest := t.kids[t.parent[id].value := Without(t.kids[t.parent[id].value], id)];
    t.(parent := t.parent[id := Some(to)], kids := rest[to := Inserted(Without(t.kids[to], id), id, at)])
  }

  function Retitled(t: Tree, id: Id, caption: Label): Tree {
    t.(caption := t.caption[id := caption])
  }

  ghost function RemoveTree(t: Tree, id: Id): Result<Tree, Refusal> {
    if id !in t.parent || t.parent[id].None? || t.parent[id].value !in t.kids then Err(NoSuchNode)
    else
      var gone := Subtree(t.parent, id);
      var from := t.parent[id].value;
      Ok(Tree(t.parent - gone, t.caption - gone, t.kids[from := Without(t.kids[from], id)] - gone))
  }

  // The translation the extension applies before every move.
  function ChromeMoveIndex(oldParent: Id, oldIndex: int, parent: Id, index: int): int {
    if parent == oldParent && index > oldIndex then index + 1 else index
  }

  // A move asked for through the translation lands exactly where it was asked to, for every final index.
  lemma TranslatedMoveLands(t: Tree, id: Id, to: Id, at: nat)
    requires Consistent(t) && id in t.parent && t.parent[id].Some? && to in t.kids && to !in Subtree(t.parent, id)
    requires at <= |Without(t.kids[to], id)|
    ensures var from := t.parent[id].value;
            var r := Move(t, id, to, ChromeMoveIndex(from, IndexOf(t.kids[from], id), to, at));
            r == Ok(PutAt(t, id, to, at)) && r.value.kids[to][at] == id
  {
    var from := t.parent[id].value;
    WithoutDistinct(t.kids[from], id);
    if id in t.kids[to] {
      assert from == to;
    }
  }

  // Without the translation a move lands where it was asked to exactly when it does not go forward
  // inside its own list.
  lemma RawMoveLandsIff(t: Tree, id: Id, to: Id, at: nat)
    requires Consistent(t) && id in t.parent && t.parent[id].Some? && to in t.kids && to !in Subtree(t.parent, id)
    requires at <= |Without(t.kids[to], id)|
    ensures var from := t.parent[id].value;
            Move(t, id, to, at) == Ok(PutAt(t, id, to, at)) <==> !(from == to && at > IndexOf(t.kids[from], id))
  {
    var from := t.parent[id].value;
    WithoutDistinct(t.kids[from], id);
    if id in t.kids[to] {
      assert from == to;
    }
    if from == to && at > IndexOf(t.kids[from], id) {
      var rest := Without(t.kids[to], id);
      assert Inserted(rest, id, at)[at] == id;
      assert Inserted(rest, id, at - 1)[at] == rest[at - 1];
      assert PutAt(t, id, to, at).kids[to] != PutAt(t, id, to, at - 1).kids[to];
    }
  }

  lemma AddedChild(parent: Parents, kids: map<Id, seq<Id>>, p: Id, x: Id, at: nat)
    requires Owned(parent, kids) && Lists(parent, kids)
    requires x !in parent && p in kids && at <= |kids[p]|
    ensures var k := kids[p := Inserted(kids[p], x, at)];
            Owned(parent[x := Some(p)], k) && Lists(parent[x := Some(p)], k)
  {
    assert x !in kids[p];
    InsertedDistinct(kids[p], x, at);
  }

  lemma CreateKeepsConsistent(t: Tree, parent: Id, caption: Label, index: int, newId: Id)
    requires Consistent(t) && newId !in t.parent && Create(t, parent, caption, index, newId).Ok?
    ensures Consistent(Create(t, parent, caption, index, newId).value)
  {
    AddingLeafKeepsAcyclic(t.parent, newId, Some(parent));
    AddedChild(t.parent, t.kids, parent, newId, index);
  }

  // Out of its list a node is its parent's child no more.
  lemma TakenOut(parent: Parents, kids: map<Id, seq<Id>>, x: Id)
    requires Owned(parent, kids) && Lists(parent, kids)
    requires x in parent && parent[x].Some?
    ensures var from := parent[x].value;
            var rest := kids[from := Without(kids[from], x)];
            Owned(parent - {x}, rest) && Lists(parent - {x}, rest)
  {
    WithoutDistinct(kids[parent[x].value], x);
  }

  lemma MoveKeepsConsistent(t: Tree, id: Id, to: Id, at: nat)
    requires Consistent(t) && id in t.parent && t.parent[id].Some? && to in t.kids && to !in Subtree(t.parent, id)
    requires at <= |Without(t.kids[to], id)|
    ensures Consistent(PutAt(t, id, to, at))
  {
    MovingKeepsAcyclicIff(t.parent, id, Some(to));
    TakenOut(t.parent, t.kids, id);
    var from := t.parent[id].value;
    var rest := t.kids[from := Without(t.kids[from], id)];
    assert rest[to] == Without(t.kids[to], id);
    AddedChild(t.parent - {id}, rest, to, id, at);
    assert (t.parent - {id})[id := Some(to)] == t.parent[id := Some(to)];
  }

  lemma DroppingKeepsAcyclic(p: Parents, gone: set<Id>)
    requires Acyclic(p)
    ensures Acyclic(p - gone)
  {
    var r :| Ranked(p, r);
    assert Ranked(p - gone, r);
  }

  lemma RemoveKeepsConsistent(t: Tree, id: Id)
    requires Consistent(t) && RemoveTree(t, id).Ok?
    ensures Consistent(RemoveTree(t, id).value)
  {
    var gone := Subtree(t.parent, id);
    var rest := t.kids[t.parent[id].value := Without(t.kids[t.parent[id].value], id)];
    assert Up(t.parent, id, 0) == Some(id);
    DroppingKeepsAcyclic(t.parent, gone);
    TakenOut(t.parent, t.kids, id);
    forall x | x in t.parent - {id} && t.parent[x].Some? ensures t.parent[x].value in gone <==> x in gone {
      ReachesStep(t.parent, x, id);
    }
    assert t.parent - {id} - gone == t.parent - gone;
  }
}
