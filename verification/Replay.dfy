/** The extension's side of replay: the mapping between backend and Chrome ids, the application of one
    event to the Chrome tree, and the proof that it keeps the tree a picture of the server's forest. */
module Replay {
  import opened Common
  import opened Ancestry
  import opened ForestView
  import opened ChromeTree

  // root: the workspace folder, the top of the tree modelled.
  datatype Client = Client(tree: Tree, root: Id, chromeOf: map<Id, Id>, backendOf: map<Id, Id>)

  datatype Failure = NeedsRecovery | Refused(why: Refusal) | LandedElsewhere | TooManyMapped

  const MAX_MAPPED := 500
  const LOCAL_ONLY_FOLDER_TITLE := "Personal (not synced)"

  function PlaceOf(c: Client, k: Option<Id>): Option<Id> {
    if k.None? then Some(c.root)
    else if k.value in c.chromeOf then Some(c.chromeOf[k.value])
    else None
  }

  function SetMapping(c: Client, id: Id, chrome: Id): Client {
    c.(chromeOf := c.chromeOf[id := chrome], backendOf := c.backendOf[chrome := id])
  }

  // The children that carry the wanted title (and url), in order.
  function Matches(t: Tree, children: seq<Id>, caption: Label): seq<Id> {
    if children == [] then []
    else
      var rest := Matches(t, children[1..], caption);
      if children[0] in t.caption && t.caption[children[0]] == caption then [children[0]] + rest else rest
  }

  // findReusableFolderNode and findReusableBookmarkNode.
  function Reusable(t: Tree, children: seq<Id>, caption: Label): Option<Id> {
    var m := Matches(t, children, caption);
    if |m| == 1 then Some(m[0]) else None
  }

  // The Chrome children of the node a backend parent stands for.
  function Siblings(c: Client, parent: Option<Id>): seq<Id> {
    var p := PlaceOf(c, parent);
    if p.Some? && p.value in c.tree.kids then c.tree.kids[p.value] else []
  }

  // A mapped node is retitled and, unless it already stands there, moved.
  ghost function Settle(c: Client, x: Id, to: Id, caption: Label, position: int): Result<Client, Failure>
    requires Consistent(c.tree) && to in c.tree.kids
  {
    var t := c.tree;
    if x !in t.parent then Err(NeedsRecovery)
    else if t.parent[x].None? then Err(Refused(NoSuchNode))
    else
      var from := t.parent[x].value;
      var was := IndexOf(t.kids[from], x);
      if from == to && was == position then Ok(c.(tree := Retitled(t, x, caption)))
      else
        match Move(t, x, to, ChromeMoveIndex(from, was, to, position))
        case Err(e) => Err(Refused(e))
        case Ok(u) =>
          if 0 <= position < |u.kids[to]| && u.kids[to][position] == x then Ok(c.(tree := Retitled(u, x, caption)))
          else Err(LandedElsewhere)
  }

  // validateRecoveryScope: the parent is not mapped, its node is gone, or the node's own is.
  predicate IsLost(c: Client, id: Id, parent: Option<Id>) {
    var place := PlaceOf(c, parent);
    place.None? || place.value !in c.tree.parent || (id in c.chromeOf && c.chromeOf[id] !in c.tree.parent)
  }

  ghost function ApplyUpsert(c: Client, id: Id, parent: Option<Id>, position: int, caption: Label, newId: Id): Result<Client, Failure>
    requires Consistent(c.tree)
  {
    var place := PlaceOf(c, parent);
    if IsLost(c, id, parent) then Err(NeedsRecovery)
    else if place.value !in c.tree.kids then Err(Refused(NoSuchParent))
    else if id in c.chromeOf then Settle(c, c.chromeOf[id], place.value, caption, position)
    else
      var reuse := Reusable(c.tree, c.tree.kids[place.value], caption);
      if reuse.Some? then Settle(SetMapping(c, id, reuse.value), reuse.value, place.value, caption, position)
      else
        match Create(c.tree, place.value, caption, position, newId)
        case Err(e) => Err(Refused(e))
        case Ok(u) => Ok(SetMapping(c.(tree := u), id, newId))
  }

  // The subtree leaves the tree and its mapped nodes leave the mapping. A node that is not mapped is passed over.
  ghost function ApplyRemoval(c: Client, id: Id): Result<Client, Failure> {
    if id !in c.chromeOf then Ok(c)
    else
      var x := c.chromeOf[id];
      var gone := Subtree(c.tree.parent, x);
      if |gone * c.backendOf.Keys| > MAX_MAPPED then Err(TooManyMapped)
      else
        match RemoveTree(c.tree, x)
        case Err(e) => Err(Refused(e))
        case Ok(u) => Ok(c.(tree := u, chromeOf := Forget(c, gone) - {id}, backendOf := c.backendOf - gone))
  }

  // chromeIdByBackendId without the backend ids the given Chrome nodes were mapped to.
  ghost function Forget(c: Client, gone: set<Id>): map<Id, Id> {
    map b | b in c.chromeOf && !(exists x :: x in gone && x in c.backendOf && c.backendOf[x] == b) :: c.chromeOf[b]
  }

  ghost function ApplyToClient(c: Client, e: Event, newId: Id): Result<Client, Failure>
    requires Consistent(c.tree)
  {
    match e
    case Upsert(id, parent, position, caption) => ApplyUpsert(c, id, parent, position, caption, newId)
    case Removal(id, parent) =>
      var place := PlaceOf(c, parent);
      if place.None? || place.value !in c.tree.parent then Ok(Invalidated(c, id, parent)) else ApplyRemoval(c, id)
  }

  // A removal whose parent is not there only takes the node's subtree, and the parent, out of the mapping.
  ghost function Invalidated(c: Client, id: Id, parent: Option<Id>): Client {
    var ids := if parent.Some? then {id, parent.value} else {id};
    var gone := if id in c.chromeOf then Subtree(c.tree.parent, c.chromeOf[id]) + {c.chromeOf[id]} else {};
    c.(chromeOf := Forget(c, gone) - ids, backendOf := c.backendOf - gone - (set b | b in ids && b in c.chromeOf :: c.chromeOf[b]))
  }

  // ---------- the picture ----------

  function Lookup(m: map<Id, Id>, x: Id): Id {
    if x in m then m[x] else 0
  }

  function Image(m: map<Id, Id>, s: seq<Id>): (r: seq<Id>)
    ensures |r| == |s| && forall i :: 0 <= i < |s| ==> r[i] == Lookup(m, s[i])
  {
    seq(|s|, i requires 0 <= i < |s| => Lookup(m, s[i]))
  }

  function At(m: map<Id, Id>, root: Id, k: Option<Id>): Id {
    if k.None? then root else Lookup(m, k.value)
  }

  // The two directions of the mapping are inverse, onto the nodes of the view, and avoid root and tail.
  ghost predicate Paired(nodes: set<Id>, m: map<Id, Id>, inv: map<Id, Id>, root: Id, tail: seq<Id>) {
    && m.Keys == nodes
    && (forall b | b in m :: m[b] in inv && inv[m[b]] == b)
    && (forall x | x in inv :: inv[x] in m && m[inv[x]] == x)
    && root !in inv
    && (forall x | x in tail :: x !in inv)
  }

  // Mapped nodes hang under the picture of their parent.
  ghost predicate Hung(parent: Parents, m: map<Id, Id>, root: Id, chrome: Parents) {
    forall b {:trigger parent[b]} | b in parent :: Lookup(m, b) in chrome && chrome[Lookup(m, b)] == Some(At(m, root, parent[b]))
  }

  ghost predicate Titled(caption: map<Id, Label>, m: map<Id, Id>, chrome: map<Id, Label>) {
    forall b | b in caption :: Lookup(m, b) in chrome && chrome[Lookup(m, b)] == caption[b]
  }

  // Every list is the picture of the view's list; tail are nodes of the user's own, last under the root.
  ghost predicate Pictured(kids: imap<Option<Id>, seq<Id>>, m: map<Id, Id>, root: Id, chrome: map<Id, seq<Id>>, tail: seq<Id>) {
    forall k | k in kids :: At(m, root, k) in chrome && chrome[At(m, root, k)] == Image(m, kids[k]) + TailAt(k, tail)
  }

  function TailAt(k: Option<Id>, tail: seq<Id>): seq<Id> {
    if k.None? then tail else []
  }

  ghost predicate Sim(v: View, c: Client, tail: seq<Id>) {
    && Consistent(c.tree) && c.root in c.tree.parent && c.tree.parent[c.root] == None
    && Paired(v.parent.Keys, c.chromeOf, c.backendOf, c.root, tail)
    && Hung(v.parent, c.chromeOf, c.root, c.tree.parent)
    && Titled(v.caption, c.chromeOf, c.tree.caption)
    && Pictured(v.kids, c.chromeOf, c.root, c.tree.kids, tail)
  }

  ghost predicate NodesListed(parent: Parents, kids: imap<Option<Id>, seq<Id>>) {
    forall b {:trigger parent[b]} | b in parent :: parent[b] in kids && b in kids[parent[b]]
  }

  ghost predicate ListsOwn(parent: Parents, kids: imap<Option<Id>, seq<Id>>) {
    && (forall k, b {:trigger b in kids[k]} | k in kids && b in kids[k] :: b in parent && parent[b] == k)
    && (forall k | k in kids :: Distinct(kids[k]))
  }

  // What the view of a forest looks like.
  ghost predicate GoodView(v: View) {
    && None in v.kids && v.caption.Keys == v.parent.Keys
    && (forall k | k in v.kids && k.Some? :: k.value in v.parent)
    && NodesListed(v.parent, v.kids)
    && ListsOwn(v.parent, v.kids)
    && Acyclic(v.parent)
  }

  // ---------- lists and their pictures ----------

  lemma ImageCons(m: map<Id, Id>, h: Id, t: seq<Id>)
    ensures Image(m, [h] + t) == [Lookup(m, h)] + Image(m, t)
  {
  }

  lemma {:induction false} ImageWithout(m: map<Id, Id>, s: seq<Id>, x: Id)
    requires forall y | y in s && y != x :: Lookup(m, y) != Lookup(m, x)
    ensures Image(m, Without(s, x)) == Without(Image(m, s), Lookup(m, x))
  {
    if s == [] {
    } else {
      var h, t := s[0], s[1..];
      assert s == [h] + t;
      ImageWithout(m, t, x);
      ImageCons(m, h, t);
      ImageCons(m, h, Without(t, x));
    }
  }

  // ---------- an upsert of a new node ----------

  lemma MappedIsInTree(v: View, c: Client, tail: seq<Id>, x: Id)
    requires Sim(v, c, tail) && None in v.kids
    requires x in c.backendOf || x == c.root || x in tail
    ensures x in c.tree.parent
  {
    if x in tail {
      assert At(c.chromeOf, c.root, None) == c.root;
      assert x in c.tree.kids[c.root];
    } else if x in c.backendOf {
      assert x == Lookup(c.chromeOf, c.backendOf[x]);
    }
  }

  lemma PairedWithNew(nodes: set<Id>, m: map<Id, Id>, inv: map<Id, Id>, root: Id, tail: seq<Id>, id: Id, x: Id)
    requires Paired(nodes, m, inv, root, tail) && id !in nodes
    requires x !in inv && x != root && x !in tail
    ensures Paired(nodes + {id}, m[id := x], inv[x := id], root, tail)
  {
  }

  lemma HungWithNew(parent: Parents, m: map<Id, Id>, root: Id, chrome: Parents, id: Id, p: Option<Id>, newId: Id)
    requires Hung(parent, m, root, chrome) && id !in parent && newId !in chrome
    requires p.Some? ==> p.value != id
    requires forall b | b in parent :: parent[b] != Some(id)
    ensures Hung(parent[id := p], m[id := newId], root, chrome[newId := Some(At(m, root, p))])
  {
  }

  lemma TitledWithNew(caption: map<Id, Label>, m: map<Id, Id>, chrome: map<Id, Label>, id: Id, title: Label, newId: Id)
    requires Titled(caption, m, chrome) && id !in caption && newId !in chrome
    ensures Titled(caption[id := title], m[id := newId], chrome[newId := title])
  {
  }

  // A node put into one list, with its picture put into the picture of that list.
  lemma PicturedInsert(kids: imap<Option<Id>, seq<Id>>, m: map<Id, Id>, root: Id, chrome: map<Id, seq<Id>>, tail: seq<Id>, p: Option<Id>, id: Id, at: nat)
    requires Pictured(kids, m, root, chrome, tail) && p in kids && at <= |kids[p]|
    requires forall k | k in kids && k != p :: At(m, root, k) != At(m, root, p)
    ensures At(m, root, p) in chrome && at <= |chrome[At(m, root, p)]|
    ensures Pictured(kids[p := Inserted(kids[p], id, at)], m, root,
                     chrome[At(m, root, p) := Inserted(chrome[At(m, root, p)], Lookup(m, id), at)], tail)
  {
  }

  lemma PicturedWithoutNode(kids: imap<Option<Id>, seq<Id>>, m: map<Id, Id>, root: Id, chrome: map<Id, seq<Id>>, tail: seq<Id>, id: Id, x: Id)
    requires Pictured(kids, m, root, chrome, tail) && Some(id) !in kids
    requires forall k | k in kids :: id !in kids[k]
    ensures Pictured(kids, m[id := x], root, chrome, tail)
  {
    forall k | k in kids ensures At(m[id := x], root, k) == At(m, root, k) && Image(m[id := x], kids[k]) == Image(m, kids[k]) {
    }
  }

  lemma CreatedPictured(nodes: set<Id>, kids: imap<Option<Id>, seq<Id>>, m: map<Id, Id>, inv: map<Id, Id>, root: Id, chrome: map<Id, seq<Id>>,
                        tail: seq<Id>, id: Id, p: Option<Id>, at: nat, newId: Id, isFolder: bool)
    requires Paired(nodes, m, inv, root, tail) && Pictured(kids, m, root, chrome, tail)
    requires id !in nodes && newId !in chrome && p in kids && at <= |kids[p]|
    requires forall k | k in kids && k.Some? :: k.value in nodes
    requires forall k | k in kids :: id !in kids[k]
    ensures var x := At(m, root, p);
            && x in chrome && at <= |chrome[x]|
            && var after := kids[p := Inserted(kids[p], id, at)];
               var chromeAfter := chrome[x := Inserted(chrome[x], newId, at)];
               Pictured(if isFolder then after[Some(id) := []] else after, m[id := newId], root,
                        if isFolder then chromeAfter[newId := []] else chromeAfter, tail)
  {
    var m2 := m[id := newId];
    assert Some(id) !in kids;
    PicturedWithoutNode(kids, m, root, chrome, tail, id, newId);
    forall k | k in kids && k != p ensures At(m2, root, k) != At(m2, root, p) {
    }
    PicturedInsert(kids, m2, root, chrome, tail, p, id, at);
  }

  lemma KeysAfterPut(p: Parents, id: Id, parent: Option<Id>)
    ensures p[id := parent].Keys == p.Keys + {id}
  {
  }

  lemma CreatedLists(v: View, c: Client, tail: seq<Id>, id: Id, parent: Option<Id>, position: int, caption: Label, newId: Id)
    requires Paired(v.parent.Keys, c.chromeOf, c.backendOf, c.root, tail) && Pictured(v.kids, c.chromeOf, c.root, c.tree.kids, tail)
    requires Insertable(v, id, parent, position) && newId !in c.tree.kids
    requires forall k | k in v.kids && k.Some? :: k.value in v.parent.Keys
    requires forall k | k in v.kids :: id !in v.kids[k]
    ensures var r := Create(c.tree, At(c.chromeOf, c.root, parent), caption, position, newId);
            r.Ok? && Pictured(InsertNode(v, id, parent, caption, position).kids, c.chromeOf[id := newId], c.root, r.value.kids, tail)
  {
    CreatedPictured(v.parent.Keys, v.kids, c.chromeOf, c.backendOf, c.root, c.tree.kids, tail, id, parent, position, newId, caption.FolderLabel?);
  }

  lemma CreatedNodes(v: View, c: Client, tail: seq<Id>, id: Id, parent: Option<Id>, caption: Label, newId: Id)
    requires Sim(v, c, tail) && GoodView(v) && id !in v.parent && parent in v.kids && newId !in c.tree.parent
    ensures var m := c.chromeOf[id := newId];
            && c.root in c.tree.parent && newId != c.root
            && Paired(v.parent[id := parent].Keys, m, c.backendOf[newId := id], c.root, tail)
            && Hung(v.parent[id := parent], m, c.root, c.tree.parent[newId := Some(At(c.chromeOf, c.root, parent))])
            && Titled(v.caption[id := caption], m, c.tree.caption[newId := caption])
  {
    if newId in c.backendOf || newId == c.root || newId in tail {
      MappedIsInTree(v, c, tail, newId);
    }
    PairedWithNew(v.parent.Keys, c.chromeOf, c.backendOf, c.root, tail, id, newId);
    HungWithNew(v.parent, c.chromeOf, c.root, c.tree.parent, id, parent, newId);
    TitledWithNew(v.caption, c.chromeOf, c.tree.caption, id, caption, newId);
    KeysAfterPut(v.parent, id, parent);
  }

  lemma CreatedTree(v: View, c: Client, tail: seq<Id>, id: Id, parent: Option<Id>, position: int, caption: Label, newId: Id)
    requires Sim(v, c, tail) && GoodView(v) && Insertable(v, id, parent, position) && newId !in c.tree.parent
    ensures var r := Create(c.tree, At(c.chromeOf, c.root, parent), caption, position, newId);
            r.Ok? && Sim(InsertNode(v, id, parent, caption, position), SetMapping(c.(tree := r.value), id, newId), tail)
  {
    CreatedLists(v, c, tail, id, parent, position, caption, newId);
    CreateKeepsConsistent(c.tree, At(c.chromeOf, c.root, parent), caption, position, newId);
    CreatedNodes(v, c, tail, id, parent, caption, newId);
  }

  lemma UpsertCreates(c: Client, id: Id, parent: Option<Id>, position: int, caption: Label, newId: Id)
    requires Consistent(c.tree) && id !in c.chromeOf
    requires PlaceOf(c, parent).Some? && PlaceOf(c, parent).value in c.tree.kids
    requires Reusable(c.tree, c.tree.kids[PlaceOf(c, parent).value], caption).None?
    ensures var r := Create(c.tree, PlaceOf(c, parent).value, caption, position, newId);
            r.Ok? ==> ApplyUpsert(c, id, parent, position, caption, newId) == Ok(SetMapping(c.(tree := r.value), id, newId))
  {
  }

  // An unmapped node without a single same-titled sibling is created in its place.
  lemma UpsertOfNew(v: View, c: Client, tail: seq<Id>, id: Id, parent: Option<Id>, position: int, caption: Label, newId: Id)
    requires Sim(v, c, tail) && GoodView(v) && Insertable(v, id, parent, position) && newId !in c.tree.parent
    requires Reusable(c.tree, Siblings(c, parent), caption).None?
    ensures var r := ApplyUpsert(c, id, parent, position, caption, newId);
            r.Ok? && Sim(InsertNode(v, id, parent, caption, position), r.value, tail)
  {
    UpsertCreates(c, id, parent, position, caption, newId);
    CreatedTree(v, c, tail, id, parent, position, caption, newId);
  }

  // ---------- an upsert of a mapped node ----------

  // Whatever branch it takes, settling a node puts it at the asked place with the asked title.
  lemma SettleIsPlaced(c: Client, x: Id, to: Id, caption: Label, position: int)
    requires Consistent(c.tree) && x in c.tree.parent && c.tree.parent[x].Some?
    requires to in c.tree.kids && to !in Subtree(c.tree.parent, x)
    requires 0 <= position <= |Without(c.tree.kids[to], x)|
    ensures Settle(c, x, to, caption, position) == Ok(c.(tree := Retitled(PutAt(c.tree, x, to, position), x, caption)))
  {
    var t := c.tree;
    var from := t.parent[x].value;
    if from == to && IndexOf(t.kids[from], x) == position {
      ReinsertAtOwnIndex(t.kids[from], position);
      assert PutAt(t, x, to, position).kids == t.kids;
      assert PutAt(t, x, to, position) == t;
    } else {
      TranslatedMoveLands(t, x, to, position);
    }
  }

  // A mapped node is settled if and only if the place is outside its own subtree and the position within the list it
  // then has; the check after the move never fails.
  lemma SettlesIff(c: Client, x: Id, to: Id, caption: Label, position: int)
    requires Consistent(c.tree) && x in c.tree.parent && c.tree.parent[x].Some? && to in c.tree.kids
    ensures var r := Settle(c, x, to, caption, position);
            && (r.Ok? <==> to !in Subtree(c.tree.parent, x) && 0 <= position <= |Without(c.tree.kids[to], x)|)
            && (r.Err? ==> r.error.Refused?)
  {
    var t := c.tree;
    var from := t.parent[x].value;
    if to !in Subtree(t.parent, x) && 0 <= position <= |Without(t.kids[to], x)| {
      SettleIsPlaced(c, x, to, caption, position);
    } else {
      WithoutDistinct(t.kids[to], x);
      if from == to { ParentIsAbove(t, x); }
      if x in t.kids[to] { assert from == to; }
    }
  }

  // A node's parent is not below it.
  lemma ParentIsAbove(t: Tree, x: Id)
    requires Consistent(t) && x in t.parent && t.parent[x].Some?
    ensures t.parent[x].value !in Subtree(t.parent, x)
  {
    assert t.parent[x := t.parent[x]] == t.parent;
    MovingKeepsAcyclicIff(t.parent, x, t.parent[x]);
  }

  lemma HungMoved(nodes: set<Id>, parent: Parents, m: map<Id, Id>, inv: map<Id, Id>, root: Id, tail: seq<Id>, chrome: Parents, id: Id, p: Option<Id>)
    requires Paired(parent.Keys, m, inv, root, tail) && Hung(parent, m, root, chrome) && id in parent
    ensures Hung(parent[id := p], m, root, chrome[Lookup(m, id) := Some(At(m, root, p))])
  {
    forall b | b in parent && b != id ensures Lookup(m, b) != Lookup(m, id) && parent[b] == parent[b] {
    }
  }

  lemma TitledAnew(caption: map<Id, Label>, m: map<Id, Id>, inv: map<Id, Id>, root: Id, tail: seq<Id>, chrome: map<Id, Label>, id: Id, title: Label)
    requires Paired(caption.Keys, m, inv, root, tail) && Titled(caption, m, chrome) && id in caption
    ensures Titled(caption[id := title], m, chrome[Lookup(m, id) := title])
  {
  }

  lemma PicturedTakenOut(kids: imap<Option<Id>, seq<Id>>, m: map<Id, Id>, root: Id, chrome: map<Id, seq<Id>>, tail: seq<Id>, q: Option<Id>, id: Id)
    requires Pictured(kids, m, root, chrome, tail) && q in kids
    requires forall k | k in kids && k != q :: At(m, root, k) != At(m, root, q)
    requires forall y | y in kids[q] && y != id :: Lookup(m, y) != Lookup(m, id)
    requires Lookup(m, id) !in tail
    ensures At(m, root, q) in chrome
    ensures Pictured(kids[q := Without(kids[q], id)], m, root,
                     chrome[At(m, root, q) := Without(chrome[At(m, root, q)], Lookup(m, id))], tail)
  {
    ImageWithout(m, kids[q], id);
    WithoutConcat(Image(m, kids[q]), TailAt(q, tail), Lookup(m, id));
  }

  lemma NodeIsPictured(v: View, c: Client, tail: seq<Id>, id: Id)
    requires Sim(v, c, tail) && GoodView(v) && id in v.parent
    ensures var x := Lookup(c.chromeOf, id);
            && id in c.chromeOf && x == c.chromeOf[id] && x !in tail && x != c.root
            && x in c.tree.parent && c.tree.parent[x] == Some(At(c.chromeOf, c.root, v.parent[id]))
            && v.parent[id] in v.kids
  {
  }

  lemma {:induction false} PicturedClimb(v: View, c: Client, tail: seq<Id>, x: Id, y: Id, n: nat)
    requires Hung(v.parent, c.chromeOf, c.root, c.tree.parent) && Paired(v.parent.Keys, c.chromeOf, c.backendOf, c.root, tail)
    requires c.root in c.tree.parent && c.tree.parent[c.root] == None
    requires x in v.parent && y in v.parent
    requires forall b | b in v.parent && v.parent[b].Some? :: v.parent[b].value in v.parent.Keys
    ensures Up(v.parent, x, n) == Some(y) <==> Up(c.tree.parent, Lookup(c.chromeOf, x), n) == Some(Lookup(c.chromeOf, y))
    decreases n
  {
    if n > 0 {
      if v.parent[x].Some? {
        PicturedClimb(v, c, tail, v.parent[x].value, y, n - 1);
      } else if n > 1 {
        assert Up(c.tree.parent, c.root, n - 1) == None;
      }
    }
  }

  ghost predicate ListsOfNodes(v: View) {
    && (forall k | k in v.kids && k.Some? :: k.value in v.parent.Keys)
    && (forall k, b {:trigger b in v.kids[k]} | k in v.kids && b in v.kids[k] :: b in v.parent.Keys)
  }

  lemma DetachedPicture(v: View, c: Client, tail: seq<Id>, id: Id)
    requires Paired(v.parent.Keys, c.chromeOf, c.backendOf, c.root, tail) && Pictured(v.kids, c.chromeOf, c.root, c.tree.kids, tail)
    requires ListsOfNodes(v) && id in v.parent && v.parent[id] in v.kids
    ensures var x, q := Lookup(c.chromeOf, id), At(c.chromeOf, c.root, v.parent[id]);
            q in c.tree.kids && Pictured(Detach(v, id), c.chromeOf, c.root, c.tree.kids[q := Without(c.tree.kids[q], x)], tail)
  {
    var q := v.parent[id];
    forall k | k in v.kids && k != q ensures At(c.chromeOf, c.root, k) != At(c.chromeOf, c.root, q) {
    }
    forall y | y in v.kids[q] && y != id ensures Lookup(c.chromeOf, y) != Lookup(c.chromeOf, id) {
    }
    PicturedTakenOut(v.kids, c.chromeOf, c.root, c.tree.kids, tail, q, id);
  }

  lemma MovedLists(v: View, c: Client, tail: seq<Id>, id: Id, parent: Option<Id>, position: int, caption: Label)
    requires Paired(v.parent.Keys, c.chromeOf, c.backendOf, c.root, tail) && Pictured(v.kids, c.chromeOf, c.root, c.tree.kids, tail)
    requires ListsOfNodes(v) && id in v.parent && Movable(v, id, parent, position)
    requires Lists(c.tree.parent, c.tree.kids)
    requires var x := Lookup(c.chromeOf, id); x in c.tree.parent && c.tree.parent[x] == Some(At(c.chromeOf, c.root, v.parent[id]))
    ensures var x, p := Lookup(c.chromeOf, id), At(c.chromeOf, c.root, parent);
            && p in c.tree.kids && c.tree.parent[x].value in c.tree.kids && position <= |Without(c.tree.kids[p], x)|
            && Pictured(MoveNode(v, id, parent, caption, position).kids, c.chromeOf, c.root, PutAt(c.tree, x, p, position).kids, tail)
  {
    var x, p, q := Lookup(c.chromeOf, id), At(c.chromeOf, c.root, parent), At(c.chromeOf, c.root, v.parent[id]);
    DetachedPicture(v, c, tail, id);
    var rest := c.tree.kids[q := Without(c.tree.kids[q], x)];
    forall k | k in Detach(v, id) && k != parent ensures At(c.chromeOf, c.root, k) != At(c.chromeOf, c.root, parent) {
    }
    PicturedInsert(Detach(v, id), c.chromeOf, c.root, rest, tail, parent, id, position);
    assert p in c.tree.kids;
    assert rest[p] == Without(c.tree.kids[p], x) by {
      if p != q {
        assert x !in c.tree.kids[p];
      }
    }
  }

  lemma NotBelowInTree(v: View, c: Client, tail: seq<Id>, x: Id, y: Id)
    requires Hung(v.parent, c.chromeOf, c.root, c.tree.parent) && Paired(v.parent.Keys, c.chromeOf, c.backendOf, c.root, tail)
    requires c.root in c.tree.parent && c.tree.parent[c.root] == None
    requires x in v.parent && y in v.parent
    requires forall b | b in v.parent && v.parent[b].Some? :: v.parent[b].value in v.parent.Keys
    ensures Reaches(c.tree.parent, Lookup(c.chromeOf, x), Lookup(c.chromeOf, y)) ==> Reaches(v.parent, x, y)
  {
    if n: nat :| Up(c.tree.parent, Lookup(c.chromeOf, x), n) == Some(Lookup(c.chromeOf, y)) {
      PicturedClimb(v, c, tail, x, y, n);
    }
  }

  // A place outside the moved subtree of the forest is outside the moved subtree of the tree.
  lemma TargetOutside(v: View, c: Client, tail: seq<Id>, id: Id, parent: Option<Id>)
    requires Sim(v, c, tail) && GoodView(v) && id in v.parent && parent in v.kids
    requires parent.Some? ==> !Reaches(v.parent, parent.value, id)
    ensures At(c.chromeOf, c.root, parent) !in Subtree(c.tree.parent, Lookup(c.chromeOf, id))
  {
    if parent.None? {
      NodeIsPictured(v, c, tail, id);
      ReachesStep(c.tree.parent, c.root, Lookup(c.chromeOf, id));
    } else {
      NotBelowInTree(v, c, tail, parent.value, id);
    }
  }

  lemma MovedNodes(v: View, c: Client, tail: seq<Id>, id: Id, parent: Option<Id>, caption: Label)
    requires Sim(v, c, tail) && GoodView(v) && id in v.parent
    ensures var m, x := c.chromeOf, Lookup(c.chromeOf, id);
            && Paired(v.parent[id := parent].Keys, m, c.backendOf, c.root, tail)
            && Hung(v.parent[id := parent], m, c.root, c.tree.parent[x := Some(At(m, c.root, parent))])
            && Titled(v.caption[id := caption], m, c.tree.caption[x := caption])
  {
    KeysAfterPut(v.parent, id, parent);
    assert v.parent.Keys + {id} == v.parent.Keys;
    HungMoved(v.parent.Keys, v.parent, c.chromeOf, c.backendOf, c.root, tail, c.tree.parent, id, parent);
    TitledAnew(v.caption, c.chromeOf, c.backendOf, c.root, tail, c.tree.caption, id, caption);
  }

  // Where the moved node stands and goes in the tree, and that the move is one Chrome makes.
  lemma MoveInTree(v: View, c: Client, tail: seq<Id>, id: Id, parent: Option<Id>, position: int, caption: Label)
    requires Sim(v, c, tail) && GoodView(v) && Movable(v, id, parent, position)
    requires parent.Some? ==> !Reaches(v.parent, parent.value, id)
    ensures var x, p := Lookup(c.chromeOf, id), At(c.chromeOf, c.root, parent);
            && id in c.chromeOf && x == c.chromeOf[id] && x != c.root
            && x in c.tree.parent && c.tree.parent[x] == Some(At(c.chromeOf, c.root, v.parent[id])) && c.tree.parent[x].value in c.tree.kids
            && p in c.tree.kids && PlaceOf(c, parent) == Some(p) && p !in Subtree(c.tree.parent, x)
  {
    NodeIsPictured(v, c, tail, id);
    TargetOutside(v, c, tail, id, parent);
  }

  lemma MovedTree(v: View, c: Client, tail: seq<Id>, id: Id, parent: Option<Id>, position: int, caption: Label, x: Id, p: Id)
    requires Movable(v, id, parent, position)
    requires x in c.tree.parent && c.tree.parent[x].Some? && c.tree.parent[x].value in c.tree.kids && p in c.tree.kids
    requires position <= |Without(c.tree.kids[p], x)| && p == At(c.chromeOf, c.root, parent)
    requires x != c.root && c.root in c.tree.parent && c.tree.parent[c.root] == None
    requires Consistent(Retitled(PutAt(c.tree, x, p, position), x, caption))
    requires Paired(v.parent[id := parent].Keys, c.chromeOf, c.backendOf, c.root, tail)
    requires Hung(v.parent[id := parent], c.chromeOf, c.root, c.tree.parent[x := Some(p)])
    requires Titled(v.caption[id := caption], c.chromeOf, c.tree.caption[x := caption])
    requires Pictured(MoveNode(v, id, parent, caption, position).kids, c.chromeOf, c.root, PutAt(c.tree, x, p, position).kids, tail)
    ensures Sim(MoveNode(v, id, parent, caption, position), c.(tree := Retitled(PutAt(c.tree, x, p, position), x, caption)), tail)
  {
  }

  lemma MovedConsistent(c: Client, x: Id, p: Id, caption: Label, position: nat)
    requires Consistent(c.tree) && x in c.tree.parent && c.tree.parent[x].Some? && p in c.tree.kids && p !in Subtree(c.tree.parent, x)
    requires position <= |Without(c.tree.kids[p], x)|
    ensures Consistent(Retitled(PutAt(c.tree, x, p, position), x, caption))
  {
    MoveKeepsConsistent(c.tree, x, p, position);
  }

  lemma UpsertSettles(c: Client, id: Id, parent: Option<Id>, position: int, caption: Label, newId: Id, x: Id, p: Id)
    requires Consistent(c.tree) && id in c.chromeOf && c.chromeOf[id] == x && PlaceOf(c, parent) == Some(p) && p in c.tree.kids
    requires x in c.tree.parent && c.tree.parent[x].Some? && p !in Subtree(c.tree.parent, x)
    requires 0 <= position <= |Without(c.tree.kids[p], x)|
    ensures ApplyUpsert(c, id, parent, position, caption, newId) == Ok(c.(tree := Retitled(PutAt(c.tree, x, p, position), x, caption)))
  {
    SettleIsPlaced(c, x, p, caption, position);
  }

  // A mapped node is moved and retitled in place.
  lemma UpsertOfKnown(v: View, c: Client, tail: seq<Id>, id: Id, parent: Option<Id>, position: int, caption: Label, newId: Id)
    requires Sim(v, c, tail) && GoodView(v) && Movable(v, id, parent, position)
    requires parent.Some? ==> !Reaches(v.parent, parent.value, id)
    ensures var r := ApplyUpsert(c, id, parent, position, caption, newId);
            r.Ok? && Sim(MoveNode(v, id, parent, caption, position), r.value, tail)
  {
    var x, p := Lookup(c.chromeOf, id), At(c.chromeOf, c.root, parent);
    MoveInTree(v, c, tail, id, parent, position, caption);
    MovedLists(v, c, tail, id, parent, position, caption);
    MovedNodes(v, c, tail, id, parent, caption);
    MovedConsistent(c, x, p, caption, position);
    MovedTree(v, c, tail, id, parent, position, caption, x, p);
    UpsertSettles(c, id, parent, position, caption, newId, x, p);
  }

  // ---------- a reused sibling ----------

  lemma {:induction false} MatchesAreChildren(t: Tree, children: seq<Id>, caption: Label)
    ensures forall x | x in Matches(t, children, caption) :: x in children && x in t.caption && t.caption[x] == caption
  {
    if children != [] {
      MatchesAreChildren(t, children[1..], caption);
    }
  }

  lemma {:induction false} MatchesAre(t: Tree, children: seq<Id>, caption: Label)
    requires Distinct(children)
    ensures forall x :: x in Matches(t, children, caption) <==> x in children && x in t.caption && t.caption[x] == caption
    ensures Distinct(Matches(t, children, caption))
  {
    if children != [] {
      MatchesAre(t, children[1..], caption);
      assert children == [children[0]] + children[1..];
    }
  }

  // A node is taken over for a new one if and only if it is the only one of its title, and URL, in the list.
  lemma TakenOverIff(t: Tree, children: seq<Id>, caption: Label, y: Id)
    requires Distinct(children)
    ensures Reusable(t, children, caption) == Some(y) <==>
              && y in children && y in t.caption && t.caption[y] == caption
              && forall z | z in children && z in t.caption && t.caption[z] == caption :: z == y
  {
    MatchesAre(t, children, caption);
    var m := Matches(t, children, caption);
    if y in m && |m| > 1 {
      assert m[0] in m && m[1] in m && m[0] != m[1];
    }
  }

  lemma UpsertReuses(c: Client, id: Id, parent: Option<Id>, position: int, caption: Label, newId: Id, y: Id)
    requires Consistent(c.tree) && id !in c.chromeOf
    requires PlaceOf(c, parent).Some? && PlaceOf(c, parent).value in c.tree.kids
    requires Reusable(c.tree, c.tree.kids[PlaceOf(c, parent).value], caption) == Some(y)
    ensures y in c.tree.kids[PlaceOf(c, parent).value]
    ensures var r := ApplyUpsert(c, id, parent, position, caption, newId);
            r.Ok? ==> r.value.chromeOf == c.chromeOf[id := y] && r.value.backendOf == c.backendOf[y := id]
  {
    var p := PlaceOf(c, parent).value;
    MatchesAreChildren(c.tree, c.tree.kids[p], caption);
  }

  lemma StolenNode(nodes: set<Id>, m: map<Id, Id>, inv: map<Id, Id>, root: Id, tail: seq<Id>, id: Id, y: Id)
    requires Paired(nodes, m, inv, root, tail) && id !in nodes
    requires y in tail || y in inv
    ensures !Paired(nodes + {id}, m[id := y], inv[y := id], root, tail)
  {
    if y in inv {
      assert m[id := y][inv[y]] == y;
    }
  }

  lemma PictureMember(m: map<Id, Id>, s: seq<Id>, rest: seq<Id>, y: Id)
    requires y in Image(m, s) + rest
    ensures y in rest || exists b :: b in s && Lookup(m, b) == y
  {
    var l := Image(m, s) + rest;
    var i :| 0 <= i < |l| && l[i] == y;
    if i < |s| {
      assert s[i] in s;
    } else {
      assert rest[i - |s|] == y;
    }
  }

  // Every child of a pictured list is mapped or the user's own.
  lemma SiblingIsTaken(v: View, c: Client, tail: seq<Id>, parent: Option<Id>, y: Id)
    requires Paired(v.parent.Keys, c.chromeOf, c.backendOf, c.root, tail) && ListsOfNodes(v) && parent in v.kids
    requires y in Image(c.chromeOf, v.kids[parent]) + TailAt(parent, tail)
    ensures y in tail || y in c.backendOf
  {
    PictureMember(c.chromeOf, v.kids[parent], TailAt(parent, tail), y);
  }

  // Taking over an existing sibling steals it from the node it stands for, or from the user.
  lemma ReuseBreaks(v: View, c: Client, tail: seq<Id>, id: Id, parent: Option<Id>, position: int, caption: Label, newId: Id)
    requires Sim(v, c, tail) && GoodView(v) && Insertable(v, id, parent, position)
    requires Reusable(c.tree, Siblings(c, parent), caption).Some?
    ensures var r := ApplyUpsert(c, id, parent, position, caption, newId);
            !(r.Ok? && Paired(v.parent.Keys + {id}, r.value.chromeOf, r.value.backendOf, c.root, tail))
  {
    var y := Reusable(c.tree, Siblings(c, parent), caption).value;
    UpsertReuses(c, id, parent, position, caption, newId, y);
    SiblingIsTaken(v, c, tail, parent, y);
    StolenNode(v.parent.Keys, c.chromeOf, c.backendOf, c.root, tail, id, y);
  }

  // ---------- a removal ----------

  lemma SubtreePictured(v: View, c: Client, tail: seq<Id>, id: Id, b: Id)
    requires Hung(v.parent, c.chromeOf, c.root, c.tree.parent) && Paired(v.parent.Keys, c.chromeOf, c.backendOf, c.root, tail)
    requires c.root in c.tree.parent && c.tree.parent[c.root] == None
    requires forall b | b in v.parent && v.parent[b].Some? :: v.parent[b].value in v.parent.Keys
    requires id in v.parent && b in v.parent
    ensures b in Subtree(v.parent, id) <==> Lookup(c.chromeOf, b) in Subtree(c.tree.parent, Lookup(c.chromeOf, id))
  {
    var x, y := Lookup(c.chromeOf, b), Lookup(c.chromeOf, id);
    assert v.parent[b] == v.parent[b] && x in c.tree.parent;
    if Reaches(v.parent, b, id) {
      var n: nat :| Up(v.parent, b, n) == Some(id);
      PicturedClimb(v, c, tail, b, id, n);
    }
    if Reaches(c.tree.parent, x, y) {
      var n: nat :| Up(c.tree.parent, x, n) == Some(y);
      PicturedClimb(v, c, tail, b, id, n);
    }
  }

  lemma PairedWithout(nodes: set<Id>, m: map<Id, Id>, inv: map<Id, Id>, root: Id, tail: seq<Id>, gv: set<Id>, gc: set<Id>)
    requires Paired(nodes, m, inv, root, tail)
    requires forall b | b in nodes :: b in gv <==> Lookup(m, b) in gc
    ensures Paired(nodes - gv, m - gv, inv - gc, root, tail)
  {
    forall b | b in m - gv ensures m[b] in inv - gc {
      assert Lookup(m, b) == m[b];
    }
    forall x | x in inv - gc ensures inv[x] in m - gv {
      assert Lookup(m, inv[x]) == x;
    }
  }

  lemma HungWithout(nodes: set<Id>, parent: Parents, m: map<Id, Id>, root: Id, chrome: Parents, gv: set<Id>, gc: set<Id>)
    requires Hung(parent, m, root, chrome) && parent.Keys == nodes && nodes == m.Keys
    requires forall b | b in nodes :: b in gv <==> Lookup(m, b) in gc
    requires forall b {:trigger parent[b]} | b in parent && parent[b].Some? :: parent[b].value in nodes && (parent[b].value in gv ==> b in gv)
    ensures Hung(parent - gv, m - gv, root, chrome - gc)
  {
    forall b | b in parent && b !in gv ensures At(m - gv, root, parent[b]) == At(m, root, parent[b]) && Lookup(m - gv, b) == Lookup(m, b) {
    }
  }

  lemma PicturedWithout(kids: imap<Option<Id>, seq<Id>>, m: map<Id, Id>, root: Id, chrome: map<Id, seq<Id>>, tail: seq<Id>, gv: set<Id>, gc: set<Id>)
    requires Pictured(kids, m, root, chrome, tail)
    requires root !in gc
    requires forall b | b in m.Keys :: b in gv <==> Lookup(m, b) in gc
    requires forall k | k in kids && k.Some? :: k.value in m.Keys
    requires forall k, b {:trigger b in kids[k]} | k in kids && b in kids[k] && b in gv :: k.Some? && k.value in gv
    ensures Pictured(imap k | k in kids && (k.None? || k.value !in gv) :: kids[k], m - gv, root, chrome - gc, tail)
  {
    forall k | k in kids && (k.None? || k.value !in gv)
      ensures At(m - gv, root, k) == At(m, root, k) && At(m, root, k) !in gc && Image(m - gv, kids[k]) == Image(m, kids[k])
    {
      forall i | 0 <= i < |kids[k]| ensures Lookup(m - gv, kids[k][i]) == Lookup(m, kids[k][i]) {
        assert kids[k][i] in kids[k];
      }
    }
  }

  ghost predicate Matched(m: map<Id, Id>, gv: set<Id>, gc: set<Id>) {
    forall b | b in m.Keys :: b in gv <==> Lookup(m, b) in gc
  }

  lemma SubtreesMatched(v: View, c: Client, tail: seq<Id>, id: Id)
    requires Sim(v, c, tail) && GoodView(v) && id in v.parent
    ensures Matched(c.chromeOf, Subtree(v.parent, id), Subtree(c.tree.parent, Lookup(c.chromeOf, id)))
  {
    forall b | b in c.chromeOf.Keys
      ensures b in Subtree(v.parent, id) <==> Lookup(c.chromeOf, b) in Subtree(c.tree.parent, Lookup(c.chromeOf, id))
    {
      SubtreePictured(v, c, tail, id, b);
    }
  }

  lemma {:induction false} ImageSize(m: map<Id, Id>, a: set<Id>, b: set<Id>)
    requires forall x | x in a :: Lookup(m, x) in b
    requires forall y | y in b :: exists x :: x in a && Lookup(m, x) == y
    requires forall x, y | x in a && y in a && Lookup(m, x) == Lookup(m, y) :: x == y
    ensures |a| == |b|
    decreases |a|
  {
    if x :| x in a {
      var rest, image := a - {x}, b - {Lookup(m, x)};
      forall y | y in image ensures exists z :: z in rest && Lookup(m, z) == y {
        var z :| z in a && Lookup(m, z) == y;
        assert z in rest;
      }
      ImageSize(m, rest, image);
    } else {
      assert b == {};
    }
  }

  // As many mapped nodes leave the tree as nodes leave the forest.
  lemma MappedInSubtree(nodes: set<Id>, c: Client, tail: seq<Id>, gv: set<Id>, gc: set<Id>)
    requires Paired(nodes, c.chromeOf, c.backendOf, c.root, tail) && Matched(c.chromeOf, gv, gc) && gv <= nodes
    ensures |gc * c.backendOf.Keys| == |gv|
  {
    var m := c.chromeOf;
    forall y | y in gc * c.backendOf.Keys ensures exists x :: x in gv && Lookup(m, x) == y {
      assert Lookup(m, c.backendOf[y]) == y;
    }
    ImageSize(m, gv, gc * c.backendOf.Keys);
  }

  lemma DetachedChildren(v: View, id: Id, k: Option<Id>, b: Id)
    requires GoodView(v) && id in v.parent && k in v.kids && b in Detach(v, id)[k]
    requires b in Subtree(v.parent, id)
    ensures k.Some? && k.value in Subtree(v.parent, id)
  {
    assert b in v.kids[k] && v.parent[b] == k && b != id;
    ReachesStep(v.parent, b, id);
  }

  lemma RemovedLists(v: View, c: Client, tail: seq<Id>, id: Id, x: Id, q: Id)
    requires Paired(v.parent.Keys, c.chromeOf, c.backendOf, c.root, tail) && Pictured(v.kids, c.chromeOf, c.root, c.tree.kids, tail)
    requires ListsOfNodes(v) && id in v.parent && v.parent[id] in v.kids
    requires x == Lookup(c.chromeOf, id) && q == At(c.chromeOf, c.root, v.parent[id])
    requires var gv, gc := Subtree(v.parent, id), Subtree(c.tree.parent, x);
             && Matched(c.chromeOf, gv, gc) && c.root !in gc
             && forall k, b {:trigger b in Detach(v, id)[k]} | k in v.kids && b in Detach(v, id)[k] && b in gv :: k.Some? && k.value in gv
    ensures var gv, gc := Subtree(v.parent, id), Subtree(c.tree.parent, x);
            && q in c.tree.kids
            && Pictured(RemoveNode(v, id).kids, c.chromeOf - gv, c.root, c.tree.kids[q := Without(c.tree.kids[q], x)] - gc, tail)
  {
    var gv, gc := Subtree(v.parent, id), Subtree(c.tree.parent, x);
    DetachedPicture(v, c, tail, id);
    PicturedWithout(Detach(v, id), c.chromeOf, c.root, c.tree.kids[q := Without(c.tree.kids[q], x)], tail, gv, gc);
  }

  lemma RemovedNodes(v: View, c: Client, tail: seq<Id>, id: Id, gv: set<Id>, gc: set<Id>)
    requires Sim(v, c, tail) && GoodView(v) && Matched(c.chromeOf, gv, gc)
    requires forall b {:trigger v.parent[b]} | b in v.parent && v.parent[b].Some? :: v.parent[b].value in gv ==> b in gv
    ensures Paired(v.parent.Keys - gv, c.chromeOf - gv, c.backendOf - gc, c.root, tail)
    ensures Hung(v.parent - gv, c.chromeOf - gv, c.root, c.tree.parent - gc)
    ensures Titled(v.caption - gv, c.chromeOf - gv, c.tree.caption - gc)
  {
    PairedWithout(v.parent.Keys, c.chromeOf, c.backendOf, c.root, tail, gv, gc);
    HungWithout(v.parent.Keys, v.parent, c.chromeOf, c.root, c.tree.parent, gv, gc);
  }

  lemma RemovalPath(c: Client, id: Id)
    requires id in c.chromeOf && c.chromeOf[id] in c.tree.parent
    requires c.tree.parent[c.chromeOf[id]].Some? && c.tree.parent[c.chromeOf[id]].value in c.tree.kids
    ensures var x := c.chromeOf[id];
            var gone, q := Subtree(c.tree.parent, x), c.tree.parent[x].value;
            ApplyRemoval(c, id) ==
              if |gone * c.backendOf.Keys| > MAX_MAPPED then Err(TooManyMapped)
              else Ok(c.(tree := Tree(c.tree.parent - gone, c.tree.caption - gone, c.tree.kids[q := Without(c.tree.kids[q], x)] - gone),
                         chromeOf := Forget(c, gone) - {id}, backendOf := c.backendOf - gone))
  {
  }

  lemma RemovedPicture(v: View, c: Client, tail: seq<Id>, id: Id, x: Id, q: Id)
    requires Sim(v, c, tail) && GoodView(v) && id in v.parent && v.parent[id] in v.kids
    requires x == Lookup(c.chromeOf, id) && q == At(c.chromeOf, c.root, v.parent[id]) && x != c.root
    requires Matched(c.chromeOf, Subtree(v.parent, id), Subtree(c.tree.parent, x))
    ensures var gv, gc := Subtree(v.parent, id), Subtree(c.tree.parent, x);
            && q in c.tree.kids
            && Pictured(RemoveNode(v, id).kids, c.chromeOf - gv, c.root, c.tree.kids[q := Without(c.tree.kids[q], x)] - gc, tail)
  {
    RootStays(c, x);
    forall k, b | k in v.kids && b in Detach(v, id)[k] && b in Subtree(v.parent, id) ensures k.Some? && k.value in Subtree(v.parent, id) {
      DetachedChildren(v, id, k, b);
    }
    RemovedLists(v, c, tail, id, x, q);
  }

  lemma RootStays(c: Client, x: Id)
    requires c.root in c.tree.parent && c.tree.parent[c.root] == None && x != c.root
    ensures c.root !in Subtree(c.tree.parent, x)
  {
    ReachesStep(c.tree.parent, c.root, x);
  }

  lemma RemovedSubtreeNodes(v: View, c: Client, tail: seq<Id>, id: Id, gc: set<Id>)
    requires Sim(v, c, tail) && GoodView(v) && Matched(c.chromeOf, Subtree(v.parent, id), gc)
    ensures var gv := Subtree(v.parent, id);
            && Paired((v.parent - gv).Keys, c.chromeOf - gv, c.backendOf - gc, c.root, tail)
            && Hung(v.parent - gv, c.chromeOf - gv, c.root, c.tree.parent - gc)
            && Titled(v.caption - gv, c.chromeOf - gv, c.tree.caption - gc)
  {
    var gv := Subtree(v.parent, id);
    forall b | b in v.parent && v.parent[b].Some? ensures v.parent[b].value in gv ==> b in gv {
      ReachesStep(v.parent, b, id);
    }
    RemovedNodes(v, c, tail, id, gv, gc);
  }

  lemma RemovalSimulated(v: View, c: Client, tail: seq<Id>, id: Id, x: Id, q: Id)
    requires Sim(v, c, tail) && GoodView(v) && id in v.parent && v.parent[id] in v.kids
    requires x == Lookup(c.chromeOf, id) && q == At(c.chromeOf, c.root, v.parent[id]) && x != c.root
    requires x in c.tree.parent && c.tree.parent[x] == Some(q) && q in c.tree.kids
    requires Matched(c.chromeOf, Subtree(v.parent, id), Subtree(c.tree.parent, x))
    ensures var gv, gc := Subtree(v.parent, id), Subtree(c.tree.parent, x);
            Sim(RemoveNode(v, id),
                c.(tree := Tree(c.tree.parent - gc, c.tree.caption - gc, c.tree.kids[q := Without(c.tree.kids[q], x)] - gc),
                   chromeOf := c.chromeOf - gv, backendOf := c.backendOf - gc), tail)
  {
    var gc := Subtree(c.tree.parent, x);
    RootStays(c, x);
    RemoveKeepsConsistent(c.tree, x);
    RemovedPicture(v, c, tail, id, x, q);
    RemovedSubtreeNodes(v, c, tail, id, gc);
  }

  // A removal takes the subtree out of the tree and the mapping, unless it is too large to be one operation.
  lemma RemovalOfKnown(v: View, c: Client, tail: seq<Id>, id: Id)
    requires Sim(v, c, tail) && GoodView(v) && id in v.parent && v.parent[id] in v.kids
    ensures var r := ApplyRemoval(c, id);
            && (r.Ok? <==> |Subtree(v.parent, id)| <= MAX_MAPPED)
            && (r.Ok? ==> Sim(RemoveNode(v, id), r.value, tail))
  {
    var x := Lookup(c.chromeOf, id);
    NodeIsPictured(v, c, tail, id);
    SubtreesMatched(v, c, tail, id);
    RemovalSimulated(v, c, tail, id, x, At(c.chromeOf, c.root, v.parent[id]));
    RemovalPath(c, id);
    RemovalMapping(v, c, tail, id, Subtree(c.tree.parent, x));
  }

  lemma RemovalMapping(v: View, c: Client, tail: seq<Id>, id: Id, gc: set<Id>)
    requires Paired(v.parent.Keys, c.chromeOf, c.backendOf, c.root, tail) && id in v.parent
    requires Matched(c.chromeOf, Subtree(v.parent, id), gc)
    ensures Forget(c, gc) - {id} == c.chromeOf - Subtree(v.parent, id)
    ensures |gc * c.backendOf.Keys| == |Subtree(v.parent, id)|
  {
    assert Up(v.parent, id, 0) == Some(id);
    MappedInSubtree(v.parent.Keys, c, tail, Subtree(v.parent, id), gc);
  }

  // ---------- one event ----------

  // The two things that can keep an event from being followed: a single sibling already carrying the
  // title of a new node, and a removal of more nodes than one operation may cover.
  ghost predicate Followable(v: View, c: Client, e: Event) {
    match e
    case Upsert(id, parent, _, caption) => id in v.parent || |Matches(c.tree, Siblings(c, parent), caption)| != 1
    case Removal(id, _) => |Subtree(v.parent, id)| <= MAX_MAPPED
  }

  // An event is followed, and leaves the tree a picture of the forest, in exactly the followable cases.
  lemma EventFollowedIff(v: View, c: Client, tail: seq<Id>, e: Event, newId: Id)
    requires Sim(v, c, tail) && GoodView(v) && Applicable(v, e) && Acyclic(ApplyEvent(v, e).parent)
    requires newId !in c.tree.parent
    ensures var r := ApplyToClient(c, e, newId);
            r.Ok? && Sim(ApplyEvent(v, e), r.value, tail) <==> Followable(v, c, e)
  {
    match e
    case Upsert(id, parent, position, caption) =>
      if id in v.parent {
        MovingKeepsAcyclicIff(v.parent, id, parent);
        UpsertOfKnown(v, c, tail, id, parent, position, caption, newId);
      } else {
        UpsertOfNewIff(v, c, tail, id, parent, position, caption, newId);
      }
    case Removal(id, parent) =>
      RemovalOfKnown(v, c, tail, id);
      PlaceIsKnown(v, c, tail, parent);
      PlacedRemoval(c, id, parent, newId);
  }

  // An upsert asks for a recovery exactly when its parent is not mapped, or the parent's node or its own is gone.
  lemma UpsertIsLostIff(c: Client, id: Id, parent: Option<Id>, position: int, caption: Label, newId: Id)
    requires Consistent(c.tree)
    ensures ApplyUpsert(c, id, parent, position, caption, newId) == Err(NeedsRecovery) <==>
              || (parent.None? && c.root !in c.tree.parent)
              || (parent.Some? && (parent.value !in c.chromeOf || c.chromeOf[parent.value] !in c.tree.parent))
              || (id in c.chromeOf && c.chromeOf[id] !in c.tree.parent)
  {
    var place := PlaceOf(c, parent);
    if !IsLost(c, id, parent) && place.value in c.tree.kids { MatchesAreChildren(c.tree, c.tree.kids[place.value], caption); }
  }

  // A removal whose parent is missing leaves the tree alone and takes exactly the node, what hangs below it, and the
  // parent out of both directions of the mapping.
  lemma MissingParentUnmaps(c: Client, id: Id, parent: Option<Id>, newId: Id, b: Id)
    requires Consistent(c.tree) && parent.Some? && (parent.value !in c.chromeOf || c.chromeOf[parent.value] !in c.tree.parent)
    requires forall b | b in c.chromeOf :: c.chromeOf[b] in c.backendOf && c.backendOf[c.chromeOf[b]] == b
    requires forall x | x in c.backendOf :: c.backendOf[x] in c.chromeOf && c.chromeOf[c.backendOf[x]] == x
    ensures var r := ApplyToClient(c, Removal(id, parent), newId);
            && r.Ok? && r.value.tree == c.tree && r.value.root == c.root
            && (b in r.value.chromeOf <==> b in c.chromeOf && b != id && b != parent.value
                                           && !(id in c.chromeOf && Reaches(c.tree.parent, c.chromeOf[b], c.chromeOf[id])))
            && (b in r.value.chromeOf ==> r.value.chromeOf[b] == c.chromeOf[b])
            && (b in c.chromeOf ==> (c.chromeOf[b] in r.value.backendOf <==> b in r.value.chromeOf))
            && (forall x | x in r.value.backendOf :: x in c.backendOf && r.value.backendOf[x] == c.backendOf[x])
  {
    InvalidatedIs(c, id, parent, b);
  }

  lemma InvalidatedIs(c: Client, id: Id, parent: Option<Id>, b: Id)
    requires forall b | b in c.chromeOf :: c.chromeOf[b] in c.backendOf && c.backendOf[c.chromeOf[b]] == b
    requires forall x | x in c.backendOf :: c.backendOf[x] in c.chromeOf && c.chromeOf[c.backendOf[x]] == x
    ensures var d := Invalidated(c, id, parent);
            && d.tree == c.tree && d.root == c.root
            && (b in d.chromeOf <==> b in c.chromeOf && b != id && Some(b) != parent
                                     && !(id in c.chromeOf && Reaches(c.tree.parent, c.chromeOf[b], c.chromeOf[id])))
            && (b in d.chromeOf ==> d.chromeOf[b] == c.chromeOf[b])
            && (b in c.chromeOf ==> (c.chromeOf[b] in d.backendOf <==> b in d.chromeOf))
            && (forall x | x in d.backendOf :: x in c.backendOf && d.backendOf[x] == c.backendOf[x])
  {
    if id in c.chromeOf && b in c.chromeOf {
      ReachesStep(c.tree.parent, c.chromeOf[b], c.chromeOf[id]);
    }
  }

  lemma PlaceIsKnown(v: View, c: Client, tail: seq<Id>, parent: Option<Id>)
    requires Sim(v, c, tail) && (parent.Some? ==> parent.value in v.parent)
    ensures PlaceOf(c, parent).Some? && PlaceOf(c, parent).value in c.tree.parent
  {
    if parent.Some? { assert v.parent[parent.value] == v.parent[parent.value]; }
  }

  lemma PlacedRemoval(c: Client, id: Id, parent: Option<Id>, newId: Id)
    requires Consistent(c.tree) && PlaceOf(c, parent).Some? && PlaceOf(c, parent).value in c.tree.parent
    ensures ApplyToClient(c, Removal(id, parent), newId) == ApplyRemoval(c, id)
  {
  }

  lemma UpsertOfNewIff(v: View, c: Client, tail: seq<Id>, id: Id, parent: Option<Id>, position: int, caption: Label, newId: Id)
    requires Sim(v, c, tail) && GoodView(v) && Insertable(v, id, parent, position) && newId !in c.tree.parent
    ensures var r := ApplyUpsert(c, id, parent, position, caption, newId);
            r.Ok? && Sim(InsertNode(v, id, parent, caption, position), r.value, tail) <==> |Matches(c.tree, Siblings(c, parent), caption)| != 1
  {
    if Reusable(c.tree, Siblings(c, parent), caption).None? {
      UpsertOfNew(v, c, tail, id, parent, position, caption, newId);
    } else {
      ReuseIsNotFollowed(v, c, tail, id, parent, position, caption, newId, ApplyUpsert(c, id, parent, position, caption, newId));
    }
  }

  lemma ReuseIsNotFollowed(v: View, c: Client, tail: seq<Id>, id: Id, parent: Option<Id>, position: int, caption: Label, newId: Id, r: Result<Client, Failure>)
    requires Sim(v, c, tail) && GoodView(v) && Insertable(v, id, parent, position)
    requires Reusable(c.tree, Siblings(c, parent), caption).Some? && r == ApplyUpsert(c, id, parent, position, caption, newId)
    ensures r.Ok? ==> !Sim(InsertNode(v, id, parent, caption, position), r.value, tail)
  {
    ReuseBreaks(v, c, tail, id, parent, position, caption, newId);
    KeysAfterPut(v.parent, id, parent);
    if r.Ok? && Sim(InsertNode(v, id, parent, caption, position), r.value, tail) {
      UpsertKeepsRoot(c, id, parent, position, caption, newId);
    }
  }

  lemma UpsertKeepsRoot(c: Client, id: Id, parent: Option<Id>, position: int, caption: Label, newId: Id)
    requires Consistent(c.tree)
    ensures var r := ApplyUpsert(c, id, parent, position, caption, newId); r.Ok? ==> r.value.root == c.root
  {
  }

  // ---------- the user's own nodes ----------

  ghost predicate TailNamed(tail: seq<Id>, caption: map<Id, Label>) {
    forall x | x in tail :: x in caption && caption[x] == FolderLabel(LOCAL_ONLY_FOLDER_TITLE)
  }

  lemma SettleRetitlesOne(c: Client, x: Id, to: Id, caption: Label, position: int, y: Id)
    requires Consistent(c.tree) && to in c.tree.kids && y in c.tree.caption && y != x
    ensures var r := Settle(c, x, to, caption, position);
            r.Ok? ==> y in r.value.tree.caption && r.value.tree.caption[y] == c.tree.caption[y]
  {
  }

  // Only the node an event is about changes its title.
  lemma OtherTitlesKept(c: Client, e: Event, newId: Id, y: Id)
    requires Consistent(c.tree) && ApplyToClient(c, e, newId).Ok? && y in c.tree.caption && y != newId
    requires var d := ApplyToClient(c, e, newId).value;
             y in d.tree.caption && (e.Upsert? && e.id in d.chromeOf ==> d.chromeOf[e.id] != y)
    ensures ApplyToClient(c, e, newId).value.tree.caption[y] == c.tree.caption[y]
  {
    match e
    case Upsert(id, parent, position, caption) =>
      var place := PlaceOf(c, parent);
      var reuse := Reusable(c.tree, c.tree.kids[place.value], caption);
      if id in c.chromeOf {
        SettleRetitlesOne(c, c.chromeOf[id], place.value, caption, position, y);
      } else if reuse.Some? {
        SettleRetitlesOne(SetMapping(c, id, reuse.value), reuse.value, place.value, caption, position, y);
      }
    case Removal(_, _) =>
  }

  lemma TailStays(v: View, c: Client, tail: seq<Id>, x: Id)
    requires Sim(v, c, tail) && None in v.kids && x in tail
    ensures x in c.tree.caption && x !in c.backendOf
  {
    MappedIsInTree(v, c, tail, x);
  }

  lemma TailKept(v: View, w: View, c: Client, tail: seq<Id>, e: Event, newId: Id)
    requires Sim(v, c, tail) && None in v.kids && TailNamed(tail, c.tree.caption) && newId !in c.tree.parent
    requires ApplyToClient(c, e, newId).Ok? && Sim(w, ApplyToClient(c, e, newId).value, tail) && None in w.kids
    ensures TailNamed(tail, ApplyToClient(c, e, newId).value.tree.caption)
  {
    var d := ApplyToClient(c, e, newId).value;
    forall x | x in tail ensures x in d.tree.caption && d.tree.caption[x] == FolderLabel(LOCAL_ONLY_FOLDER_TITLE) {
      TailStays(v, c, tail, x);
      TailStays(w, d, tail, x);
      OtherTitlesKept(c, e, newId, x);
    }
  }

  // No two siblings carry the same title, and none at the root that of the user's own folder.
  ghost predicate NoTwins(v: View) {
    && (forall k, x, y {:trigger x in v.kids[k], y in v.kids[k]} | k in v.kids && x in v.kids[k] && y in v.kids[k] && x != y ::
          x in v.caption && y in v.caption && v.caption[x] != v.caption[y])
    && (None in v.kids ==> forall x | x in v.kids[None] :: x in v.caption && v.caption[x] != FolderLabel(LOCAL_ONLY_FOLDER_TITLE))
  }

  lemma NoTwinNoMatch(v: View, c: Client, tail: seq<Id>, id: Id, parent: Option<Id>, position: int, caption: Label)
    requires Sim(v, c, tail) && GoodView(v) && TailNamed(tail, c.tree.caption)
    requires Insertable(v, id, parent, position) && NoTwins(InsertNode(v, id, parent, caption, position))
    ensures Matches(c.tree, Siblings(c, parent), caption) == []
  {
    var matches := Matches(c.tree, Siblings(c, parent), caption);
    MatchesAreChildren(c.tree, Siblings(c, parent), caption);
    if matches != [] {
      var y := matches[0];
      PictureMember(c.chromeOf, v.kids[parent], TailAt(parent, tail), y);
      TwinlessSibling(v, id, parent, caption, position);
    }
  }

  lemma TwinlessSibling(v: View, id: Id, parent: Option<Id>, caption: Label, position: int)
    requires GoodView(v) && Insertable(v, id, parent, position) && NoTwins(InsertNode(v, id, parent, caption, position))
    ensures forall b | b in v.kids[parent] :: b in v.caption && v.caption[b] != caption
    ensures parent.None? ==> caption != FolderLabel(LOCAL_ONLY_FOLDER_TITLE)
  {
    var w := InsertNode(v, id, parent, caption, position);
    assert w.kids[parent][position] == id && id in w.kids[parent];
    forall b | b in v.kids[parent] ensures b in v.caption && v.caption[b] != caption {
      assert b in v.parent && b != id;
      assert b in w.kids[parent];
    }
  }

  // Without twins, and with removals of a bounded size, every event is followed.
  lemma EventFollowed(v: View, c: Client, tail: seq<Id>, e: Event, newId: Id)
    requires Sim(v, c, tail) && GoodView(v) && TailNamed(tail, c.tree.caption) && newId !in c.tree.parent
    requires Applicable(v, e) && GoodView(ApplyEvent(v, e)) && NoTwins(ApplyEvent(v, e))
    requires e.Removal? ==> |Subtree(v.parent, e.id)| <= MAX_MAPPED
    ensures var r := ApplyToClient(c, e, newId);
            r.Ok? && Sim(ApplyEvent(v, e), r.value, tail) && TailNamed(tail, r.value.tree.caption)
  {
    if e.Upsert? && e.id !in v.parent {
      NoTwinNoMatch(v, c, tail, e.id, e.parent, e.position, e.caption);
    }
    EventFollowedIff(v, c, tail, e, newId);
    TailKept(v, ApplyEvent(v, e), c, tail, e, newId);
  }
}
