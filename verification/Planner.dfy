/** The convergence planner: what has to be done to a managed Chrome tree to make it the desired forest,
    or why nothing may be done. */
module Planner {
  import opened Common

  datatype Kind = Folder | Bookmark
  datatype Content = Content(kind: Kind, title: Option<string>, url: Option<string>, position: int)

  datatype DesiredNode = DesiredNode(backendId: Id, parent: Option<Id>, content: Content)
  datatype InventoryNode = InventoryNode(chromeId: Id, parent: Option<Id>, content: Content, managed: bool)

  datatype Input = Input(root: Id, desired: seq<DesiredNode>, inventory: seq<InventoryNode>, forward: map<Id, Id>, inverse: map<Id, Id>)

  datatype Operation =
    | Reconcile(backendId: Id, chromeId: Id)
    | Adopt(backendId: Id, chromeId: Id)
    | Create(backendId: Id)
    | Delete(chromeId: Id)

  datatype Reason = MappingNotBijective | ManagedRootMissing | StaleMapping | IdentityAmbiguous | OperationOverflow

  datatype Outcome = Planned(operations: seq<Operation>) | Paused(reason: Reason, operations: seq<Operation>)

  const MAX_OPERATIONS := 500

  // Backend ids come from one server snapshot and Chrome ids from one tree.
  ghost predicate UniqueIds(input: Input) {
    && (forall i, j :: 0 <= i < j < |input.desired| ==> input.desired[i].backendId != input.desired[j].backendId)
    && (forall i, j :: 0 <= i < j < |input.inventory| ==> input.inventory[i].chromeId != input.inventory[j].chromeId)
  }

  predicate Bijection(forward: map<Id, Id>, inverse: map<Id, Id>) {
    && (forall b | b in forward :: forward[b] in inverse && inverse[forward[b]] == b)
    && (forall c | c in inverse :: inverse[c] in forward && forward[inverse[c]] == c)
  }

  function Managed(nodes: seq<InventoryNode>): seq<InventoryNode> {
    if nodes == [] then []
    else
      var n := |nodes| - 1;
      Managed(nodes[..n]) + (if nodes[n].managed then [nodes[n]] else [])
  }

  lemma {:induction false} ManagedIs(nodes: seq<InventoryNode>)
    ensures forall x :: x in Managed(nodes) <==> x in nodes && x.managed
  {
    if nodes != [] {
      var n := |nodes| - 1;
      ManagedIs(nodes[..n]);
      assert nodes == nodes[..n] + [nodes[n]];
    }
  }

  predicate IsManaged(input: Input, c: Id) {
    exists x :: x in input.inventory && x.managed && x.chromeId == c
  }

  predicate IsDesired(input: Input, b: Id) {
    exists d :: d in input.desired && d.backendId == b
  }

  // The Chrome node a desired node's parent stands for.
  function Place(input: Input, d: DesiredNode): Option<Id> {
    if d.parent.None? then Some(input.root)
    else if d.parent.value in input.forward then Some(input.forward[d.parent.value])
    else None
  }

  // A mapped pair is a desired node and a managed one, not the root, under a mapped parent.
  predicate Current(input: Input, b: Id)
    requires b in input.forward
  {
    && input.forward[b] != input.root && IsManaged(input, input.forward[b])
    && exists d :: d in input.desired && d.backendId == b && Place(input, d).Some?
  }

  ghost predicate MappingCurrent(input: Input) {
    forall b | b in input.forward :: Current(input, b)
  }

  predicate InPlace(input: Input, d: DesiredNode, x: InventoryNode) {
    x.parent == Place(input, d) && x.content == d.content
  }

  predicate Candidate(input: Input, d: DesiredNode, x: InventoryNode) {
    x.managed && x.chromeId != input.root && Place(input, d).Some? && InPlace(input, d, x)
  }

  function Candidates(input: Input, d: DesiredNode, nodes: seq<InventoryNode>): seq<InventoryNode> {
    if nodes == [] then []
    else
      var n := |nodes| - 1;
      Candidates(input, d, nodes[..n]) + (if Candidate(input, d, nodes[n]) then [nodes[n]] else [])
  }

  lemma {:induction false} CandidatesAre(input: Input, d: DesiredNode, nodes: seq<InventoryNode>)
    ensures forall x :: x in Candidates(input, d, nodes) <==> x in nodes && Candidate(input, d, x)
  {
    if nodes != [] {
      var n := |nodes| - 1;
      CandidatesAre(input, d, nodes[..n]);
      assert nodes == nodes[..n] + [nodes[n]];
    }
  }

  // What one desired node asks for.
  ghost predicate Asks(input: Input, d: DesiredNode, op: Operation) {
    var cs := Candidates(input, d, input.inventory);
    if d.backendId in input.forward then
      && op == Reconcile(d.backendId, input.forward[d.backendId])
      && !(exists x :: x in input.inventory && x.managed && x.chromeId == input.forward[d.backendId] && InPlace(input, d, x))
    else if |cs| == 1 then op == Adopt(d.backendId, cs[0].chromeId)
    else op == Create(d.backendId)
  }

  // Identity cannot be decided: two candidates, or one that is mapped or wanted by another node as well.
  ghost predicate Undecided(input: Input, d: DesiredNode) {
    && d.backendId !in input.forward
    && var cs := Candidates(input, d, input.inventory);
       || |cs| > 1
       || (|cs| == 1 && cs[0].chromeId in input.forward.Values)
  }

  ghost predicate Contested(input: Input, d: DesiredNode, e: DesiredNode) {
    && d.backendId !in input.forward && e.backendId !in input.forward && d.backendId != e.backendId
    && var cs, es := Candidates(input, d, input.inventory), Candidates(input, e, input.inventory);
       |cs| == 1 && |es| == 1 && cs[0].chromeId == es[0].chromeId
  }

  ghost predicate Ambiguous(input: Input) {
    || (exists d :: d in input.desired && Undecided(input, d))
    || (exists d, e :: d in input.desired && e in input.desired && Contested(input, d, e))
  }

  ghost predicate Adopted(operations: seq<Operation>, c: Id) {
    exists op :: op in operations && op.Adopt? && op.chromeId == c
  }

  // The operations are exactly those asked for, one per asking node, and the deletion of every managed node
  // that is neither the root, mapped nor adopted.
  ghost predicate Exact(input: Input, operations: seq<Operation>) {
    && Distinct(operations)
    && (forall op | op in operations && !op.Delete? :: exists d :: d in input.desired && Asks(input, d, op))
    && (forall d, op | d in input.desired && Asks(input, d, op) :: op in operations)
    && (forall c :: Delete(c) in operations <==>
          IsManaged(input, c) && c != input.root && c !in input.forward.Values && !Adopted(operations, c))
  }

  ghost predicate Sound(input: Input, r: Outcome) {
    if !Bijection(input.forward, input.inverse) then r == Paused(MappingNotBijective, [])
    else if !IsManaged(input, input.root) then r == Paused(ManagedRootMissing, [])
    else if !MappingCurrent(input) then r == Paused(StaleMapping, [])
    else if Ambiguous(input) then r.Paused? && r.reason == IdentityAmbiguous
    else Exact(input, r.operations) && (if |r.operations| > MAX_OPERATIONS then r.Paused? && r.reason == OperationOverflow else r.Planned?)
  }

  // Nodes by backend id, then deletions by Chrome id.
  predicate Precedes(a: Operation, b: Operation) {
    if a.Delete? then b.Delete? && a.chromeId < b.chromeId else b.Delete? || a.backendId < b.backendId
  }

  predicate InOrder(operations: seq<Operation>) {
    forall i, j :: 0 <= i < j < |operations| ==> Precedes(operations[i], operations[j])
  }

  // ---------- what the plan means ----------

  // The node carries what the desired one should, and stands where it should: at the root, or under the image of its
  // parent.
  ghost predicate Twin(input: Input, d: DesiredNode, x: InventoryNode) {
    && x.content.kind == d.content.kind && x.content.title == d.content.title && x.content.url == d.content.url && x.content.position == d.content.position
    && (d.parent.None? ==> x.parent == Some(input.root))
    && (d.parent.Some? ==> d.parent.value in input.forward && x.parent == Some(input.forward[d.parent.value]))
  }

  lemma TwinIsInPlace(input: Input, d: DesiredNode, x: InventoryNode)
    ensures Twin(input, d, x) <==> Place(input, d).Some? && InPlace(input, d, x)
  {
  }

  // The two maps undo each other.
  ghost predicate TwoWay(input: Input) {
    && (forall b | b in input.forward :: input.forward[b] in input.inverse && input.inverse[input.forward[b]] == b)
    && (forall c | c in input.inverse :: input.inverse[c] in input.forward && input.forward[input.inverse[c]] == c)
  }

  /** The mapping is an isomorphism: it maps the desired nodes one to one onto the managed nodes other than
      the root, each with its content under the image of its parent. */
  ghost predicate Isomorphism(input: Input) {
    && TwoWay(input) && (exists x :: x in input.inventory && x.managed && x.chromeId == input.root) && input.root !in input.forward.Values
    && (forall b :: b in input.forward <==> exists d :: d in input.desired && d.backendId == b)
    && (forall c :: c in input.forward.Values || c == input.root <==> exists x :: x in input.inventory && x.managed && x.chromeId == c)
    && (forall d | d in input.desired && d.backendId in input.forward :: Imaged(input, d))
  }

  // The node it is mapped to is its twin.
  ghost predicate Imaged(input: Input, d: DesiredNode)
    requires d.backendId in input.forward
  {
    exists x :: x in input.inventory && x.managed && x.chromeId == input.forward[d.backendId] && Twin(input, d, x)
  }

  // The same in the planner's own words.
  ghost predicate Matched(input: Input) {
    && Bijection(input.forward, input.inverse) && IsManaged(input, input.root) && input.root !in input.forward.Values
    && (forall b :: b in input.forward <==> IsDesired(input, b))
    && (forall c :: c in input.forward.Values || c == input.root <==> IsManaged(input, c))
    && (forall d | d in input.desired && d.backendId in input.forward ::
          Place(input, d).Some? && exists x :: x in input.inventory && x.managed && x.chromeId == input.forward[d.backendId] && InPlace(input, d, x))
  }

  lemma ImagedIs(input: Input, d: DesiredNode)
    requires d.backendId in input.forward
    ensures Imaged(input, d) ==> Place(input, d).Some?
    ensures Imaged(input, d) <==>
            Place(input, d).Some? && exists x :: x in input.inventory && x.managed && x.chromeId == input.forward[d.backendId] && InPlace(input, d, x)
  {
    forall x ensures Twin(input, d, x) <==> Place(input, d).Some? && InPlace(input, d, x) {
      TwinIsInPlace(input, d, x);
    }
  }

  lemma MatchedIs(input: Input)
    ensures Matched(input) <==> Isomorphism(input)
  {
    assert forall b :: IsDesired(input, b) <==> exists d :: d in input.desired && d.backendId == b;
    assert forall c :: IsManaged(input, c) <==> exists x :: x in input.inventory && x.managed && x.chromeId == c;
    forall d | d in input.desired && d.backendId in input.forward
      ensures Imaged(input, d) <==> Place(input, d).Some? && exists x :: x in input.inventory && x.managed && x.chromeId == input.forward[d.backendId] && InPlace(input, d, x)
    {
      ImagedIs(input, d);
    }
    ImagedAll(input);
  }

  lemma ImagedAll(input: Input)
    requires forall d | d in input.desired && d.backendId in input.forward ::
               Imaged(input, d) <==> Place(input, d).Some? && exists x :: x in input.inventory && x.managed && x.chromeId == input.forward[d.backendId] && InPlace(input, d, x)
    ensures Matched(input) <==> Isomorphism(input)
  {
  }

  lemma SameDesired(input: Input, d: DesiredNode, e: DesiredNode)
    requires UniqueIds(input) && d in input.desired && e in input.desired && d.backendId == e.backendId
    ensures d == e
  {
    var i :| 0 <= i < |input.desired| && input.desired[i] == d;
    var j :| 0 <= j < |input.desired| && input.desired[j] == e;
    assert i == j;
  }

  // Every desired node that is unmapped, or mapped to a node out of place, asks for an operation.
  lemma SettledAsksNothing(input: Input, d: DesiredNode)
    ensures (exists op :: Asks(input, d, op)) <==>
            !(d.backendId in input.forward && exists x :: x in input.inventory && x.managed && x.chromeId == input.forward[d.backendId] && InPlace(input, d, x))
  {
    var cs := Candidates(input, d, input.inventory);
    if d.backendId !in input.forward {
      assert Asks(input, d, if |cs| == 1 then Adopt(d.backendId, cs[0].chromeId) else Create(d.backendId));
    } else if !(exists x :: x in input.inventory && x.managed && x.chromeId == input.forward[d.backendId] && InPlace(input, d, x)) {
      assert Asks(input, d, Reconcile(d.backendId, input.forward[d.backendId]));
    }
  }

  lemma EmptyPlanIsMatched(input: Input, r: Outcome)
    requires UniqueIds(input) && Sound(input, r) && r == Planned([])
    ensures Matched(input)
  {
    forall d | d in input.desired
      ensures d.backendId in input.forward && Place(input, d).Some?
      ensures exists x :: x in input.inventory && x.managed && x.chromeId == input.forward[d.backendId] && InPlace(input, d, x)
    {
      SettledAsksNothing(input, d);
      var e :| e in input.desired && e.backendId == d.backendId && Place(input, e).Some?;
      SameDesired(input, d, e);
    }
    forall b ensures b in input.forward <==> IsDesired(input, b) {
    }
    forall c ensures c in input.forward.Values || c == input.root <==> IsManaged(input, c) {
      assert Delete(c) !in r.operations;
    }
  }

  lemma MatchedPlansNothing(input: Input, r: Outcome)
    requires UniqueIds(input) && Sound(input, r) && Matched(input)
    ensures r == Planned([])
  {
    forall b | b in input.forward
      ensures input.forward[b] != input.root && IsManaged(input, input.forward[b])
      ensures exists d :: d in input.desired && d.backendId == b && Place(input, d).Some?
    {
      assert input.forward[b] in input.forward.Values;
    }
    forall d | d in input.desired ensures d.backendId in input.forward {
      assert IsDesired(input, d.backendId);
    }
    assert !Ambiguous(input);
    NoOperations(input, r.operations);
  }

  lemma NoOperations(input: Input, operations: seq<Operation>)
    requires Matched(input) && Exact(input, operations)
    requires forall d | d in input.desired :: d.backendId in input.forward
    ensures operations == []
  {
    forall d, op | d in input.desired ensures !Asks(input, d, op) {
      SettledAsksNothing(input, d);
    }
    forall c ensures Delete(c) !in operations {
    }
    forall op ensures op !in operations {
      assert op.Delete? ==> op == Delete(op.chromeId);
    }
    EmptyIfNothingIn(operations);
  }

  lemma EmptyIfNothingIn(operations: seq<Operation>)
    ensures operations == [] || exists op :: op in operations
  {
    if operations != [] {
      assert operations[0] in operations;
    }
  }

  /** The planner finds nothing to do exactly when the mapping is an isomorphism. */
  lemma NothingToDoIff(input: Input, r: Outcome)
    requires UniqueIds(input) && Sound(input, r)
    ensures r == Planned([]) <==> Isomorphism(input)
  {
    MatchedIs(input);
    if r == Planned([]) { EmptyPlanIsMatched(input, r); }
    if Matched(input) { MatchedPlansNothing(input, r); }
  }

  // An adopted node was not mapped, and one desired node only adopts it.
  lemma AdoptionIsExclusive(input: Input, r: Outcome, b: Id, c: Id)
    requires UniqueIds(input) && Sound(input, r) && r.Planned? && Adopt(b, c) in r.operations
    ensures c !in input.forward.Values && forall b2 | Adopt(b2, c) in r.operations :: b2 == b
  {
    var d :| d in input.desired && Asks(input, d, Adopt(b, c));
    assert !Undecided(input, d);
    forall b2 | Adopt(b2, c) in r.operations ensures b2 == b {
      var e :| e in input.desired && Asks(input, e, Adopt(b2, c));
      assert !Contested(input, d, e);
    }
  }

  /** When it does plan, every managed node but the root is exactly one of mapped, adopted or deleted, and
      every unmapped desired node gets exactly one operation. */
  lemma PlanPartitions(input: Input, r: Outcome, c: Id, d: DesiredNode)
    requires UniqueIds(input) && Sound(input, r) && r.Planned?
    ensures IsManaged(input, c) && c != input.root ==>
              var mapped, adopted, deleted := c in input.forward.Values, Adopted(r.operations, c), Delete(c) in r.operations;
              (mapped || adopted || deleted) && !(mapped && adopted) && !(mapped && deleted) && !(adopted && deleted)
    ensures d in input.desired && d.backendId !in input.forward ==>
              exists op :: op in r.operations && Asks(input, d, op)
                && forall other | other in r.operations && !other.Delete? && other.backendId == d.backendId :: other == op
  {
    if Adopted(r.operations, c) {
      var op :| op in r.operations && op.Adopt? && op.chromeId == c;
      AdoptionIsExclusive(input, r, op.backendId, c);
    }
    if d in input.desired && d.backendId !in input.forward {
      SettledAsksNothing(input, d);
      var op :| Asks(input, d, op);
      assert op in r.operations;
      forall other | other in r.operations && !other.Delete? && other.backendId == d.backendId ensures other == op {
        var e :| e in input.desired && Asks(input, e, other);
        SameDesired(input, d, e);
      }
    }
  }

  // ---------- operation by operation ----------

  // Managed, not the root, and a twin of the desired node.
  ghost predicate Adoptable(input: Input, d: DesiredNode, x: InventoryNode) {
    x in input.inventory && x.managed && x.chromeId != input.root && Twin(input, d, x)
  }

  lemma CandidatesAreAdoptable(input: Input, d: DesiredNode)
    ensures forall x :: x in Candidates(input, d, input.inventory) <==> Adoptable(input, d, x)
  {
    CandidatesAre(input, d, input.inventory);
    forall x ensures x in Candidates(input, d, input.inventory) <==> Adoptable(input, d, x) {
      TwinIsInPlace(input, d, x);
    }
  }

  // A mapped node is reconciled when the node it is mapped to is not its twin; an unmapped one adopts the twin there
  // is, and is created where there is none.
  ghost predicate AsksPlainly(input: Input, d: DesiredNode, op: Operation) {
    match op
    case Reconcile(b, c) => b == d.backendId && b in input.forward && c == input.forward[b] && !Imaged(input, d)
    case Adopt(b, c) => b == d.backendId && b !in input.forward && exists x :: Adoptable(input, d, x) && x.chromeId == c
    case Create(b) => b == d.backendId && b !in input.forward && !exists x :: Adoptable(input, d, x)
    case Delete(_) => false
  }

  lemma AskedIs(input: Input, d: DesiredNode, op: Operation)
    requires d in input.desired && !Undecided(input, d) && (d.backendId in input.forward ==> Current(input, d.backendId)) && UniqueIds(input)
    ensures Asks(input, d, op) <==> AsksPlainly(input, d, op)
  {
    if d.backendId in input.forward {
      var e :| e in input.desired && e.backendId == d.backendId && Place(input, e).Some?;
      SameDesired(input, d, e);
      forall x ensures Twin(input, d, x) <==> Place(input, d).Some? && InPlace(input, d, x) {
        TwinIsInPlace(input, d, x);
      }
    } else {
      CandidatesAreAdoptable(input, d);
      var cs := Candidates(input, d, input.inventory);
      if |cs| == 1 {
        assert cs[0] in cs && forall x :: x in cs <==> x == cs[0];
      } else {
        assert forall x :: x !in cs;
      }
    }
  }

  /** What a plan holds, on the nodes' own fields. */
  lemma PlannedIs(input: Input, r: Outcome, op: Operation)
    requires UniqueIds(input) && Sound(input, r) && r.Planned?
    ensures op in r.operations <==>
            match op
            case Delete(c) =>
              && (exists x :: x in input.inventory && x.managed && x.chromeId == c) && c != input.root && c !in input.forward.Values
              && !exists d, x :: d in input.desired && d.backendId !in input.forward && Adoptable(input, d, x) && x.chromeId == c
            case Reconcile(b, c) => exists d :: d in input.desired && d.backendId == b && b in input.forward && c == input.forward[b] && !Imaged(input, d)
            case Adopt(b, c) => exists d, x :: d in input.desired && d.backendId == b && b !in input.forward && Adoptable(input, d, x) && x.chromeId == c
            case Create(b) => exists d :: d in input.desired && d.backendId == b && b !in input.forward && !exists x :: Adoptable(input, d, x)
  {
    forall d, o | d in input.desired ensures Asks(input, d, o) <==> AsksPlainly(input, d, o) {
      AskedIs(input, d, o);
    }
    if op.Delete? {
      AdoptedIs(input, r.operations, op.chromeId);
    } else {
      assert op in r.operations <==> exists d :: d in input.desired && AsksPlainly(input, d, op);
    }
  }

  lemma AdoptedIs(input: Input, operations: seq<Operation>, c: Id)
    requires Exact(input, operations) && forall d, o | d in input.desired :: Asks(input, d, o) <==> AsksPlainly(input, d, o)
    ensures Adopted(operations, c) <==> exists d, x :: d in input.desired && d.backendId !in input.forward && Adoptable(input, d, x) && x.chromeId == c
  {
    if Adopted(operations, c) {
      var op :| op in operations && op.Adopt? && op.chromeId == c;
      var d :| d in input.desired && Asks(input, d, op);
    }
    if d, x :| d in input.desired && d.backendId !in input.forward && Adoptable(input, d, x) && x.chromeId == c {
      assert Asks(input, d, Adopt(d.backendId, c));
    }
  }

  lemma {:induction false} CandidatesDiffer(input: Input, d: DesiredNode, nodes: seq<InventoryNode>)
    requires forall i, j :: 0 <= i < j < |nodes| ==> nodes[i].chromeId != nodes[j].chromeId
    ensures Distinct(Candidates(input, d, nodes))
  {
    if nodes != [] {
      var n := |nodes| - 1;
      CandidatesDiffer(input, d, nodes[..n]);
      CandidatesAre(input, d, nodes[..n]);
      assert nodes[n] !in nodes[..n];
    }
  }

  // Nothing tells which node an unmapped desired one is: it has two twins to adopt, or one that is mapped, or one
  // that is another's as well.
  ghost predicate Unclear(input: Input, d: DesiredNode) {
    && d in input.desired && d.backendId !in input.forward
    && (|| (exists x, y :: x != y && Adoptable(input, d, x) && Adoptable(input, d, y))
        || (exists x :: Adoptable(input, d, x) && x.chromeId in input.forward.Values)
        || (exists e, x :: e in input.desired && e.backendId !in input.forward && e.backendId != d.backendId && Adoptable(input, d, x) && Adoptable(input, e, x)))
  }

  lemma UndecidedIs(input: Input, d: DesiredNode)
    requires UniqueIds(input) && d.backendId !in input.forward
    ensures var cs := Candidates(input, d, input.inventory);
            && (|cs| > 1 <==> exists x, y :: x != y && Adoptable(input, d, x) && Adoptable(input, d, y))
            && (|cs| == 1 ==> forall x :: Adoptable(input, d, x) <==> x == cs[0])
            && (|cs| == 0 ==> forall x :: !Adoptable(input, d, x))
  {
    var cs := Candidates(input, d, input.inventory);
    CandidatesDiffer(input, d, input.inventory);
    CandidatesAreAdoptable(input, d);
    if |cs| > 1 { assert cs[0] != cs[1] && cs[0] in cs && cs[1] in cs; }
    if |cs| == 1 { assert cs[0] in cs; }
  }

  lemma AmbiguousIs(input: Input)
    requires UniqueIds(input)
    ensures Ambiguous(input) <==> exists d :: Unclear(input, d)
  {
    forall d | d in input.desired && d.backendId !in input.forward ensures Undecided(input, d) ==> Unclear(input, d) {
      UndecidedIs(input, d);
    }
    forall d, e | d in input.desired && e in input.desired && Contested(input, d, e) ensures Unclear(input, d) {
      UndecidedIs(input, d);
      UndecidedIs(input, e);
      SameCandidate(input, d, e);
      var x := Candidates(input, d, input.inventory)[0];
      assert Adoptable(input, d, x) && Adoptable(input, e, x);
    }
    if d :| Unclear(input, d) {
      UndecidedIs(input, d);
      if !Undecided(input, d) {
        var e, x :| e in input.desired && e.backendId !in input.forward && e.backendId != d.backendId && Adoptable(input, d, x) && Adoptable(input, e, x);
        UndecidedIs(input, e);
        assert Undecided(input, e) || Contested(input, d, e);
      }
    }
  }

  // Two candidates with one Chrome id are one node.
  lemma SameCandidate(input: Input, d: DesiredNode, e: DesiredNode)
    requires UniqueIds(input) && Contested(input, d, e)
    ensures Candidates(input, d, input.inventory)[0] == Candidates(input, e, input.inventory)[0]
  {
    var x, y := Candidates(input, d, input.inventory)[0], Candidates(input, e, input.inventory)[0];
    CandidatesAre(input, d, input.inventory);
    CandidatesAre(input, e, input.inventory);
    assert x in Candidates(input, d, input.inventory) && y in Candidates(input, e, input.inventory);
    var i :| 0 <= i < |input.inventory| && input.inventory[i] == x;
    var j :| 0 <= j < |input.inventory| && input.inventory[j] == y;
  }

  // A mapped pair that is out of date: not a desired node under a mapped parent and a managed node below the root.
  ghost predicate Outdated(input: Input, b: Id)
    requires b in input.forward
  {
    || input.forward[b] == input.root
    || !(exists x :: x in input.inventory && x.managed && x.chromeId == input.forward[b])
    || !(exists d :: d in input.desired && d.backendId == b && (d.parent.Some? ==> d.parent.value in input.forward))
  }

  lemma OutdatedIs(input: Input)
    ensures MappingCurrent(input) <==> forall b | b in input.forward :: !Outdated(input, b)
  {
    forall b | b in input.forward ensures Current(input, b) <==> !Outdated(input, b) {
      CurrentIs(input, b);
    }
  }

  lemma CurrentIs(input: Input, b: Id)
    requires b in input.forward
    ensures Current(input, b) <==> !Outdated(input, b)
  {
    forall d ensures Place(input, d).Some? <==> (d.parent.Some? ==> d.parent.value in input.forward) {
    }
  }

  /** Why nothing is planned: the first of these that holds, and nothing else, pauses the planner. */
  lemma PausesIff(input: Input, r: Outcome)
    requires UniqueIds(input) && Sound(input, r)
    ensures var rooted := exists x :: x in input.inventory && x.managed && x.chromeId == input.root;
            var dated := exists b :: b in input.forward && Outdated(input, b);
            var unclear := exists d :: Unclear(input, d);
            && (!TwoWay(input) <==> r == Paused(MappingNotBijective, []))
            && (TwoWay(input) && !rooted <==> r == Paused(ManagedRootMissing, []))
            && (TwoWay(input) && rooted && dated <==> r == Paused(StaleMapping, []))
            && (TwoWay(input) && rooted && !dated && unclear <==> r.Paused? && r.reason == IdentityAmbiguous)
            && (TwoWay(input) && rooted && !dated && !unclear && |r.operations| > 500 <==> r.Paused? && r.reason == OperationOverflow)
            && (TwoWay(input) && rooted && !dated && !unclear && |r.operations| <= 500 <==> r.Planned?)
  {
    OutdatedIs(input);
    AmbiguousIs(input);
    assert IsManaged(input, input.root) <==> exists x :: x in input.inventory && x.managed && x.chromeId == input.root;
  }

  // An ordered list is known by its elements.
  lemma {:induction false} OrderedListIsUnique(a: seq<Operation>, b: seq<Operation>)
    requires InOrder(a) && InOrder(b) && forall op :: op in a <==> op in b
    ensures a == b
  {
    if a == [] || b == [] {
      EmptyOrInhabited(a);
      EmptyOrInhabited(b);
    } else {
      HeadPrecedes(a, b[0]);
      HeadPrecedes(b, a[0]);
      forall op ensures op in a[1..] <==> op in b[1..] {
        SameTails(a, b, op);
        SameTails(b, a, op);
      }
      OrderedListIsUnique(a[1..], b[1..]);
    }
  }

  lemma HeadPrecedes(a: seq<Operation>, op: Operation)
    requires InOrder(a) && op in a
    ensures op == a[0] || Precedes(a[0], op)
  {
  }

  lemma SameTails(a: seq<Operation>, b: seq<Operation>, op: Operation)
    requires InOrder(a) && a != [] && b != [] && a[0] == b[0] && (forall x | x in a :: x in b)
    ensures op in a[1..] ==> op in b[1..]
  {
    if op in a[1..] {
      var i :| 0 < i < |a| && a[i] == op;
      assert Precedes(a[0], a[i]);
      assert op in b && op != b[0];
    }
  }

  /** The input alone determines what is planned, operation by operation. */
  lemma PlanIsDetermined(input: Input, a: Outcome, b: Outcome)
    requires UniqueIds(input) && Sound(input, a) && Sound(input, b) && a.Planned? && InOrder(a.operations) && InOrder(b.operations)
    ensures a == b
  {
    OrderedListIsUnique(a.operations, b.operations);
  }

  // ---------- the algorithm ----------

  // Ascending by a key without repeats.
  method SortBy<T(==)>(s: seq<T>, key: T -> Id) returns (r: seq<T>)
    requires forall i, j :: 0 <= i < j < |s| ==> key(s[i]) != key(s[j])
    ensures |r| == |s| && (forall x :: x in r <==> x in s)
    ensures forall i, j :: 0 <= i < j < |r| ==> key(r[i]) < key(r[j])
  {
    r := [];
    for n := 0 to |s|
      invariant |r| == n && (forall x :: x in r <==> x in s[..n])
      invariant forall i, j :: 0 <= i < j < |r| ==> key(r[i]) < key(r[j])
    {
      var at := 0;
      while at < |r| && key(r[at]) < key(s[n])
        invariant 0 <= at <= |r|
        invariant forall i :: 0 <= i < at ==> key(r[i]) < key(s[n])
      {
        at := at + 1;
      }
      forall i | at <= i < |r| ensures key(s[n]) < key(r[i]) {
        assert r[at] in r;
        var k :| 0 <= k < n && s[..n][k] == r[at];
        assert key(s[k]) != key(s[n]);
      }
      r := Inserted(r, s[n], at);
      assert s[..n + 1] == s[..n] + [s[n]];
    }
    assert s[..|s|] == s;
  }

  // The first k nodes in order are decided and their operations collected.
  ghost predicate Collected(input: Input, order: seq<DesiredNode>, k: nat, operations: seq<Operation>)
    requires k <= |order|
  {
    && Distinct(operations)
    && (forall i | 0 <= i < k :: !Undecided(input, order[i]))
    && (forall i, j | 0 <= i < k && 0 <= j < k :: !Contested(input, order[i], order[j]))
    && InOrder(operations)
    && (forall op | op in operations :: !op.Delete? && AskedBefore(input, order, k, op))
    && (forall i, op | 0 <= i < k && Asks(input, order[i], op) :: op in operations)
  }

  ghost predicate AskedBefore(input: Input, order: seq<DesiredNode>, k: nat, op: Operation)
    requires k <= |order|
  {
    exists i :: 0 <= i < k && Asks(input, order[i], op)
  }

  ghost predicate Ordered(order: seq<DesiredNode>) {
    forall i, j :: 0 <= i < j < |order| ==> order[i].backendId < order[j].backendId
  }

  lemma SilentNext(input: Input, order: seq<DesiredNode>, k: nat, operations: seq<Operation>)
    requires k < |order| && Collected(input, order, k, operations) && order[k].backendId in input.forward
    requires forall op :: !Asks(input, order[k], op)
    ensures Collected(input, order, k + 1, operations)
  {
    forall op | op in operations ensures AskedBefore(input, order, k + 1, op) {
      assert AskedBefore(input, order, k, op);
    }
  }

  // A decided node's operation is new, and the node contests with none before it.
  lemma CollectedNext(input: Input, order: seq<DesiredNode>, k: nat, operations: seq<Operation>, op: Operation)
    requires Ordered(order) && k < |order| && Collected(input, order, k, operations)
    requires Asks(input, order[k], op) && !Undecided(input, order[k]) && (op.Adopt? ==> !Adopted(operations, op.chromeId))
    ensures Collected(input, order, k + 1, operations + [op])
  {
    var after := operations + [op];
    forall i | 0 <= i < k ensures !Contested(input, order[i], order[k]) && !Contested(input, order[k], order[i]) {
    }
    assert op in operations ==> AskedBefore(input, order, k, op);
    assert op !in operations;
    forall i | 0 <= i < |operations| ensures Precedes(operations[i], op) {
      assert AskedBefore(input, order, k, operations[i]);
    }
    forall x | x in after ensures !x.Delete? && AskedBefore(input, order, k + 1, x) {
      if x in operations { assert AskedBefore(input, order, k, x); } else { assert Asks(input, order[k], x); }
    }
    forall i, x | 0 <= i < k + 1 && Asks(input, order[i], x) ensures x in after {
      if i == k { assert x == op; }
    }
  }

  // A candidate already claimed leaves the identity open.
  lemma ClaimedIsAmbiguous(input: Input, order: seq<DesiredNode>, k: nat, operations: seq<Operation>, c: Id)
    requires Ordered(order) && k < |order| && Collected(input, order, k, operations) && order[k].backendId !in input.forward
    requires forall d | d in order :: d in input.desired
    requires var cs := Candidates(input, order[k], input.inventory); |cs| == 1 && cs[0].chromeId == c
    requires c in input.forward.Values || Adopted(operations, c)
    ensures Ambiguous(input)
  {
    var d := order[k];
    assert d in input.desired;
    if c in input.forward.Values {
      assert Undecided(input, d);
    } else {
      var op :| op in operations && op.Adopt? && op.chromeId == c;
      assert AskedBefore(input, order, k, op);
      var i :| 0 <= i < k && Asks(input, order[i], op);
      assert Contested(input, d, order[i]);
      assert order[i] in input.desired;
    }
  }

  lemma CollectedAll(input: Input, order: seq<DesiredNode>, operations: seq<Operation>)
    requires Collected(input, order, |order|, operations) && forall d :: d in order <==> d in input.desired
    ensures !Ambiguous(input)
    ensures forall op | op in operations :: !op.Delete? && exists d :: d in input.desired && Asks(input, d, op)
    ensures forall d, op | d in input.desired && Asks(input, d, op) :: op in operations
  {
    forall d | d in input.desired ensures exists i :: 0 <= i < |order| && order[i] == d {
      assert d in order;
    }
    forall op | op in operations ensures !op.Delete? && exists d :: d in input.desired && Asks(input, d, op) {
      assert AskedBefore(input, order, |order|, op);
      var i :| 0 <= i < |order| && Asks(input, order[i], op);
      assert order[i] in order;
    }
  }

  // Appending the deletions of what nobody claimed completes the plan.
  lemma DeletionsComplete(input: Input, operations: seq<Operation>, left: seq<Id>)
    requires Distinct(operations) && InOrder(operations) && forall i, j :: 0 <= i < j < |left| ==> left[i] < left[j]
    requires forall op | op in operations :: !op.Delete? && exists d :: d in input.desired && Asks(input, d, op)
    requires forall d, op | d in input.desired && Asks(input, d, op) :: op in operations
    requires forall c :: c in left <==> IsManaged(input, c) && c != input.root && c !in input.forward.Values && !Adopted(operations, c)
    ensures Exact(input, operations + Deletions(left)) && InOrder(operations + Deletions(left))
  {
    var all := operations + Deletions(left);
    forall i, j | 0 <= i < j < |all| ensures Precedes(all[i], all[j]) {
      if i < |operations| { assert all[i] == operations[i] && operations[i] in operations; }
    }
    forall c ensures Delete(c) in all <==> c in left {
      if c in left {
        var i :| 0 <= i < |left| && left[i] == c;
        assert Deletions(left)[i] == Delete(c);
      }
    }
    forall c ensures Adopted(all, c) <==> Adopted(operations, c) {
      if Adopted(operations, c) {
        var op :| op in operations && op.Adopt? && op.chromeId == c;
        assert op in all;
      }
    }
    forall i, j | 0 <= i < j < |all| ensures all[i] != all[j] {
      if i < |operations| <= j {
        assert all[i] in operations;
      }
    }
    forall d, op | d in input.desired && Asks(input, d, op) ensures op in all {
      assert op in operations;
    }
  }

  function Deletions(left: seq<Id>): (r: seq<Operation>)
    ensures |r| == |left| && forall i :: 0 <= i < |left| ==> r[i] == Delete(left[i])
  {
    seq(|left|, i requires 0 <= i < |left| => Delete(left[i]))
  }

  // The operation for one node, with the choice among its candidates; None pauses the plan.
  method Decide(input: Input, d: DesiredNode, claimed: set<Id>) returns (ambiguous: bool, operation: Option<Operation>)
    requires d.backendId in input.forward ==> Current(input, d.backendId)
    ensures ambiguous ==>
              (&& operation.None? && d.backendId !in input.forward
               && var cs := Candidates(input, d, input.inventory); |cs| > 1 || (|cs| == 1 && cs[0].chromeId in claimed))
    ensures !ambiguous && operation.Some? ==> Asks(input, d, operation.value) && (operation.value.Adopt? ==> operation.value.chromeId !in claimed)
    ensures !ambiguous && operation.None? ==> d.backendId in input.forward && forall op :: !Asks(input, d, op)
    ensures !ambiguous && d.backendId !in input.forward ==> |Candidates(input, d, input.inventory)| <= 1
  {
    ambiguous, operation := false, None;
    if d.backendId in input.forward {
      var chromeId := input.forward[d.backendId];
      if !(exists x :: x in input.inventory && x.managed && x.chromeId == chromeId && InPlace(input, d, x)) {
        operation := Some(Reconcile(d.backendId, chromeId));
      }
      return;
    }
    var candidates := Candidates(input, d, input.inventory);
    if |candidates| > 1 || (|candidates| == 1 && candidates[0].chromeId in claimed) {
      ambiguous := true;
      return;
    }
    operation := Some(if |candidates| == 1 then Adopt(d.backendId, candidates[0].chromeId) else Create(d.backendId));
  }

  method CheckMapping(input: Input) returns (current: bool)
    ensures current <==> MappingCurrent(input)
  {
    var rest := input.forward.Keys;
    while rest != {}
      invariant rest <= input.forward.Keys
      invariant forall b | b in input.forward.Keys - rest :: Current(input, b)
      decreases rest
    {
      var b :| b in rest;
      if !Current(input, b) { return false; }
      rest := rest - {b};
    }
    return true;
  }

  // The managed nodes nobody claimed, by Chrome id.
  method Unclaimed(input: Input, claimed: set<Id>) returns (left: seq<Id>)
    requires UniqueIds(input)
    ensures forall i, j :: 0 <= i < j < |left| ==> left[i] < left[j]
    ensures forall c :: c in left <==> IsManaged(input, c) && c !in claimed
  {
    var nodes: seq<InventoryNode> := [];
    for i := 0 to |input.inventory|
      invariant forall x :: x in nodes <==> x in input.inventory[..i] && x.managed && x.chromeId !in claimed
      invariant forall k, l :: 0 <= k < l < |nodes| ==> nodes[k].chromeId != nodes[l].chromeId
    {
      var x := input.inventory[i];
      assert input.inventory[..i + 1] == input.inventory[..i] + [x];
      forall y | y in nodes ensures y.chromeId != x.chromeId {
        var k :| 0 <= k < i && input.inventory[..i][k] == y;
        assert input.inventory[k].chromeId != x.chromeId;
      }
      if x.managed && x.chromeId !in claimed { nodes := nodes + [x]; }
    }
    assert input.inventory[..|input.inventory|] == input.inventory;
    var sorted := SortBy(nodes, (x: InventoryNode) => x.chromeId);
    left := seq(|sorted|, i requires 0 <= i < |sorted| => sorted[i].chromeId);
    forall c ensures c in left <==> IsManaged(input, c) && c !in claimed {
      if IsManaged(input, c) && c !in claimed {
        var x :| x in input.inventory && x.managed && x.chromeId == c;
        assert x in sorted;
        var i :| 0 <= i < |sorted| && sorted[i] == x;
        assert left[i] == c;
      }
      if c in left {
        var i :| 0 <= i < |left| && left[i] == c;
        assert sorted[i] in sorted;
      }
    }
  }

  method Plan(input: Input) returns (r: Outcome)
    requires UniqueIds(input)
    ensures Sound(input, r) && InOrder(r.operations)
  {
    if !Bijection(input.forward, input.inverse) { return Paused(MappingNotBijective, []); }
    if !IsManaged(input, input.root) { return Paused(ManagedRootMissing, []); }
    var current := CheckMapping(input);
    if !current { return Paused(StaleMapping, []); }
    var operations: seq<Operation> := [];
    var claimed := {input.root} + input.forward.Values;
    var order := SortBy(input.desired, (d: DesiredNode) => d.backendId);
    for k := 0 to |order|
      invariant Collected(input, order, k, operations)
      invariant forall c :: c in claimed <==> c == input.root || c in input.forward.Values || Adopted(operations, c)
    {
      var d := order[k];
      var ambiguous, operation := Decide(input, d, claimed);
      if ambiguous {
        AmbiguousNode(input, order, k, operations, claimed);
        return Paused(IdentityAmbiguous, operations);
      }
      if operation.Some? {
        DecidedNode(input, order, k, operations, operation.value, claimed);
        if operation.value.Adopt? { claimed := claimed + {operation.value.chromeId}; }
        operations := operations + [operation.value];
      } else {
        SilentNext(input, order, k, operations);
      }
    }
    CollectedAll(input, order, operations);
    var left := Unclaimed(input, claimed);
    DeletionsComplete(input, operations, left);
    operations := operations + Deletions(left);
    if |operations| > MAX_OPERATIONS { return Paused(OperationOverflow, operations); }
    return Planned(operations);
  }

  lemma CandidateIsNotRoot(input: Input, d: DesiredNode)
    ensures var cs := Candidates(input, d, input.inventory); |cs| == 1 ==> cs[0].chromeId != input.root
  {
    CandidatesAre(input, d, input.inventory);
    var cs := Candidates(input, d, input.inventory);
    assert |cs| == 1 ==> cs[0] in cs;
  }

  lemma AmbiguousNode(input: Input, order: seq<DesiredNode>, k: nat, operations: seq<Operation>, claimed: set<Id>)
    requires Ordered(order) && k < |order| && Collected(input, order, k, operations) && order[k].backendId !in input.forward
    requires forall d | d in order :: d in input.desired
    requires forall c | c in claimed :: c == input.root || c in input.forward.Values || Adopted(operations, c)
    requires var cs := Candidates(input, order[k], input.inventory); |cs| > 1 || (|cs| == 1 && cs[0].chromeId in claimed)
    ensures Ambiguous(input)
  {
    var d := order[k];
    assert d in order;
    var cs := Candidates(input, d, input.inventory);
    if |cs| > 1 {
      assert Undecided(input, d);
    } else {
      CandidateIsNotRoot(input, d);
      ClaimedIsAmbiguous(input, order, k, operations, cs[0].chromeId);
    }
  }

  lemma DecidedNode(input: Input, order: seq<DesiredNode>, k: nat, operations: seq<Operation>, op: Operation, claimed: set<Id>)
    requires Ordered(order) && k < |order| && Collected(input, order, k, operations) && Asks(input, order[k], op)
    requires forall c :: c in claimed <==> c == input.root || c in input.forward.Values || Adopted(operations, c)
    requires op.Adopt? ==> op.chromeId !in claimed
    requires order[k].backendId !in input.forward ==> |Candidates(input, order[k], input.inventory)| <= 1
    ensures Collected(input, order, k + 1, operations + [op])
  {
    CollectedNext(input, order, k, operations, op);
  }
}
