/** A remote upsert of a node the extension already has: the receipt written before Chrome is touched, the
    callbacks Chrome then raises, and what they do to the journal. */
module Echoes {
  import opened Common
  import opened ForestView
  import J = Journal

  // Where a node stands and what it carries.
  datatype Spot = Spot(parent: Id, index: int, caption: Label)

  // Who the node is: its workspace, its two ids and its kind.
  datatype Node = Node(workspace: Id, backend: Id, chrome: Id, kind: J.Kind)

  function UrlOf(caption: Label): Option<string> {
    match caption case FolderLabel(_) => None case BookmarkLabel(_, url) => Some(url)
  }

  function ShapeOf(s: Spot): J.Shape {
    J.Shape(Some(s.parent), Some(s.index), s.caption.title, UrlOf(s.caption))
  }

  predicate Moves(from: Spot, to: Spot) {
    from.parent != to.parent || from.index != to.index
  }

  predicate Retitles(from: Spot, to: Spot) {
    from.caption != to.caption
  }

  function MoveOf(from: Spot, to: Spot): J.Move {
    J.Move(from.parent, from.index, to.parent, to.index)
  }

  // One receipt for the whole effect; it carries a move whenever the node moves.
  function ReceiptFor(node: Node, cursor: int, from: Spot, to: Spot): J.Receipt {
    J.Receipt(node.workspace, node.backend, node.chrome, node.kind, ShapeOf(from), ShapeOf(to), 0, cursor,
              [ShapeOf(from), ShapeOf(to)], true, if Moves(from, to) then Some(MoveOf(from, to)) else None)
  }

  // A callback, and what its handler finds when it reads the node once more to capture a local change.
  datatype Echo = Echo(callback: J.Callback, again: J.Shape)

  // The title is written first. seen, again: where the two reads of its callback find the node.
  function ChangedEcho(node: Node, seen: Spot, again: Spot): Echo {
    Echo(J.Callback(false, node.workspace, node.backend, node.chrome, node.kind, ShapeOf(seen), None), ShapeOf(again))
  }

  function MovedEcho(node: Node, from: Spot, to: Spot): Echo {
    Echo(J.Callback(true, node.workspace, node.backend, node.chrome, node.kind, ShapeOf(to), Some(MoveOf(from, to))), ShapeOf(to))
  }

  function EchoesOf(node: Node, from: Spot, to: Spot, seen: Spot, again: Spot): seq<Echo> {
    (if Retitles(from, to) then [ChangedEcho(node, seen, again)] else []) + (if Moves(from, to) then [MovedEcho(node, from, to)] else [])
  }

  // The change the handler takes the callback for when it does not consume a receipt.
  function Mistaken(c: Echo): J.Payload {
    J.PayloadOf(c.callback.(node := c.again))
  }

  // handleBookmarkChanged and handleBookmarkMoved: a callback that does not fit the pending receipt gates the
  // workspace, and like one that nothing is pending for it is then captured as a change of the user's own.
  function Handled(j: J.Journal, c: Echo, canonical: string -> string): J.Journal {
    var (k, disposed) := J.ReduceCallback(j, c.callback, canonical);
    match disposed
    case Consumption => k
    case Rejection(cursor) => J.Capture(J.Gate(k, cursor, J.FinalVerificationFailed), Mistaken(c))
    case NewIntent => J.Capture(k, Mistaken(c))
  }

  function HandledAll(j: J.Journal, cs: seq<Echo>, canonical: string -> string): J.Journal
    decreases |cs|
  {
    if cs == [] then j else HandledAll(Handled(j, cs[0], canonical), cs[1..], canonical)
  }

  // Nothing is pending and nothing stops the next event.
  ghost predicate OpenGate(j: J.Journal) {
    j.phase != J.Paused && J.Pending(j.receipts) == []
  }

  ghost predicate Belongs(c: Echo, node: Node) {
    c.callback.workspace == node.workspace && c.callback.backend == node.backend && c.callback.chrome == node.chrome && c.callback.kind == node.kind
  }

  // ---------- one receipt ----------

  // With the gate open the receipt is written, and is the only one pending.
  lemma PersistedAlone(j: J.Journal, node: Node, cursor: int, from: Spot, to: Spot)
    requires OpenGate(j)
    ensures var k := J.Persist(j, ReceiptFor(node, cursor, from, to));
            && J.Pending(k.receipts) == [ReceiptFor(node, cursor, from, to)] && k.phase == j.phase && k.intents == j.intents
            && |J.PruneReceipts(j.receipts)| < J.MAX_RECEIPTS
  {
    var rs := J.PruneReceipts(j.receipts);
    J.PruneKeeps(j.receipts);
    J.PendingMembers(rs);
    J.PendingSnoc(rs, ReceiptFor(node, cursor, from, to));
    J.AllConsumed(rs);
  }

  // A callback of the node either confirms the one pending receipt, or is rejected and captured.
  lemma OneEcho(j: J.Journal, node: Node, r: J.Receipt, c: Echo, canonical: string -> string)
    requires J.Pending(j.receipts) == [r] && Belongs(c, node)
    requires r.workspace == node.workspace && r.backend == node.backend && r.chrome == node.chrome && r.kind == node.kind
    ensures var k := Handled(j, c, canonical);
            && (J.Confirms(r, c.callback, canonical) ==>
                  k.phase == j.phase && J.Pending(k.receipts) == [] && k.intents == j.intents && k.disposition == j.disposition && k.pauseReason == j.pauseReason)
            && (!J.Confirms(r, c.callback, canonical) ==>
                  && k.phase == J.Paused && J.Pending(k.receipts) == [r] && k.disposition == Some(J.Retry)
                  && k.intents == J.Capture(j, Mistaken(c)).intents && k.pauseReason in {Some(J.FinalVerificationFailed), Some(J.IntentOverflow)})
  {
    assert J.Pending(j.receipts)[0] == r;
    J.PendingMembers(j.receipts);
    assert r in J.Pending(j.receipts);
    J.PendingFound(j, c.callback, canonical);
    var i := J.FirstPending(j.receipts, c.callback);
    assert j.receipts[i] in j.receipts && j.receipts[i] in J.Pending(j.receipts);
    assert j.receipts[i] == r;
    if J.Confirms(r, c.callback, canonical) {
      var k := J.ConsumingOne(j.receipts, i);
    }
  }

  // A callback nothing is pending for is taken for a change of the user's own.
  lemma StrayEcho(j: J.Journal, c: Echo, canonical: string -> string)
    requires J.Pending(j.receipts) == []
    ensures Handled(j, c, canonical) == J.Capture(J.Capture(j, J.PayloadOf(c.callback)), Mistaken(c))
  {
    J.PendingMembers(j.receipts);
    forall r | r in j.receipts ensures !r.pending {
      assert r in j.receipts && r.pending ==> r in J.Pending(j.receipts);
    }
    assert J.FirstPending(j.receipts, c.callback) == |j.receipts|;
  }

  lemma CapturedIsOwed(j: J.Journal, p: J.Payload)
    requires !J.Intended(j.intents, p) || J.Owed(j.intents, p)
    ensures J.Owed(J.Capture(j, p).intents, p)
  {
    if !J.Intended(j.intents, p) {
      var k := J.MakeRoom(j.intents) + [J.Intent(p, J.Queued)];
      assert J.Capture(j, p).intents == k && k[|k| - 1] in k;
    }
  }

  // ---------- the whole effect ----------

  // What an undisturbed end of an effect looks like: its receipt consumed, nothing gated, nothing captured.
  ghost predicate Settled(j: J.Journal, k: J.Journal) {
    k.phase == j.phase && k.intents == j.intents && J.Pending(k.receipts) == []
  }

  lemma SingleEcho(j: J.Journal, node: Node, cursor: int, from: Spot, to: Spot, seen: Spot, again: Spot, canonical: string -> string)
    requires OpenGate(j) && (Moves(from, to) != Retitles(from, to)) && (!Moves(from, to) ==> seen == to)
    ensures Settled(j, HandledAll(J.Persist(j, ReceiptFor(node, cursor, from, to)), EchoesOf(node, from, to, seen, again), canonical))
  {
    var r := ReceiptFor(node, cursor, from, to);
    var k := J.Persist(j, r);
    var cs := EchoesOf(node, from, to, seen, again);
    PersistedAlone(j, node, cursor, from, to);
    assert cs == [cs[0]];
    OneHandled(k, cs[0], canonical);
    OneEcho(k, node, r, cs[0], canonical);
  }

  lemma OneHandled(j: J.Journal, c: Echo, canonical: string -> string)
    ensures HandledAll(j, [c], canonical) == Handled(j, c, canonical)
  {
    assert [c][1..] == [];
  }

  // In whichever order the two callbacks of one effect come.
  function Arriving(cs: seq<Echo>, swapped: bool): seq<Echo> {
    if swapped && |cs| == 2 then [cs[1], cs[0]] else cs
  }

  lemma TwoHandled(j: J.Journal, a: Echo, b: Echo, canonical: string -> string)
    ensures HandledAll(j, [a, b], canonical) == Handled(Handled(j, a, canonical), b, canonical)
  {
    assert [a, b][1..] == [b] && [b][1..] == [];
    assert HandledAll(j, [a, b], canonical) == HandledAll(Handled(j, a, canonical), [b], canonical);
    assert HandledAll(Handled(j, a, canonical), [b], canonical) == HandledAll(Handled(Handled(j, a, canonical), b, canonical), [], canonical);
  }

  // Moved and retitled: the receipt is consumed by the moving callback, and the retitling one is captured. If it
  // comes first the workspace is gated as well.
  lemma BothEchoes(j: J.Journal, node: Node, cursor: int, from: Spot, to: Spot, seen: Spot, again: Spot, swapped: bool, canonical: string -> string)
    requires OpenGate(j) && Moves(from, to) && Retitles(from, to)
    requires !J.Intended(j.intents, Mistaken(ChangedEcho(node, seen, again)))
    ensures var k := HandledAll(J.Persist(j, ReceiptFor(node, cursor, from, to)), Arriving(EchoesOf(node, from, to, seen, again), swapped), canonical);
            J.Pending(k.receipts) == [] && J.Owed(k.intents, Mistaken(ChangedEcho(node, seen, again))) && (!swapped ==> k.phase == J.Paused)
  {
    var r := ReceiptFor(node, cursor, from, to);
    var k := J.Persist(j, r);
    var c, m := ChangedEcho(node, seen, again), MovedEcho(node, from, to);
    PersistedAlone(j, node, cursor, from, to);
    assert EchoesOf(node, from, to, seen, again) == [c, m];
    if swapped {
      TwoHandled(k, m, c, canonical);
      MovedFirst(k, node, r, c, m, canonical);
    } else {
      TwoHandled(k, c, m, canonical);
      RetitledFirst(k, node, r, c, m, canonical);
    }
  }

  lemma RetitledFirst(k: J.Journal, node: Node, r: J.Receipt, c: Echo, m: Echo, canonical: string -> string)
    requires J.Pending(k.receipts) == [r] && Belongs(c, node) && Belongs(m, node)
    requires r.workspace == node.workspace && r.backend == node.backend && r.chrome == node.chrome && r.kind == node.kind
    requires !J.Confirms(r, c.callback, canonical) && J.Confirms(r, m.callback, canonical)
    ensures var g := Handled(Handled(k, c, canonical), m, canonical);
            && J.Pending(g.receipts) == [] && g.phase == J.Paused && g.disposition == Some(J.Retry)
            && g.intents == J.Capture(k, Mistaken(c)).intents && g.pauseReason in {Some(J.FinalVerificationFailed), Some(J.IntentOverflow)}
            && (!J.Intended(k.intents, Mistaken(c)) ==> J.Owed(g.intents, Mistaken(c)))
  {
    OneEcho(k, node, r, c, canonical);
    if !J.Intended(k.intents, Mistaken(c)) { CapturedIsOwed(k, Mistaken(c)); }
    OneEcho(Handled(k, c, canonical), node, r, m, canonical);
  }

  lemma MovedFirst(k: J.Journal, node: Node, r: J.Receipt, c: Echo, m: Echo, canonical: string -> string)
    requires J.Pending(k.receipts) == [r] && Belongs(m, node)
    requires r.workspace == node.workspace && r.backend == node.backend && r.chrome == node.chrome && r.kind == node.kind
    requires J.Confirms(r, m.callback, canonical) && !J.Intended(k.intents, Mistaken(c))
    ensures var g := Handled(Handled(k, m, canonical), c, canonical); J.Pending(g.receipts) == [] && J.Owed(g.intents, Mistaken(c))
  {
    OneEcho(k, node, r, m, canonical);
    var g := Handled(k, m, canonical);
    StrayEcho(g, c, canonical);
    StrayIsOwed(g, c);
  }

  lemma StrayIsOwed(j: J.Journal, c: Echo)
    requires !J.Intended(j.intents, Mistaken(c))
    ensures J.Owed(J.Capture(J.Capture(j, J.PayloadOf(c.callback)), Mistaken(c)).intents, Mistaken(c))
  {
    var k := J.Capture(j, J.PayloadOf(c.callback));
    J.MakeRoomKeeps(j.intents);
    if J.PayloadOf(c.callback) == Mistaken(c) { CapturedIsOwed(j, Mistaken(c)); }
    CapturedIsOwed(k, Mistaken(c));
  }

  /** An effect on a node the extension already has ends undisturbed if and only if it does not both move and
      retitle the node. */
  lemma EffectSettlesIff(j: J.Journal, node: Node, cursor: int, from: Spot, to: Spot, seen: Spot, again: Spot, swapped: bool, canonical: string -> string)
    requires OpenGate(j) && (Moves(from, to) || Retitles(from, to))
    requires !Moves(from, to) ==> seen == to
    requires !J.Intended(j.intents, Mistaken(ChangedEcho(node, seen, again)))
    ensures var k := HandledAll(J.Persist(j, ReceiptFor(node, cursor, from, to)), Arriving(EchoesOf(node, from, to, seen, again), swapped), canonical);
            Settled(j, k) <==> !(Moves(from, to) && Retitles(from, to))
  {
    if Moves(from, to) && Retitles(from, to) {
      BothEchoes(j, node, cursor, from, to, seen, again, swapped, canonical);
    } else {
      SingleEcho(j, node, cursor, from, to, seen, again, canonical);
    }
  }

  /** The extension then owes the server its own echo: a change of the new title as the handler found the node is
      owed afterwards if and only if the effect both moves and retitles. */
  lemma EchoIsOwedIff(j: J.Journal, node: Node, cursor: int, from: Spot, to: Spot, seen: Spot, again: Spot, swapped: bool, canonical: string -> string)
    requires OpenGate(j) && (Moves(from, to) || Retitles(from, to))
    requires !Moves(from, to) ==> seen == to
    requires !J.Intended(j.intents, Mistaken(ChangedEcho(node, seen, again)))
    ensures var k := HandledAll(J.Persist(j, ReceiptFor(node, cursor, from, to)), Arriving(EchoesOf(node, from, to, seen, again), swapped), canonical);
            J.Owed(k.intents, Mistaken(ChangedEcho(node, seen, again))) <==> Moves(from, to) && Retitles(from, to)
  {
    if Moves(from, to) && Retitles(from, to) {
      BothEchoes(j, node, cursor, from, to, seen, again, swapped, canonical);
    } else {
      SingleEcho(j, node, cursor, from, to, seen, again, canonical);
    }
  }
}
