/** The convergence journal: receipts of remote effects, intents of local changes, operations and pauses,
    and the reducers that move it. */
module Journal {
  import opened Common

  datatype Phase = PlanPhase | Apply | Replay | Live | Paused

  datatype Reason =
    | AmbiguousOperation | IdentityAmbiguous | MappingNotBijective | ManagedRootMissing | StaleMapping
    | OperationOverflow | IntentOverflow | CursorZeroReadFailed | ReceiptOverflow | ReceiptCapacity
    | DurableWriteFailed | CompleteNodeReadFailed | FinalVerificationFailed | ChromeEffectRejected
    | AmbiguousPredecessor | BootstrapRequired

  datatype Disposition = Retry | Rebuild

  datatype OperationStatus = Planned | Started | Done
  datatype Operation = Operation(id: Id, status: OperationStatus)

  datatype Shape = Shape(parent: Option<Id>, index: Option<int>, title: string, url: Option<string>)
  datatype Move = Move(oldParent: Id, oldIndex: int, parent: Id, index: int)
  datatype Kind = Folder | Bookmark

  // A shape's signature is an injective encoding of the shape, so signatures are shapes.
  datatype Receipt = Receipt(workspace: Id, backend: Id, chrome: Id, kind: Kind, before: Shape, expectedAfter: Shape,
                             eventId: Id, cursor: int, signatures: seq<Shape>, pending: bool, move: Option<Move>)

  // An intent's event id is an injective encoding of its payload, so payloads stand for ids.
  datatype Payload = Payload(workspace: Id, backend: Id, chrome: Id, entity: Kind, kind: string, node: Shape)
  datatype IntentStatus = Queued | Sent | Acked
  datatype Intent = Intent(payload: Payload, status: IntentStatus)

  datatype Journal = Journal(phase: Phase, operations: seq<Operation>, receipts: seq<Receipt>, intents: seq<Intent>,
                             pauseReason: Option<Reason>, failedCursor: Option<int>, disposition: Option<Disposition>)

  const MAX_OPERATIONS := 500
  const MAX_RECEIPTS := 100
  const MAX_INTENTS := 100
  const KEPT_CONSUMED := 20

  function Pause(j: Journal, reason: Reason): Journal {
    j.(phase := Paused, pauseReason := Some(reason))
  }

  function Pending(rs: seq<Receipt>): seq<Receipt> {
    if rs == [] then [] else (if rs[0].pending then [rs[0]] else []) + Pending(rs[1..])
  }

  function Consumed(rs: seq<Receipt>): seq<Receipt> {
    if rs == [] then [] else (if rs[0].pending then [] else [rs[0]]) + Consumed(rs[1..])
  }

  // The receipts without the first n consumed ones.
  function DropConsumed(rs: seq<Receipt>, n: int): seq<Receipt> {
    if rs == [] then []
    else if !rs[0].pending && n > 0 then DropConsumed(rs[1..], n - 1)
    else [rs[0]] + DropConsumed(rs[1..], n)
  }

  function PruneReceipts(rs: seq<Receipt>): seq<Receipt> {
    DropConsumed(rs, |Consumed(rs)| - KEPT_CONSUMED)
  }

  predicate ValidReceipt(r: Receipt) {
    |r.signatures| >= 2 && r.signatures[0] == r.before && r.signatures[1] == r.expectedAfter
  }

  predicate HasStarted(j: Journal) {
    exists op :: op in j.operations && op.status == Started
  }

  predicate AllValid(rs: seq<Receipt>) {
    forall r | r in rs :: ValidReceipt(r)
  }

  // normalizeJournal, on every load.
  function Normalize(j: Journal): Journal {
    if |j.operations| > MAX_OPERATIONS then Pause(j, OperationOverflow)
    else
      var k := j.(receipts := PruneReceipts(j.receipts));
      if |k.receipts| > MAX_RECEIPTS then Pause(k, ReceiptOverflow)
      else if |k.intents| > MAX_INTENTS then Pause(k, IntentOverflow)
      else if k.phase == Paused && k.failedCursor.Some? then
        (if k.pauseReason == Some(BootstrapRequired) then k.(disposition := Some(Rebuild)) else k)
      else if HasStarted(k) || !AllValid(k.receipts) then Pause(k, AmbiguousOperation)
      else k
  }

  function Gate(j: Journal, cursor: int, reason: Reason): Journal {
    j.(phase := Paused, pauseReason := Some(reason), failedCursor := Some(cursor),
       disposition := Some(if reason == BootstrapRequired then Rebuild else Retry))
  }

  predicate HasPending(j: Journal) {
    exists r :: r in j.receipts && r.pending
  }

  predicate NeedsRebuild(j: Journal) {
    j.pauseReason == Some(BootstrapRequired) || j.disposition == Some(Rebuild) || HasPending(j)
  }

  function RetryJournal(j: Journal): Journal {
    if j.phase != Paused then j
    else if NeedsRebuild(j) then j.(disposition := Some(Rebuild))
    else j.(phase := Replay, disposition := Some(Retry))
  }

  function AckedIntents(xs: seq<Intent>): seq<Intent> {
    if xs == [] then [] else (if xs[0].status == Acked then [xs[0]] else []) + AckedIntents(xs[1..])
  }

  function DoneOperations(xs: seq<Operation>): seq<Operation> {
    if xs == [] then [] else (if xs[0].status == Done then [xs[0]] else []) + DoneOperations(xs[1..])
  }

  function RebuildJournal(j: Journal): Journal {
    j.(phase := Replay, receipts := PruneReceipts(Consumed(j.receipts)), intents := AckedIntents(j.intents),
       operations := DoneOperations(j.operations), disposition := Some(Rebuild), pauseReason := None, failedCursor := None)
  }

  // What the auto-repair layer chooses for a paused journal.
  function PlanAutoRepair(j: Journal): Option<Disposition> {
    if j.phase != Paused then None
    else if !NeedsRebuild(j) then Some(Retry)
    else if exists x :: x in j.intents && x.status != Acked then None
    else Some(Rebuild)
  }

  // ---------- receipts ----------

  lemma FirstReceipt(r: Receipt, rest: seq<Receipt>)
    ensures Pending([r] + rest) == (if r.pending then [r] else []) + Pending(rest)
    ensures Consumed([r] + rest) == (if r.pending then [] else [r]) + Consumed(rest)
  {
    assert ([r] + rest)[1..] == rest;
  }

  // Pruning keeps every pending receipt and the last twenty consumed, all in order.
  lemma {:induction false} DropConsumedKeeps(rs: seq<Receipt>, n: int)
    requires n <= |Consumed(rs)|
    ensures Pending(DropConsumed(rs, n)) == Pending(rs)
    ensures Consumed(DropConsumed(rs, n)) == if n > 0 then Consumed(rs)[n..] else Consumed(rs)
  {
    if rs != [] {
      var r, rest := rs[0], rs[1..];
      assert rs == [r] + rest;
      FirstReceipt(r, rest);
      if !r.pending && n > 0 {
        DropConsumedKeeps(rest, n - 1);
      } else {
        DropConsumedKeeps(rest, n);
        FirstReceipt(r, DropConsumed(rest, n));
      }
    }
  }

  lemma PruneKeeps(rs: seq<Receipt>)
    ensures Pending(PruneReceipts(rs)) == Pending(rs)
    ensures var c := Consumed(rs);
            Consumed(PruneReceipts(rs)) == if |c| > KEPT_CONSUMED then c[|c| - KEPT_CONSUMED..] else c
  {
    DropConsumedKeeps(rs, |Consumed(rs)| - KEPT_CONSUMED);
  }

  lemma {:induction false} NothingToDrop(rs: seq<Receipt>, n: int)
    requires n <= 0
    ensures DropConsumed(rs, n) == rs
  {
    if rs != [] {
      NothingToDrop(rs[1..], n);
    }
  }

  lemma PruneIsIdempotent(rs: seq<Receipt>)
    ensures PruneReceipts(PruneReceipts(rs)) == PruneReceipts(rs)
  {
    PruneKeeps(rs);
    NothingToDrop(PruneReceipts(rs), |Consumed(PruneReceipts(rs))| - KEPT_CONSUMED);
  }

  // ---------- loading and repairing ----------

  lemma NormalizeIsIdempotent(j: Journal)
    ensures Normalize(Normalize(j)) == Normalize(j)
  {
    PruneIsIdempotent(j.receipts);
  }

  lemma LoadNoticesStarted(j: Journal)
    requires HasStarted(j)
    ensures Normalize(j).phase == Paused
  {
  }

  lemma {:induction false} ConsumedOfConsumed(rs: seq<Receipt>)
    ensures Consumed(Consumed(rs)) == Consumed(rs) && Pending(Consumed(rs)) == []
  {
    if rs != [] {
      var r, rest := rs[0], rs[1..];
      assert rs == [r] + rest;
      ConsumedOfConsumed(rest);
      FirstReceipt(r, rest);
      FirstReceipt(r, Consumed(rest));
      assert Consumed(rs) == if r.pending then Consumed(rest) else [r] + Consumed(rest);
    }
  }

  lemma {:induction false} AllConsumed(rs: seq<Receipt>)
    requires Pending(rs) == []
    ensures Consumed(rs) == rs
  {
    if rs != [] {
      AllConsumed(rs[1..]);
    }
  }

  function LastConsumed(rs: seq<Receipt>): seq<Receipt> {
    var c := Consumed(rs);
    if |c| > KEPT_CONSUMED then c[|c| - KEPT_CONSUMED..] else c
  }

  lemma PruneConsumed(rs: seq<Receipt>)
    ensures PruneReceipts(Consumed(rs)) == LastConsumed(rs)
  {
    var c := Consumed(rs);
    var p := PruneReceipts(c);
    ConsumedOfConsumed(rs);
    PruneKeeps(c);
    assert Pending(p) == [];
    AllConsumed(p);
  }

  lemma {:induction false} DoneHasNoneStarted(xs: seq<Operation>)
    ensures forall op | op in DoneOperations(xs) :: op.status == Done
  {
    if xs != [] {
      DoneHasNoneStarted(xs[1..]);
    }
  }

  /** A rebuilt journal survives the next load unpaused exactly when it has at most 500 done operations, at
      most 100 acknowledged intents, and sound signatures on its last twenty consumed receipts. */
  lemma RebuiltLoadsUnpausedIff(j: Journal)
    ensures Normalize(RebuildJournal(j)).phase != Paused <==>
            |DoneOperations(j.operations)| <= MAX_OPERATIONS && |AckedIntents(j.intents)| <= MAX_INTENTS && AllValid(LastConsumed(j.receipts))
  {
    var k := RebuildJournal(j);
    PruneConsumed(j.receipts);
    DoneHasNoneStarted(j.operations);
    PruneIsIdempotent(Consumed(j.receipts));
    assert Normalize(k).phase != Paused ==> |k.operations| <= MAX_OPERATIONS;
  }

  lemma {:induction false} AllDoneStay(xs: seq<Operation>)
    requires forall op | op in xs :: op.status == Done
    ensures DoneOperations(xs) == xs
  {
    if xs != [] {
      assert xs[0] in xs;
      AllDoneStay(xs[1..]);
    }
  }

  // The failing input: one done operation more than a load accepts.
  lemma ManyDonePause(j: Journal)
    requires j.operations == seq(MAX_OPERATIONS + 1, i requires 0 <= i => Operation(i, Done))
    ensures Normalize(RebuildJournal(j)).phase == Paused
  {
    AllDoneStay(j.operations);
    RebuiltLoadsUnpausedIff(j);
  }

  lemma {:induction false} Filtered(rs: seq<Receipt>)
    ensures |Pending(rs)| + |Consumed(rs)| == |rs|
    ensures forall r :: r in rs <==> r in Pending(rs) || r in Consumed(rs)
    ensures (forall r | r in Pending(rs) :: r.pending) && (forall r | r in Consumed(rs) :: !r.pending)
  {
    if rs != [] {
      Filtered(rs[1..]);
      assert rs == [rs[0]] + rs[1..];
    }
  }

  // What a load keeps of the receipts.
  ghost predicate KeptOnLoad(rs: seq<Receipt>, r: Receipt) {
    r in Pending(rs) || r in LastConsumed(rs)
  }

  /** A load leaves the journal paused if and only if it was paused, holds more than 500 operations or 100 intents,
      keeps more than 100 receipts, has an operation begun and not ended, or keeps a receipt with unsound signatures. */
  lemma LoadPausesIff(j: Journal)
    ensures Normalize(j).phase == Paused <==>
              || j.phase == Paused || |j.operations| > 500 || |j.intents| > 100
              || |Pending(j.receipts)| + |LastConsumed(j.receipts)| > 100
              || (exists op :: op in j.operations && op.status == Started)
              || (exists r :: KeptOnLoad(j.receipts, r) && !(|r.signatures| >= 2 && r.signatures[0] == r.before && r.signatures[1] == r.expectedAfter))
    ensures |LastConsumed(j.receipts)| <= 20
  {
    PrunedAreKept(j.receipts);
    PausedOnLoad(j);
  }

  lemma PrunedAreKept(rs: seq<Receipt>)
    ensures |PruneReceipts(rs)| == |Pending(rs)| + |LastConsumed(rs)| && |LastConsumed(rs)| <= 20
    ensures forall r :: r in PruneReceipts(rs) <==> KeptOnLoad(rs, r)
  {
    PruneKeeps(rs);
    Filtered(PruneReceipts(rs));
  }

  lemma PausedOnLoad(j: Journal)
    ensures Normalize(j).phase == Paused <==>
              || j.phase == Paused || |j.operations| > 500 || |j.intents| > 100 || |PruneReceipts(j.receipts)| > 100
              || HasStarted(j) || !AllValid(PruneReceipts(j.receipts))
  {
  }

  // A load keeps operations, intents and the failed cursor, and gives a pause it makes itself its reason.
  lemma LoadKeeps(j: Journal)
    ensures var k := Normalize(j);
            && k.operations == j.operations && k.intents == j.intents && k.failedCursor == j.failedCursor
            && (k.disposition == j.disposition || (k.disposition == Some(Rebuild) && j.pauseReason == Some(BootstrapRequired)))
            && (k.phase != j.phase || k.pauseReason != j.pauseReason ==>
                  k.phase == Paused && k.pauseReason == Some(if |j.operations| > 500 then OperationOverflow
                                                             else if |k.receipts| > 100 then ReceiptOverflow
                                                             else if |j.intents| > 100 then IntentOverflow else AmbiguousOperation))
    // Within the limits a pause at a known cursor outlives the load with its reason, and asks for a rebuild if that is
    // what it needs; anything doubtful pauses every other journal.
    ensures var k := Normalize(j);
            var held := j.phase == Paused && j.failedCursor.Some?;
            var doubtful := HasStarted(j) || !AllValid(PruneReceipts(j.receipts));
            |j.operations| <= 500 && |j.intents| <= 100 && |PruneReceipts(j.receipts)| <= 100 ==>
              && k.receipts == PruneReceipts(j.receipts)
              && k.disposition == (if held && j.pauseReason == Some(BootstrapRequired) then Some(Rebuild) else j.disposition)
              && (held || !doubtful ==> k.phase == j.phase && k.pauseReason == j.pauseReason)
              && (!held && doubtful ==> k.phase == Paused && k.pauseReason == Some(AmbiguousOperation))
  {
  }

  /** A retry resumes the replay if and only if the journal is paused, no rebuild has been asked for and no remote
      effect is pending; it keeps receipts, intents and operations. */
  lemma RetryResumesIff(j: Journal)
    ensures var k := RetryJournal(j);
            && (k.phase == Replay && k != j <==>
                  j.phase == Paused && j.pauseReason != Some(BootstrapRequired) && j.disposition != Some(Rebuild) && Pending(j.receipts) == [])
            && (k.phase == Replay || k.phase == j.phase)
            && (j.phase == Paused ==> k.disposition == Some(if k.phase == Paused then Rebuild else Retry)) && (j.phase != Paused ==> k == j)
            && k.receipts == j.receipts && k.intents == j.intents && k.operations == j.operations && k.failedCursor == j.failedCursor && k.pauseReason == j.pauseReason
  {
    PendingIff(j);
  }

  lemma PendingIff(j: Journal)
    ensures HasPending(j) <==> Pending(j.receipts) != []
  {
    PendingMembers(j.receipts);
    if HasPending(j) {
      var r :| r in j.receipts && r.pending;
      assert r in Pending(j.receipts);
    } else if Pending(j.receipts) != [] {
      assert Pending(j.receipts)[0] in Pending(j.receipts);
    }
  }

  lemma {:induction false} AckedSnoc(xs: seq<Intent>, x: Intent)
    ensures AckedIntents(xs + [x]) == AckedIntents(xs) + (if x.status == Acked then [x] else [])
  {
    if xs != [] {
      AckedSnoc(xs[1..], x);
      assert (xs + [x])[1..] == xs[1..] + [x];
    }
  }

  lemma {:induction false} DoneSnoc(xs: seq<Operation>, x: Operation)
    ensures DoneOperations(xs + [x]) == DoneOperations(xs) + (if x.status == Done then [x] else [])
  {
    if xs != [] {
      DoneSnoc(xs[1..], x);
      assert (xs + [x])[1..] == xs[1..] + [x];
    }
  }

  lemma {:induction false} ConsumedSnoc(rs: seq<Receipt>, r: Receipt)
    ensures Consumed(rs + [r]) == Consumed(rs) + (if r.pending then [] else [r])
  {
    if rs != [] {
      ConsumedSnoc(rs[1..], r);
      assert (rs + [r])[1..] == rs[1..] + [r];
    }
  }

  /** What a rebuild keeps: the last twenty consumed receipts, the acknowledged intents and the operations done, each in
      order. It resumes the replay with nothing pending, owed or paused. */
  lemma RebuildKeeps(j: Journal)
    ensures var k := RebuildJournal(j);
            && k.phase == Replay && k.pauseReason.None? && k.failedCursor.None? && k.disposition == Some(Rebuild)
            && k.receipts == LastConsumed(j.receipts) && k.intents == AckedIntents(j.intents) && k.operations == DoneOperations(j.operations)
            && (forall r | r in k.receipts :: !r.pending) && (forall x | x in k.intents :: x.status == Acked) && (forall op | op in k.operations :: op.status == Done)
    ensures |LastConsumed(j.receipts)| == (if |Consumed(j.receipts)| > 20 then 20 else |Consumed(j.receipts)|) && LastConsumed(j.receipts) == Consumed(j.receipts)[|Consumed(j.receipts)| - |LastConsumed(j.receipts)|..]
  {
    PruneConsumed(j.receipts);
    Filtered(j.receipts);
    AckedMembers(j.intents);
    DoneHasNoneStarted(j.operations);
  }

  // The layer retries exactly the pauses a retry can leave, and rebuilds only with nothing unacknowledged.
  lemma AutoRepairChoices(j: Journal)
    ensures PlanAutoRepair(j) == Some(Retry) <==> j.phase == Paused && RetryJournal(j).phase != Paused
    ensures PlanAutoRepair(j) == Some(Rebuild) ==> forall x | x in j.intents :: x.status == Acked
    ensures PlanAutoRepair(j).None? <==> j.phase != Paused || (RetryJournal(j).phase == Paused && exists x :: x in j.intents && x.status != Acked)
  {
  }

  // ---------- callbacks and intents ----------

  datatype Callback = Callback(moved: bool, workspace: Id, backend: Id, chrome: Id, kind: Kind, node: Shape, move: Option<Move>)

  predicate SameUrl(a: Option<string>, b: Option<string>, canonical: string -> string) {
    a == b || (a.Some? && b.Some? && canonical(a.value) == canonical(b.value))
  }

  predicate SameShape(a: Shape, b: Shape, canonical: string -> string) {
    a.parent == b.parent && a.index == b.index && a.title == b.title && SameUrl(a.url, b.url, canonical)
  }

  predicate Identifies(r: Receipt, c: Callback) {
    r.workspace == c.workspace && r.backend == c.backend && r.chrome == c.chrome && r.kind == c.kind
  }

  predicate Confirms(r: Receipt, c: Callback, canonical: string -> string) {
    && ValidReceipt(r) && SameShape(c.node, r.expectedAfter, canonical)
    && (if c.moved then r.move.Some? && c.move == r.move else r.move.None?)
  }

  // The first pending receipt of the callback's node; |rs| when there is none.
  function FirstPending(rs: seq<Receipt>, c: Callback): (i: nat)
    ensures i <= |rs|
    ensures i < |rs| ==> rs[i].pending && Identifies(rs[i], c)
    ensures forall k | 0 <= k < i :: !(rs[k].pending && Identifies(rs[k], c))
  {
    if rs == [] || (rs[0].pending && Identifies(rs[0], c)) then 0 else 1 + FirstPending(rs[1..], c)
  }

  function PayloadOf(c: Callback): Payload {
    Payload(c.workspace, c.backend, c.chrome, c.kind, if c.moved then "moved" else "changed", c.node)
  }

  datatype Disposed = Consumption | Rejection(cursor: int) | NewIntent

  function ReduceCallback(j: Journal, c: Callback, canonical: string -> string): (Journal, Disposed) {
    var i := FirstPending(j.receipts, c);
    if i < |j.receipts| then
      if Confirms(j.receipts[i], c, canonical) then (j.(receipts := j.receipts[i := j.receipts[i].(pending := false)]), Consumption)
      else (j, Rejection(j.receipts[i].cursor))
    else (Capture(j, PayloadOf(c)), NewIntent)
  }

  predicate Intended(xs: seq<Intent>, p: Payload) {
    exists x :: x in xs && x.payload == p
  }

  // The list without its oldest acknowledged intent.
  function DropOldestAcked(xs: seq<Intent>): seq<Intent> {
    if xs == [] then []
    else if xs[0].status == Acked then xs[1..]
    else [xs[0]] + DropOldestAcked(xs[1..])
  }

  predicate HasAcked(xs: seq<Intent>) {
    exists x :: x in xs && x.status == Acked
  }

  lemma {:induction false} DropOldestShortens(xs: seq<Intent>)
    requires HasAcked(xs)
    ensures |DropOldestAcked(xs)| == |xs| - 1
  {
    if xs[0].status != Acked {
      var x :| x in xs && x.status == Acked;
      assert x in xs[1..];
      DropOldestShortens(xs[1..]);
    }
  }

  function MakeRoom(xs: seq<Intent>): seq<Intent>
    decreases |xs|
  {
    if |xs| >= MAX_INTENTS && HasAcked(xs) then
      DropOldestShortens(xs);
      MakeRoom(DropOldestAcked(xs))
    else xs
  }

  function Capture(j: Journal, p: Payload): Journal {
    if Intended(j.intents, p) then j
    else
      var k := j.(intents := MakeRoom(j.intents) + [Intent(p, Queued)]);
      if |k.intents| > MAX_INTENTS then Pause(k, IntentOverflow) else k
  }

  // captureLocalIntent with its splicing loop.
  method CaptureLocalIntent(j: Journal, p: Payload) returns (r: Journal)
    ensures r == Capture(j, p)
  {
    if Intended(j.intents, p) { return j; }
    var intents := j.intents;
    while |intents| >= MAX_INTENTS
      invariant MakeRoom(intents) == MakeRoom(j.intents)
      decreases |intents|
    {
      var acknowledged := 0;
      while acknowledged < |intents| && intents[acknowledged].status != Acked
        invariant acknowledged <= |intents|
        invariant forall i | 0 <= i < acknowledged :: intents[i].status != Acked
      {
        acknowledged := acknowledged + 1;
      }
      if acknowledged == |intents| { break; }
      SpliceIsDropOldest(intents, acknowledged);
      assert intents[acknowledged] in intents;
      intents := intents[..acknowledged] + intents[acknowledged + 1..];
    }
    r := j.(intents := intents + [Intent(p, Queued)]);
    if |r.intents| > MAX_INTENTS {
      r := r.(phase := Paused, pauseReason := Some(IntentOverflow));
    }
  }

  lemma {:induction false} SpliceIsDropOldest(xs: seq<Intent>, k: nat)
    requires k < |xs| && xs[k].status == Acked && forall i | 0 <= i < k :: xs[i].status != Acked
    ensures DropOldestAcked(xs) == xs[..k] + xs[k + 1..]
  {
    if k > 0 {
      SpliceIsDropOldest(xs[1..], k - 1);
      assert xs[..k] + xs[k + 1..] == [xs[0]] + (xs[1..][..k - 1] + xs[1..][k..]);
    }
  }

  // ---------- runs of reducers ----------

  datatype Step =
    | Load
    | GateEffect(cursor: int, reason: Reason)
    | RetryPressed
    | RebuildPressed
    | ChromeCallback(callback: Callback)
    | LocalChange(payload: Payload)
    | SendIntent(sent: Payload)
    | AckIntent(acked: Payload)
    | PersistReceipt(receipt: Receipt)

  function Marked(xs: seq<Intent>, p: Payload, status: IntentStatus): seq<Intent> {
    if xs == [] then []
    else [if xs[0].payload == p && xs[0].status != Acked then xs[0].(status := status) else xs[0]] + Marked(xs[1..], p, status)
  }

  function Reduce(j: Journal, step: Step, canonical: string -> string): Journal {
    match step
    case Load => Normalize(j)
    case GateEffect(cursor, reason) => Gate(j, cursor, reason)
    case RetryPressed => RetryJournal(j)
    case RebuildPressed => RebuildJournal(j)
    case ChromeCallback(c) => ReduceCallback(j, c, canonical).0
    case LocalChange(p) => Capture(j, p)
    case SendIntent(p) => j.(intents := Marked(j.intents, p, Sent))
    case AckIntent(p) => j.(intents := Marked(j.intents, p, Acked))
    case PersistReceipt(r) => Persist(j, r)
  }

  predicate SameNode(r: Receipt, q: Receipt) {
    r.workspace == q.workspace && r.backend == q.backend && r.chrome == q.chrome && r.kind == q.kind
  }

  // persistRemoteReceipt: a new pending receipt, unless the node has one already.
  function Persist(j: Journal, r: Receipt): Journal {
    var rs := PruneReceipts(j.receipts);
    if exists q :: q in rs && q.pending && SameNode(q, r) then j.(receipts := rs)
    else j.(receipts := rs + [Signed(r)])
  }

  function Signed(r: Receipt): Receipt {
    r.(signatures := [r.before, r.expectedAfter], pending := true)
  }

  ghost predicate IdsDistinct(xs: seq<Intent>) {
    forall i, k | 0 <= i < k < |xs| :: xs[i].payload != xs[k].payload
  }

  ghost predicate Owed(xs: seq<Intent>, p: Payload) {
    exists x :: x in xs && x.payload == p && x.status != Acked
  }

  lemma {:induction false} AckedMembers(xs: seq<Intent>)
    ensures forall x :: x in AckedIntents(xs) <==> x in xs && x.status == Acked
  {
    if xs != [] {
      AckedMembers(xs[1..]);
      assert xs == [xs[0]] + xs[1..];
    }
  }

  lemma {:induction false} AckedDistinct(xs: seq<Intent>)
    requires IdsDistinct(xs)
    ensures IdsDistinct(AckedIntents(xs))
  {
    if xs != [] {
      AckedDistinct(xs[1..]);
      AckedMembers(xs[1..]);
    }
  }

  lemma {:induction false} MarkedIndexed(xs: seq<Intent>, p: Payload, status: IntentStatus)
    ensures |Marked(xs, p, status)| == |xs|
    ensures forall i | 0 <= i < |xs| ::
              Marked(xs, p, status)[i] == if xs[i].payload == p && xs[i].status != Acked then xs[i].(status := status) else xs[i]
  {
    if xs != [] {
      MarkedIndexed(xs[1..], p, status);
    }
  }

  lemma DropOldestKeeps(xs: seq<Intent>)
    requires HasAcked(xs)
    ensures forall x | x in xs && x.status != Acked :: x in DropOldestAcked(xs)
    ensures forall x | x in DropOldestAcked(xs) :: x in xs
    ensures IdsDistinct(xs) ==> IdsDistinct(DropOldestAcked(xs))
  {
    var k := OldestAcked(xs);
    SpliceIsDropOldest(xs, k);
    var ys := DropOldestAcked(xs);
    assert forall i | 0 <= i < |ys| :: ys[i] == xs[if i < k then i else i + 1];
    forall x | x in xs && x.status != Acked ensures x in ys {
      var i :| 0 <= i < |xs| && xs[i] == x;
      assert x == ys[if i < k then i else i - 1];
    }
  }

  // Room is made by dropping acknowledged intents only, and the rest keep their order.
  lemma {:induction false} MakeRoomKeeps(xs: seq<Intent>)
    ensures forall x | x in xs && x.status != Acked :: x in MakeRoom(xs)
    ensures forall x | x in MakeRoom(xs) :: x in xs
    ensures IdsDistinct(xs) ==> IdsDistinct(MakeRoom(xs))
    decreases |xs|
  {
    if |xs| >= MAX_INTENTS && HasAcked(xs) {
      DropOldestShortens(xs);
      DropOldestKeeps(xs);
      MakeRoomKeeps(DropOldestAcked(xs));
    }
  }

  /** Room is made for a hundred intents and no more than needed, by taking out the oldest acknowledged ones: what is
      left is the list without some acknowledged intents of a prefix of it that keeps no acknowledged one. */
  lemma {:induction false} MakeRoomTakesOldest(xs: seq<Intent>)
    ensures var ys := MakeRoom(xs);
            exists k: nat :: k <= |xs| && ys == Unacked(xs[..k]) + xs[k..]
                             && (|ys| < 100 || AckedIntents(ys) == [])
                             && (|xs| < 100 ==> k == 0)
                             && (k > 0 ==> xs[k - 1].status == Acked && |ys| >= 99)
    decreases |xs|
  {
    var ys := MakeRoom(xs);
    if |xs| >= MAX_INTENTS && HasAcked(xs) {
      var o := OldestAcked(xs);
      SpliceIsDropOldest(xs, o);
      DropOldestShortens(xs);
      var zs := DropOldestAcked(xs);
      MakeRoomTakesOldest(zs);
      var m: nat :| m <= |zs| && ys == Unacked(zs[..m]) + zs[m..] && (|ys| < 100 || AckedIntents(ys) == []) && (|zs| < 100 ==> m == 0)
                    && (m > 0 ==> zs[m - 1].status == Acked && |ys| >= 99);
      var k := TakeOldest(xs, o, m);
    } else {
      AckedMembers(xs);
      if AckedIntents(xs) != [] { assert AckedIntents(xs)[0] in AckedIntents(xs); }
      assert ys == Unacked(xs[..0]) + xs[0..];
    }
  }

  function Unacked(xs: seq<Intent>): seq<Intent> {
    if xs == [] then [] else (if xs[0].status == Acked then [] else [xs[0]]) + Unacked(xs[1..])
  }

  lemma {:induction false} UnackedConcat(xs: seq<Intent>, ys: seq<Intent>)
    ensures Unacked(xs + ys) == Unacked(xs) + Unacked(ys)
  {
    if xs == [] {
      assert xs + ys == ys;
    } else {
      var front := if xs[0].status == Acked then [] else [xs[0]];
      UnackedConcat(xs[1..], ys);
      assert (xs + ys)[1..] == xs[1..] + ys;
      assert Unacked(xs + ys) == front + (Unacked(xs[1..]) + Unacked(ys));
    }
  }

  lemma {:induction false} NoneAcked(xs: seq<Intent>)
    requires forall i | 0 <= i < |xs| :: xs[i].status != Acked
    ensures Unacked(xs) == xs
  {
    if xs != [] { NoneAcked(xs[1..]); }
  }

  // Taking out the oldest acknowledged intent first changes nothing about what a longer prefix leaves.
  lemma TakeOldest(xs: seq<Intent>, o: nat, m: nat) returns (k: nat)
    requires o < |xs| && xs[o].status == Acked && forall i | 0 <= i < o :: xs[i].status != Acked
    requires var zs := xs[..o] + xs[o + 1..]; m <= |zs| && (m > 0 ==> zs[m - 1].status == Acked)
    ensures var zs := xs[..o] + xs[o + 1..];
            0 < k <= |xs| && xs[k - 1].status == Acked && Unacked(xs[..k]) + xs[k..] == Unacked(zs[..m]) + zs[m..]
  {
    var zs := xs[..o] + xs[o + 1..];
    NoneAcked(xs[..o]);
    if m == 0 {
      k := o + 1;
      UnackedConcat(xs[..o], [xs[o]]);
      assert xs[..k] == xs[..o] + [xs[o]];
    } else {
      k := m + 1;
      AckedIsBehind(xs, o, m);
      var rest := xs[o + 1..k];
      TakenApart(xs, o, m);
      UnackedConcat(xs[..o], rest);
      UnackedConcat(xs[..o], [xs[o]] + rest);
      UnackedConcat([xs[o]], rest);
    }
  }

  lemma AckedIsBehind(xs: seq<Intent>, o: nat, m: nat)
    requires o < |xs| && forall i | 0 <= i < o :: xs[i].status != Acked
    requires var zs := xs[..o] + xs[o + 1..]; 0 < m <= |zs| && zs[m - 1].status == Acked
    ensures o < m
  {
    assert forall i | 0 <= i < o :: (xs[..o] + xs[o + 1..])[i] == xs[i];
  }

  lemma TakenApart(xs: seq<Intent>, o: nat, m: nat)
    requires o < m < |xs|
    ensures var zs := xs[..o] + xs[o + 1..];
            zs[..m] == xs[..o] + xs[o + 1..m + 1] && zs[m..] == xs[m + 1..] && xs[..m + 1] == xs[..o] + ([xs[o]] + xs[o + 1..m + 1])
  {
  }

  lemma {:induction false} UnackedShortens(xs: seq<Intent>)
    ensures |Unacked(xs)| <= |xs|
  {
    if xs != [] { UnackedShortens(xs[1..]); }
  }

  /** A new change finds no room if and only if a hundred others are not acknowledged yet: then the journal pauses, and
      keeps the change all the same. */
  lemma CaptureOverflowsIff(j: Journal, p: Payload)
    requires !Intended(j.intents, p)
    ensures var k := Capture(j, p);
            && (k == j.(intents := k.intents) <==> |Unacked(j.intents)| < 100 || (j.phase == Paused && j.pauseReason == Some(IntentOverflow)))
            && (|Unacked(j.intents)| >= 100 ==> k.phase == Paused && k.pauseReason == Some(IntentOverflow))
            && k.intents != [] && k.intents[|k.intents| - 1] == Intent(p, Queued)
  {
    RoomIff(j.intents);
  }

  lemma {:induction false} DropOldestKeepsUnacked(xs: seq<Intent>)
    ensures Unacked(DropOldestAcked(xs)) == Unacked(xs)
  {
    if xs != [] && xs[0].status != Acked {
      DropOldestKeepsUnacked(xs[1..]);
      assert ([xs[0]] + DropOldestAcked(xs[1..]))[1..] == DropOldestAcked(xs[1..]);
    }
  }

  // Making room takes no unacknowledged intent, and stops below a hundred or with nothing left to take.
  lemma {:induction false} RoomStops(xs: seq<Intent>)
    ensures Unacked(MakeRoom(xs)) == Unacked(xs) && (|MakeRoom(xs)| < 100 || !HasAcked(MakeRoom(xs)))
    decreases |xs|
  {
    if |xs| >= MAX_INTENTS && HasAcked(xs) {
      DropOldestShortens(xs);
      DropOldestKeepsUnacked(xs);
      RoomStops(DropOldestAcked(xs));
    }
  }

  lemma RoomIff(xs: seq<Intent>)
    ensures |MakeRoom(xs)| >= 100 <==> |Unacked(xs)| >= 100
  {
    var ys := MakeRoom(xs);
    RoomStops(xs);
    UnackedShortens(ys);
    if |ys| >= 100 {
      forall i | 0 <= i < |ys| ensures ys[i].status != Acked {
        assert ys[i] in ys;
      }
      NoneAcked(ys);
    }
  }

  lemma OldestAcked(xs: seq<Intent>) returns (k: nat)
    requires HasAcked(xs)
    ensures k < |xs| && xs[k].status == Acked && forall i | 0 <= i < k :: xs[i].status != Acked
  {
    k := 0;
    var x :| x in xs && x.status == Acked;
    var w :| 0 <= w < |xs| && xs[w] == x;
    while xs[k].status != Acked
      invariant k <= w && forall i | 0 <= i < k :: xs[i].status != Acked
      decreases w - k
    {
      k := k + 1;
    }
  }

  lemma CaptureKeepsDistinct(j: Journal, p: Payload)
    requires IdsDistinct(j.intents)
    ensures IdsDistinct(Capture(j, p).intents)
  {
    MakeRoomKeeps(j.intents);
  }

  // Intent ids stay distinct under every reducer.
  lemma IdsStayDistinct(j: Journal, step: Step, canonical: string -> string)
    requires IdsDistinct(j.intents)
    ensures IdsDistinct(Reduce(j, step, canonical).intents)
  {
    match step
    case ChromeCallback(c) => CaptureKeepsDistinct(j, PayloadOf(c));
    case LocalChange(p) => CaptureKeepsDistinct(j, p);
    case RebuildPressed => AckedDistinct(j.intents);
    case SendIntent(p) => MarkedIndexed(j.intents, p, Sent);
    case AckIntent(p) => MarkedIndexed(j.intents, p, Acked);
    case _ =>
  }

  lemma CaptureKeepsOwed(j: Journal, p: Payload, owed: Payload)
    requires Owed(j.intents, owed)
    ensures Owed(Capture(j, p).intents, owed)
  {
    MakeRoomKeeps(j.intents);
    var x :| x in j.intents && x.payload == owed && x.status != Acked;
    assert !Intended(j.intents, p) ==> x in MakeRoom(j.intents);
  }

  lemma MarkedKeepsOwed(xs: seq<Intent>, p: Payload, status: IntentStatus, owed: Payload)
    requires Owed(xs, owed) && (status != Acked || p != owed)
    ensures Owed(Marked(xs, p, status), owed)
  {
    MarkedIndexed(xs, p, status);
    var x :| x in xs && x.payload == owed && x.status != Acked;
    var i :| 0 <= i < |xs| && xs[i] == x;
    assert Marked(xs, p, status)[i] in Marked(xs, p, status);
  }

  /** A local change not yet acknowledged is dropped by no reducer but a rebuild and its own acknowledgement;
      a rebuild drops every one. */
  lemma OnlyRebuildDropsOwed(j: Journal, step: Step, canonical: string -> string, owed: Payload)
    requires Owed(j.intents, owed)
    ensures !step.RebuildPressed? && step != AckIntent(owed) ==> Owed(Reduce(j, step, canonical).intents, owed)
    ensures step.RebuildPressed? ==> !Owed(Reduce(j, step, canonical).intents, owed)
  {
    match step
    case ChromeCallback(c) => CaptureKeepsOwed(j, PayloadOf(c), owed);
    case LocalChange(p) => CaptureKeepsOwed(j, p, owed);
    case RebuildPressed => AckedMembers(j.intents);
    case SendIntent(p) => MarkedKeepsOwed(j.intents, p, Sent, owed);
    case AckIntent(p) => if p != owed { MarkedKeepsOwed(j.intents, p, Acked, owed); }
    case _ =>
  }

  // Consuming a receipt takes it, and it alone, out of the pending ones.
  lemma {:induction false} ConsumingOne(rs: seq<Receipt>, i: nat) returns (k: nat)
    requires i < |rs| && rs[i].pending
    ensures var p := Pending(rs);
            k < |p| && p[k] == rs[i] && Pending(rs[i := rs[i].(pending := false)]) == p[..k] + p[k + 1..]
  {
    var after := rs[i := rs[i].(pending := false)];
    assert rs == [rs[0]] + rs[1..] && after == [after[0]] + after[1..];
    FirstReceipt(rs[0], rs[1..]);
    FirstReceipt(after[0], after[1..]);
    if i == 0 {
      k := 0;
    } else {
      var m := ConsumingOne(rs[1..], i - 1);
      assert after[1..] == rs[1..][i - 1 := rs[1..][i - 1].(pending := false)];
      k := if rs[0].pending then m + 1 else m;
    }
  }

  lemma {:induction false} PendingSnoc(rs: seq<Receipt>, r: Receipt)
    ensures Pending(rs + [r]) == Pending(rs) + (if r.pending then [r] else [])
  {
    if rs != [] {
      PendingSnoc(rs[1..], r);
      assert (rs + [r])[1..] == rs[1..] + [r];
    }
  }

  lemma LoadedReceipts(j: Journal)
    ensures Normalize(j).receipts == j.receipts || Normalize(j).receipts == PruneReceipts(j.receipts)
  {
  }

  lemma LoadKeepsPending(j: Journal)
    ensures Pending(Normalize(j).receipts) == Pending(j.receipts)
  {
    LoadedReceipts(j);
    PruneKeeps(j.receipts);
  }

  lemma RebuildDropsPending(j: Journal)
    ensures Pending(RebuildJournal(j).receipts) == []
  {
    ConsumedOfConsumed(j.receipts);
    PruneKeeps(Consumed(j.receipts));
  }

  // The pending receipts after a callback: the same, or all but one.
  lemma CallbackConsumesAtMostOne(j: Journal, c: Callback, canonical: string -> string)
    ensures var p, q := Pending(j.receipts), Pending(ReduceCallback(j, c, canonical).0.receipts);
            q == p || exists k :: 0 <= k < |p| && q == p[..k] + p[k + 1..]
  {
    var i := FirstPending(j.receipts, c);
    if i < |j.receipts| && Confirms(j.receipts[i], c, canonical) {
      var k := ConsumingOne(j.receipts, i);
    }
  }

  lemma PersistAddsOne(j: Journal, r: Receipt)
    ensures var p, q := Pending(j.receipts), Pending(Persist(j, r).receipts);
            q == p || (q == p + [Signed(r)] && forall x | x in p :: !SameNode(x, r))
  {
    PruneKeeps(j.receipts);
    PendingSnoc(PruneReceipts(j.receipts), Signed(r));
    PendingMembers(PruneReceipts(j.receipts));
  }

  lemma {:induction false} PendingMembers(rs: seq<Receipt>)
    ensures forall x :: x in Pending(rs) <==> x in rs && x.pending
  {
    if rs != [] {
      PendingMembers(rs[1..]);
      assert rs == [rs[0]] + rs[1..];
    }
  }

  // The pending receipts after any step: what was pending, less at most one consumed or with at most one
  // newly persisted, or nothing after a rebuild. Nothing consumed ever becomes pending again.
  lemma PendingAfter(j: Journal, step: Step, canonical: string -> string)
    ensures var p, q := Pending(j.receipts), Pending(Reduce(j, step, canonical).receipts);
            || q == p
            || (step.ChromeCallback? && exists k :: 0 <= k < |p| && q == p[..k] + p[k + 1..])
            || (step.PersistReceipt? && q == p + [Signed(step.receipt)] && forall x | x in p :: !SameNode(x, step.receipt))
            || (step.RebuildPressed? && q == [])
  {
    if step.Load? {
      LoadKeepsPending(j);
    } else if step.RebuildPressed? {
      RebuildDropsPending(j);
    } else if step.ChromeCallback? {
      CallbackConsumesAtMostOne(j, step.callback, canonical);
    } else if step.PersistReceipt? {
      PersistAddsOne(j, step.receipt);
    }
  }

  ghost predicate NodesDiffer(p: seq<Receipt>) {
    forall i, k | 0 <= i < k < |p| :: !SameNode(p[i], p[k])
  }

  lemma AdditionKeepsDiffering(p: seq<Receipt>, r: Receipt)
    requires NodesDiffer(p) && forall x | x in p :: !SameNode(x, r)
    ensures NodesDiffer(p + [Signed(r)])
  {
    forall i | 0 <= i < |p| ensures !SameNode(p[i], Signed(r)) {
      assert p[i] in p;
    }
  }

  // A callback that nothing is pending for is captured as a change of the user's own, as it shows the node; a callback
  // for another node, or for the same one in another workspace or of another kind, leaves a pending receipt alone.
  lemma UnawaitedIsCaptured(j: Journal, c: Callback, canonical: string -> string)
    requires forall r | r in j.receipts && r.pending :: r.workspace != c.workspace || r.backend != c.backend || r.chrome != c.chrome || r.kind != c.kind
    ensures var (after, disposed) := ReduceCallback(j, c, canonical);
            disposed == NewIntent && after == Capture(j, Payload(c.workspace, c.backend, c.chrome, c.kind, if c.moved then "moved" else "changed", c.node))
  {
    assert FirstPending(j.receipts, c) == |j.receipts|;
  }

  ghost predicate HasTwin(rs: seq<Receipt>, r: Receipt) {
    exists x :: x in rs && x.workspace == r.workspace && x.backend == r.backend && x.chrome == r.chrome && x.kind == r.kind
  }

  lemma PersistRefuses(j: Journal, r: Receipt)
    requires HasTwin(Pending(j.receipts), r)
    ensures Persist(j, r).receipts == PruneReceipts(j.receipts)
  {
    PruneKeeps(j.receipts);
    PendingMembers(PruneReceipts(j.receipts));
  }

  lemma PersistAdds(j: Journal, r: Receipt)
    requires !HasTwin(Pending(j.receipts), r)
    ensures Persist(j, r).receipts == PruneReceipts(j.receipts) + [Signed(r)]
  {
    PruneKeeps(j.receipts);
    PendingMembers(PruneReceipts(j.receipts));
  }

  lemma PruneKeepsParts(rs: seq<Receipt>)
    ensures Pending(PruneReceipts(rs)) == Pending(rs) && Consumed(PruneReceipts(rs)) == LastConsumed(rs)
  {
    PruneKeeps(rs);
  }

  lemma SignedJoins(rs: seq<Receipt>, r: Receipt)
    ensures Pending(rs + [Signed(r)]) == Pending(rs) + [Signed(r)] && Consumed(rs + [Signed(r)]) == Consumed(rs)
    ensures Pending(rs + [Signed(r).(pending := false)]) == Pending(rs)
  {
    PendingSnoc(rs, Signed(r));
    ConsumedSnoc(rs, Signed(r));
    PendingSnoc(rs, Signed(r).(pending := false));
  }

  lemma FoundLast(rs: seq<Receipt>, x: Receipt, c: Callback)
    requires x.pending && Identifies(x, c) && forall i | 0 <= i < |rs| && rs[i].pending :: !Identifies(rs[i], c)
    ensures FirstPending(rs + [x], c) == |rs|
  {
    var all := rs + [x];
    assert all[|rs|] == x && forall i | 0 <= i < |rs| :: all[i] == rs[i];
  }

  // A receipt whose signatures do not fit its shapes is confirmed by nothing.
  lemma UnsoundIsRejected(j: Journal, i: nat, c: Callback, canonical: string -> string)
    requires i < |j.receipts| && FirstPending(j.receipts, c) == i
    requires var r := j.receipts[i]; !(|r.signatures| >= 2 && r.signatures[0] == r.before && r.signatures[1] == r.expectedAfter)
    ensures ReduceCallback(j, c, canonical) == (j, Rejection(j.receipts[i].cursor))
  {
  }

  /** A persisted receipt waits for exactly one callback: the node's own, of a move if and only if the receipt is of
      that move, showing the node at the place and with the title expected and with a URL of one canonical form. A
      node that has a pending receipt keeps that one. */
  lemma PersistedIsAwaitedIff(j: Journal, r: Receipt, c: Callback, canonical: string -> string)
    requires forall x | x in Pending(j.receipts) :: !(x.workspace == r.workspace && x.backend == r.backend && x.chrome == r.chrome && x.kind == r.kind)
    requires c.workspace == r.workspace && c.backend == r.backend && c.chrome == r.chrome && c.kind == r.kind
    ensures var (after, disposed) := ReduceCallback(Persist(j, r), c, canonical);
            var expected := r.expectedAfter;
            && (disposed == Consumption <==>
                  && c.node.parent == expected.parent && c.node.index == expected.index && c.node.title == expected.title
                  && (c.node.url == expected.url || (c.node.url.Some? && expected.url.Some? && canonical(c.node.url.value) == canonical(expected.url.value)))
                  && (if c.moved then r.move.Some? && c.move == r.move else r.move.None?))
            && (disposed == Consumption || disposed == Rejection(r.cursor))
            && Pending(after.receipts) == if disposed == Consumption then Pending(j.receipts) else Pending(j.receipts) + [r.(signatures := [r.before, r.expectedAfter], pending := true)]
  {
    var rs, x := PruneReceipts(j.receipts), Signed(r);
    PruneKeepsParts(j.receipts);
    PersistAdds(j, r);
    SignedJoins(rs, r);
    NoneIdentified(rs, r, c);
    FoundLast(rs, x, c);
    assert (rs + [x])[|rs|] == x && (rs + [x])[|rs| := x.(pending := false)] == rs + [x.(pending := false)];
  }

  lemma NoneIdentified(rs: seq<Receipt>, r: Receipt, c: Callback)
    requires !HasTwin(Pending(rs), r) && c.workspace == r.workspace && c.backend == r.backend && c.chrome == r.chrome && c.kind == r.kind
    ensures forall i | 0 <= i < |rs| && rs[i].pending :: !Identifies(rs[i], c)
  {
    PendingMembers(rs);
    forall i | 0 <= i < |rs| && rs[i].pending ensures !Identifies(rs[i], c) {
      assert rs[i] in Pending(rs);
    }
  }

  // Persisting keeps all pending receipts and the last twenty consumed, and is refused only by a pending receipt of
  // the same node.
  lemma PersistIsRefusedIff(j: Journal, r: Receipt)
    ensures var k := Persist(j, r);
            && Consumed(k.receipts) == LastConsumed(j.receipts)
            && Pending(k.receipts) == Pending(j.receipts) + (if HasTwin(Pending(j.receipts), r) then [] else [r.(signatures := [r.before, r.expectedAfter], pending := true)])
            && k.intents == j.intents && k.operations == j.operations && k.phase == j.phase
  {
    PruneKeepsParts(j.receipts);
    if HasTwin(Pending(j.receipts), r) {
      PersistRefuses(j, r);
    } else {
      PersistAdds(j, r);
      SignedJoins(PruneReceipts(j.receipts), r);
    }
  }

  // No node ever has two pending receipts.
  lemma OnePendingPerNode(j: Journal, step: Step, canonical: string -> string)
    requires NodesDiffer(Pending(j.receipts))
    ensures NodesDiffer(Pending(Reduce(j, step, canonical).receipts))
  {
    PendingAfter(j, step, canonical);
    var p, q := Pending(j.receipts), Pending(Reduce(j, step, canonical).receipts);
    if q != p {
      if step.ChromeCallback? {
        var k :| 0 <= k < |p| && q == p[..k] + p[k + 1..];
      } else if step.PersistReceipt? {
        AdditionKeepsDiffering(p, step.receipt);
      }
    }
  }

  lemma PendingFound(j: Journal, c: Callback, canonical: string -> string)
    requires exists r :: r in j.receipts && r.pending && Identifies(r, c)
    ensures var i := FirstPending(j.receipts, c);
            var (after, disposed) := ReduceCallback(j, c, canonical);
            && i < |j.receipts| && after.intents == j.intents && !disposed.NewIntent?
            && (disposed.Consumption? <==> Confirms(j.receipts[i], c, canonical))
            && after.receipts == if Confirms(j.receipts[i], c, canonical) then j.receipts[i := j.receipts[i].(pending := false)] else j.receipts
  {
    var r :| r in j.receipts && r.pending && Identifies(r, c);
    var w :| 0 <= w < |j.receipts| && j.receipts[w] == r;
  }

  function EmptyJournal(): Journal {
    Journal(PlanPhase, [], [], [], None, None, None)
  }

  function RunOf(steps: seq<Step>, canonical: string -> string): Journal {
    if steps == [] then EmptyJournal() else Reduce(RunOf(steps[..|steps| - 1], canonical), steps[|steps| - 1], canonical)
  }

  // In every run of reducers intents are known by their ids and a node has at most one pending receipt.
  lemma {:induction false} EveryRunKeepsOrder(steps: seq<Step>, canonical: string -> string)
    ensures var j := RunOf(steps, canonical); IdsDistinct(j.intents) && NodesDiffer(Pending(j.receipts))
  {
    if steps != [] {
      var front := RunOf(steps[..|steps| - 1], canonical);
      EveryRunKeepsOrder(steps[..|steps| - 1], canonical);
      IdsStayDistinct(front, steps[|steps| - 1], canonical);
      OnePendingPerNode(front, steps[|steps| - 1], canonical);
    }
  }

  /** A crash between the start and the end of an operation is noticed on the next load, and the journal then
      stays paused over any run until somebody retries or rebuilds. */
  lemma {:induction false} StartedOperationPauses(j: Journal, steps: seq<Step>, canonical: string -> string)
    requires HasStarted(j) && forall step | step in steps :: !step.RetryPressed? && !step.RebuildPressed?
    ensures After(Normalize(j), steps, canonical).phase == Paused
  {
    LoadNoticesStarted(j);
    StaysPaused(Normalize(j), steps, canonical);
  }

  lemma {:induction false} StaysPaused(j: Journal, steps: seq<Step>, canonical: string -> string)
    requires j.phase == Paused && forall step | step in steps :: !step.RetryPressed? && !step.RebuildPressed?
    ensures After(j, steps, canonical).phase == Paused
    decreases |steps|
  {
    if steps != [] {
      assert steps[0] in steps;
      StaysPaused(Reduce(j, steps[0], canonical), steps[1..], canonical);
    }
  }

  // A failed effect pauses the journal at its cursor.
  lemma GatePausesAt(j: Journal, cursor: int, reason: Reason, canonical: string -> string)
    ensures var k := Reduce(j, GateEffect(cursor, reason), canonical);
            && k.phase == Paused && k.failedCursor == Some(cursor) && k.pauseReason == Some(reason)
            && k.receipts == j.receipts && k.intents == j.intents && k.operations == j.operations
            && k.disposition == Some(if reason == BootstrapRequired then Rebuild else Retry)
            && (Reduce(k, RetryPressed, canonical).phase == Replay <==> reason != BootstrapRequired && Pending(j.receipts) == [])
  {
    RetryResumesIff(Gate(j, cursor, reason));
  }

  /** A pause that asks for a rebuild is left by nothing else: over any run without a rebuild or another failed effect
      the journal stays paused and keeps asking, however often a retry is tried. */
  lemma {:induction false} OnlyRebuildLeaves(j: Journal, steps: seq<Step>, canonical: string -> string)
    requires j.phase == Paused && j.disposition == Some(Rebuild)
    requires forall step | step in steps :: !step.RebuildPressed? && !step.GateEffect?
    ensures After(j, steps, canonical).phase == Paused && After(j, steps, canonical).disposition == Some(Rebuild)
    decreases |steps|
  {
    if steps != [] {
      assert steps[0] in steps;
      OnlyRebuildLeaves(Reduce(j, steps[0], canonical), steps[1..], canonical);
    }
  }

  /** In every run a callback for a node with a pending receipt is an echo of that one remote effect: it becomes
      no intent, and takes the receipt out of the pending ones if and only if it confirms the effect. */
  lemma EchoIsNeverAnIntent(steps: seq<Step>, canonical: string -> string, c: Callback, k: nat)
    requires var p := Pending(RunOf(steps, canonical).receipts); k < |p| && Identifies(p[k], c)
    ensures var j := RunOf(steps, canonical);
            var (after, disposed) := ReduceCallback(j, c, canonical);
            var p := Pending(j.receipts);
            && after.intents == j.intents && !disposed.NewIntent?
            && (disposed.Consumption? <==> Confirms(p[k], c, canonical))
            && Pending(after.receipts) == if Confirms(p[k], c, canonical) then p[..k] + p[k + 1..] else p
  {
    var j := RunOf(steps, canonical);
    var p := Pending(j.receipts);
    EveryRunKeepsOrder(steps, canonical);
    PendingMembers(j.receipts);
    assert p[k] in p;
    PendingFound(j, c, canonical);
    var i := FirstPending(j.receipts, c);
    var n := ConsumingOne(j.receipts, i);
    assert p[n] == j.receipts[i] && SameNode(p[n], p[k]);
    OneOfNode(p, n, k);
  }

  lemma OneOfNode(p: seq<Receipt>, n: nat, k: nat)
    requires NodesDiffer(p) && n < |p| && k < |p| && SameNode(p[n], p[k])
    ensures n == k
  {
  }

  // A captured change is owed afterwards if and only if the same change has not been acknowledged before and
  // kept: a move there, back and there again within the kept intents is not sent the last time.
  lemma CaptureOwesIff(j: Journal, p: Payload)
    requires IdsDistinct(j.intents)
    ensures Owed(Capture(j, p).intents, p) <==> !(exists x :: x in j.intents && x.payload == p && x.status == Acked)
  {
    if Intended(j.intents, p) {
      var x :| x in j.intents && x.payload == p;
      var i :| 0 <= i < |j.intents| && j.intents[i] == x;
    } else {
      var k := MakeRoom(j.intents) + [Intent(p, Queued)];
      assert k[|k| - 1] in k;
    }
  }

  // There, back and there again, each acknowledged before the next: the third change is owed to nobody.
  lemma ThirdMoveIsNeverSent(j: Journal, there: Payload, back: Payload, canonical: string -> string)
    requires j.intents == [] && there != back
    ensures var j1 := Reduce(Reduce(j, LocalChange(there), canonical), AckIntent(there), canonical);
            var j2 := Reduce(Reduce(j1, LocalChange(back), canonical), AckIntent(back), canonical);
            var j3 := Reduce(j2, LocalChange(there), canonical);
            j3 == j2 && !Owed(j3.intents, there)
  {
    var began := Reduce(j, LocalChange(there), canonical);
    assert began.intents == [Intent(there, Queued)];
    MarkedLast([], Intent(there, Queued), there, Acked);
    assert began.intents == [] + [Intent(there, Queued)];
    var j1 := Reduce(began, AckIntent(there), canonical);
    assert j1.intents == [Intent(there, Acked)];
    var moved := Reduce(j1, LocalChange(back), canonical);
    assert moved.intents == [Intent(there, Acked)] + [Intent(back, Queued)];
    MarkedLast([Intent(there, Acked)], Intent(back, Queued), back, Acked);
    var j2 := Reduce(moved, AckIntent(back), canonical);
    assert j2.intents == [Intent(there, Acked), Intent(back, Acked)];
    assert j2.intents[0] in j2.intents;
  }

  lemma {:induction false} MarkedLast(xs: seq<Intent>, x: Intent, p: Payload, status: IntentStatus)
    requires (forall y | y in xs :: y.payload != p) && x.payload == p && x.status != Acked
    ensures Marked(xs + [x], p, status) == xs + [x.(status := status)]
  {
    if xs == [] {
      assert (xs + [x])[1..] == [];
    } else {
      assert (xs + [x])[1..] == xs[1..] + [x];
      MarkedLast(xs[1..], x, p, status);
    }
  }

  /** A local change once owed stays owed until its acknowledgement or a rebuild, over any run. */
  lemma {:induction false} OwedUntilAcknowledged(j: Journal, steps: seq<Step>, canonical: string -> string, owed: Payload)
    requires Owed(j.intents, owed) && forall step | step in steps :: !step.RebuildPressed? && step != AckIntent(owed)
    ensures Owed(After(j, steps, canonical).intents, owed)
    decreases |steps|
  {
    if steps != [] {
      assert steps[0] in steps;
      OnlyRebuildDropsOwed(j, steps[0], canonical, owed);
      OwedUntilAcknowledged(Reduce(j, steps[0], canonical), steps[1..], canonical, owed);
    }
  }

  function After(j: Journal, steps: seq<Step>, canonical: string -> string): Journal
    decreases |steps|
  {
    if steps == [] then j else After(Reduce(j, steps[0], canonical), steps[1..], canonical)
  }

  lemma {:induction false} AfterSnoc(j: Journal, steps: seq<Step>, step: Step, canonical: string -> string)
    ensures After(j, steps + [step], canonical) == Reduce(After(j, steps, canonical), step, canonical)
    decreases |steps|
  {
    if steps == [] {
      assert ([] + [step])[1..] == [];
    } else {
      AfterSnoc(Reduce(j, steps[0], canonical), steps[1..], step, canonical);
      assert (steps + [step])[1..] == steps[1..] + [step];
    }
  }

  // Both ways of running say the same.
  lemma {:induction false} RunIsAfter(steps: seq<Step>, canonical: string -> string)
    ensures RunOf(steps, canonical) == After(EmptyJournal(), steps, canonical)
  {
    if steps != [] {
      var n := |steps| - 1;
      RunIsAfter(steps[..n], canonical);
      AfterSnoc(EmptyJournal(), steps[..n], steps[n], canonical);
      assert steps[..n] + [steps[n]] == steps;
    }
  }

  // The step captures a change that is not among the intents kept.
  predicate CapturesNew(j: Journal, step: Step, p: Payload) {
    && !Intended(j.intents, p)
    && (step == LocalChange(p) || (step.ChromeCallback? && PayloadOf(step.callback) == p && FirstPending(j.receipts, step.callback) == |j.receipts|))
  }

  ghost predicate CapturedAt(j: Journal, steps: seq<Step>, canonical: string -> string, i: nat, p: Payload) {
    i < |steps| && CapturesNew(After(j, steps[..i], canonical), steps[i], p)
  }

  lemma MarkedOwes(xs: seq<Intent>, p: Payload, status: IntentStatus, owed: Payload)
    requires status != Queued
    ensures Owed(Marked(xs, p, status), owed) <==> Owed(xs, owed) && !(status == Acked && p == owed)
  {
    MarkedIndexed(xs, p, status);
    var ys := Marked(xs, p, status);
    if Owed(ys, owed) {
      var y :| y in ys && y.payload == owed && y.status != Acked;
      var i :| 0 <= i < |ys| && ys[i] == y;
      assert xs[i] in xs;
    }
    if Owed(xs, owed) && !(status == Acked && p == owed) { MarkedKeepsOwed(xs, p, status, owed); }
  }

  lemma CaptureOwes(j: Journal, p: Payload, owed: Payload)
    ensures Owed(Capture(j, p).intents, owed) <==> Owed(j.intents, owed) || (p == owed && !Intended(j.intents, p))
  {
    MakeRoomKeeps(j.intents);
    if !Intended(j.intents, p) {
      var k := MakeRoom(j.intents) + [Intent(p, Queued)];
      assert k[|k| - 1] in k;
    }
    if Owed(j.intents, owed) { CaptureKeepsOwed(j, p, owed); }
  }

  lemma OwedStepIff(j: Journal, step: Step, canonical: string -> string, p: Payload)
    requires !step.RebuildPressed?
    ensures Owed(Reduce(j, step, canonical).intents, p) <==> (Owed(j.intents, p) && step != AckIntent(p)) || CapturesNew(j, step, p)
  {
    match step
    case ChromeCallback(c) => if FirstPending(j.receipts, c) == |j.receipts| { CaptureOwes(j, PayloadOf(c), p); }
    case LocalChange(q) => CaptureOwes(j, q, p);
    case SendIntent(q) => MarkedOwes(j.intents, q, Sent, p);
    case AckIntent(q) => MarkedOwes(j.intents, q, Acked, p);
    case _ =>
  }

  // A run from its second step on captures what the run does from there on.
  lemma CapturedLater(j: Journal, steps: seq<Step>, canonical: string -> string, i: nat, p: Payload)
    requires i + 1 < |steps|
    ensures CapturedAt(j, steps, canonical, i + 1, p) <==> CapturedAt(Reduce(j, steps[0], canonical), steps[1..], canonical, i, p)
    ensures steps[i + 2..] == steps[1..][i + 1..]
  {
    assert steps[..i + 1][1..] == steps[1..][..i];
  }

  ghost predicate CapturedUnacked(j: Journal, steps: seq<Step>, canonical: string -> string, p: Payload) {
    exists i: nat :: CapturedAt(j, steps, canonical, i, p) && AckIntent(p) !in steps[i + 1..]
  }

  /** Over any run without a rebuild a change is owed at the end if and only if it was owed before and never
      acknowledged, or was captured and not acknowledged since. */
  lemma {:induction false} OwedAfterIff(j: Journal, steps: seq<Step>, canonical: string -> string, p: Payload)
    requires forall step | step in steps :: !step.RebuildPressed?
    ensures Owed(After(j, steps, canonical).intents, p) <==> (Owed(j.intents, p) && AckIntent(p) !in steps) || CapturedUnacked(j, steps, canonical, p)
    decreases |steps|
  {
    if steps != [] {
      var first, rest := steps[0], steps[1..];
      assert steps == [first] + rest && first in steps;
      OwedStepIff(j, first, canonical, p);
      OwedAfterIff(Reduce(j, first, canonical), rest, canonical, p);
      CapturedInTwo(j, steps, canonical, p);
    }
  }

  lemma CapturedInTwo(j: Journal, steps: seq<Step>, canonical: string -> string, p: Payload)
    requires steps != []
    ensures CapturedUnacked(j, steps, canonical, p) <==>
            (CapturesNew(j, steps[0], p) && AckIntent(p) !in steps[1..]) || CapturedUnacked(Reduce(j, steps[0], canonical), steps[1..], canonical, p)
  {
    assert After(j, steps[..0], canonical) == j;
    if CapturesNew(j, steps[0], p) && AckIntent(p) !in steps[1..] { assert CapturedAt(j, steps, canonical, 0, p) && AckIntent(p) !in steps[0 + 1..]; }
    if CapturedUnacked(j, steps, canonical, p) {
      var i: nat :| CapturedAt(j, steps, canonical, i, p) && AckIntent(p) !in steps[i + 1..];
      if i > 0 { CapturedLater(j, steps, canonical, i - 1, p); }
    }
    if CapturedUnacked(Reduce(j, steps[0], canonical), steps[1..], canonical, p) {
      var i: nat :| CapturedAt(Reduce(j, steps[0], canonical), steps[1..], canonical, i, p) && AckIntent(p) !in steps[1..][i + 1..];
      CapturedLater(j, steps, canonical, i, p);
    }
  }
}
