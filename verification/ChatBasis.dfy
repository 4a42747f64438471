/** Communication receipts: where a correspondence was authorized, resolved against this machine's own records. */
module ChatBasis {
  import opened Prelude
  import opened ChatIdentity
  import opened ChatLetters

  datatype LocalRecord = LocalRecord(message: Letter, reachedRecipient: bool)

  /** An outbound row: one attempt to hand an envelope to another machine. */
  datatype Attempt = Attempt(envelope: Letter, ok: bool)

  // ---- Looking a message up ---------------------------------------------------------------------

  function LedgerRecord(ledger: seq<Slot>, id: MessageId): Option<LocalRecord> {
    if ledger == [] then None
    else
      var last := ledger[|ledger| - 1];
      if last.Some? && last.value.id == id then Some(LocalRecord(last.value, true))
      else LedgerRecord(ledger[..|ledger| - 1], id)
  }

  /** A record that reached its recipient is kept; any other gives way to the next row of its id. */
  function Merged(ledger: seq<Slot>, outbox: seq<Attempt>, acked: set<MessageId>, id: MessageId): Option<LocalRecord> {
    if outbox == [] then LedgerRecord(ledger, id)
    else
      var last := outbox[|outbox| - 1];
      var known := Merged(ledger, outbox[..|outbox| - 1], acked, id);
      if last.envelope.id != id || (known.Some? && known.value.reachedRecipient) then known
      else Some(LocalRecord(last.envelope, last.ok || last.envelope.id in acked))
  }

  /** The index is filled from the ledger, then from the outbox, and answers every later question. */
  method LocalMessageIndex(ledger: seq<Slot>, outbox: seq<Attempt>, acked: set<MessageId>)
    returns (index: map<MessageId, LocalRecord>)
    ensures forall id: MessageId :: (if id in index then Some(index[id]) else None) == Merged(ledger, outbox, acked, id)
  {
    index := map[];
    for i := 0 to |ledger|
      invariant forall id: MessageId :: (if id in index then Some(index[id]) else None) == LedgerRecord(ledger[..i], id)
    {
      assert ledger[..i + 1][..i] == ledger[..i];
      if ledger[i].Some? {
        index := index[ledger[i].value.id := LocalRecord(ledger[i].value, true)];
      }
    }
    assert ledger[..|ledger|] == ledger;
    for i := 0 to |outbox|
      invariant forall id: MessageId ::
                  (if id in index then Some(index[id]) else None) == Merged(ledger, outbox[..i], acked, id)
    {
      assert outbox[..i + 1][..i] == outbox[..i];
      var sent := outbox[i];
      var reached := sent.ok || sent.envelope.id in acked;
      if sent.envelope.id in index && index[sent.envelope.id].reachedRecipient {
        continue;
      }
      index := index[sent.envelope.id := LocalRecord(sent.envelope, reached)];
    }
    assert outbox[..|outbox|] == outbox;
  }

  predicate InLedger(ledger: seq<Slot>, m: Letter) {
    Some(m) in ledger
  }

  predicate InOutbox(outbox: seq<Attempt>, m: Letter) {
    Attempt(m, true) in outbox || Attempt(m, false) in outbox
  }

  /** The letter is held here in a form that counts as having reached its recipient. */
  predicate Reached(ledger: seq<Slot>, outbox: seq<Attempt>, acked: set<MessageId>, m: Letter) {
    InLedger(ledger, m) || Attempt(m, true) in outbox || (InOutbox(outbox, m) && m.id in acked)
  }

  lemma {:induction false} LedgerRecordFound(ledger: seq<Slot>, id: MessageId)
    ensures LedgerRecord(ledger, id).Some? <==> exists m :: InLedger(ledger, m) && m.id == id
    ensures var r := LedgerRecord(ledger, id);
      r.Some? ==> InLedger(ledger, r.value.message) && r.value.message.id == id && r.value.reachedRecipient
  {
    if ledger != [] {
      var earlier, last := ledger[..|ledger| - 1], ledger[|ledger| - 1];
      LedgerRecordFound(earlier, id);
      assert ledger == earlier + [last];
      assert forall m :: InLedger(ledger, m) <==> InLedger(earlier, m) || last == Some(m);
    }
  }

  /**
   What a lookup answers: a record exactly when one of that id is held; one that is held; and reaching the
   recipient exactly when some record of that id did, in whatever order the attempts were written.
   */
  lemma {:induction false} LookupAnswers(ledger: seq<Slot>, outbox: seq<Attempt>, acked: set<MessageId>, id: MessageId)
    ensures var r := Merged(ledger, outbox, acked, id);
      && (r.Some? <==> exists m :: (InLedger(ledger, m) || InOutbox(outbox, m)) && m.id == id)
      && (r.Some? ==> r.value.message.id == id
                      && (InLedger(ledger, r.value.message) || InOutbox(outbox, r.value.message)))
      && (r.Some? && r.value.reachedRecipient ==> Reached(ledger, outbox, acked, r.value.message))
      && (r.Some? && r.value.reachedRecipient <==> exists m: Letter :: m.id == id && Reached(ledger, outbox, acked, m))
  {
    if outbox == [] {
      LedgerRecordFound(ledger, id);
    } else {
      var earlier, last := outbox[..|outbox| - 1], outbox[|outbox| - 1];
      LookupAnswers(ledger, earlier, acked, id);
      assert outbox == earlier + [last];
    }
  }

  // ---- Resolving a basis ------------------------------------------------------------------------

  /** A receipt to be: an opening has no root yet, a continuation brings its own. */
  datatype Opening =
    Opening(rootMessageId: Option<MessageId>, authorization: Authorization, sourceLetter: Option<SourceLetter>)

  function PrincipalThread(p: Principal): Option<string> {
    match p
    case Managed(peer) => Some(peer.threadId)
    case App(app) => Some(app.threadId)
    case _ => None
  }

  function TargetThread(t: Target): Option<string> {
    match t
    case ToManaged(peer) => Some(peer.threadId)
    case ToApp(app) => Some(app.threadId)
    case _ => None
  }

  function Snapshot(m: Letter): SourceLetter {
    SourceLetter(m.id, m.ts, m.from, m.to, m.task, m.body)
  }

  function FromPeerLetter(from: Principal, to: Target, evidence: Authorization, threadId: string, record: Letter)
    : Result<Option<Opening>>
  {
    var addressed := TargetKey(record.to) == PrincipalKey(from);
    :- Need(addressed, "addressed-to-another");
    :- Need(PrincipalThread(record.from) == Some(threadId), "written-in-another-thread");
    :- Need(PrincipalKey(record.from) == TargetKey(to), "not-a-reply-to-that-peer");
    :- Need(evidence.quote.Some? && Occurs(evidence.quote.value, record.body), "quote-absent");
    :- Need(|record.body| <= RECEIPT_BODY, "letter-too-long");
    Ok(Some(Opening(None, evidence, Some(Snapshot(record)))))
  }

  function FromOwnLetter(from: Principal, to: Target, threadId: string, record: Letter): Result<Option<Opening>> {
    var own := PrincipalKey(record.from) == PrincipalKey(from);
    :- Need(own, "not-your-letter");
    :- Need(TargetKey(record.to) == TargetKey(to), "went-to-another");
    :- Need(TargetThread(to) == Some(threadId), "names-another-thread");
    :- Need(record.authorization.Some?, "carries-no-authorization");
    :- Need(record.receipt.Some?, "no-opening-receipt");
    var r := record.receipt.value;
    Ok(Some(Opening(Some(r.rootMessageId), r.authorization, r.sourceLetter)))
  }

  function ResolveCommunicationBasis(
    from: Principal, to: Target, task: Option<string>, evidence: Option<Authorization>,
    lookup: MessageId -> Option<LocalRecord>) : Result<Option<Opening>>
  {
    if evidence.None? then Ok(None)
    else
      var e := evidence.value;
      :- Need(e.basis.Some?, "basis-unnamed");
      if e.basis.value.UserInstruction? then Ok(Some(Opening(None, e, None)))
      else
        :- Need(e.source.Names?, "invalid-reference");
        var found := lookup(e.source.messageId);
        :- Need(found.Some?, "no-record");
        :- Need(found.value.reachedRecipient, "never-reached");
        var record := found.value.message;
        :- Need(record.task == task, "another-task");
        if e.basis.value.PeerLetter? then FromPeerLetter(from, to, e, e.source.threadId, record)
        else FromOwnLetter(from, to, e.source.threadId, record)
  }

  /** Only a sender whose records live here can have a reference resolved against them. */
  function RequireOriginatingBasis(
    from: Principal, to: Target, task: Option<string>, evidence: Option<Authorization>,
    lookup: Option<MessageId -> Option<LocalRecord>>) : Result<Option<Opening>>
  {
    if evidence.None? then Ok(None)
    else if lookup.Some? then ResolveCommunicationBasis(from, to, task, evidence, lookup.value)
    else
      :- Need(evidence.value.basis.Some?, "basis-unnamed");
      :- Need(evidence.value.basis.value.UserInstruction?, "must-resolve-at-origin");
      Ok(Some(Opening(None, evidence.value, None)))
  }

  /** The receipt an envelope carries: an opening letter is its own root. */
  function Stamped(opening: Option<Opening>, id: MessageId): Option<Receipt> {
    if opening.None? then None
    else
      var o := opening.value;
      Some(Receipt(if o.rootMessageId.Some? then o.rootMessageId.value else id, o.authorization, o.sourceLetter))
  }

  // ---- Every run of composing, sending, retrying and receiving ----------------------------------

  /** This machine's records: its ledger, its attempts to send abroad, and which of their ids are settled. */
  datatype World = World(ledger: seq<Slot>, outbox: seq<Attempt>, acked: set<MessageId>)

  const EMPTY := World([], [], {})

  function Lookup(w: World): MessageId -> Option<LocalRecord> {
    (id: MessageId) => Merged(w.ledger, w.outbox, w.acked, id)
  }

  predicate Held(w: World, m: Letter) {
    InLedger(w.ledger, m) || InOutbox(w.outbox, m)
  }

  predicate HasReached(w: World, m: Letter) {
    Reached(w.ledger, w.outbox, w.acked, m)
  }

  function MachineOf(p: Principal): string {
    match p
    case Managed(peer) => peer.machine
    case App(app) => app.machine
    case Cli(machine) => machine
    case Service(machine, _) => machine
  }

  /** A session or thread of this machine, or of another one. Owners are of neither. */
  predicate ThreadAt(t: Target, here: string) {
    (t.ToManaged? && t.peer.machine == here) || (t.ToApp? && t.app.machine == here)
  }

  predicate Abroad(t: Target, here: string) {
    (t.ToManaged? && t.peer.machine != here) || (t.ToApp? && t.app.machine != here)
  }

  /**
   How a retry ends: the other side answers that it has the letter; the peer cannot be addressed from here any more;
   the other side refuses it for good; or nothing is learned, though the letter may have landed.
   */
  datatype Outcome = Answered | Unaddressable | PermanentlyRefused | Lost(landed: bool) {
    predicate Landed() {
      Answered? || (Lost? && landed)
    }

    predicate GivesUp() {
      Unaddressable? || PermanentlyRefused?
    }
  }

  /**
   `seen` is the moment the records were looked up; the letter is written some time after it. A first attempt is
   `ok` when its landing was answered for. Recording an attempt or an ack is best effort: when the write fails,
   nothing is recorded.
   */
  datatype Event =
    | Accept(m: Letter, seen: nat)
    | Send(m: Letter, seen: nat, landed: bool, answered: bool, recorded: bool)
    | Retry(m: Letter, outcome: Outcome, recorded: bool)
    | Arrive(m: Letter)

  /** Composed here: with the receipt its evidence resolves to, or with none. */
  ghost predicate Composed(here: string, w: World, m: Letter) {
    && LetterOk(m)
    && (m.receipt.None?
        || exists opening ::
             && RequireOriginatingBasis(
                  m.from, m.to, m.task, m.authorization, if MachineOf(m.from) == here then Some(Lookup(w)) else None)
                == Ok(opening)
             && m.receipt == Stamped(opening, m.id))
  }

  /** What the receiver checks of an envelope from elsewhere. Who it says it is from is not part of it. */
  predicate Receivable(here: string, ledger: seq<Slot>, m: Letter) {
    && LetterOk(m) && ThreadAt(m.to, here)
    && m.authorization.Some? && m.authorization.value.basis.Some?
    && (m.authorization.value.basis.value.UserInstruction? || m.receipt.Some?)
    && forall slot :: slot in ledger && slot.Some? ==> slot.value.id != m.id
  }

  ghost predicate Happens(here: string, seen: World, w: World, e: Event, w': World) {
    match e
    case Accept(m, _) =>
      Composed(here, seen, m) && !Abroad(m.to, here) && w' == w.(ledger := w.ledger + [Some(m)])
    case Send(m, _, landed, answered, recorded) =>
      && Composed(here, seen, m) && Abroad(m.to, here)
      && w' == w.(outbox := if recorded then w.outbox + [Attempt(m, landed && answered)] else w.outbox)
    case Retry(m, outcome, recorded) =>
      && Attempt(m, false) in w.outbox && m.to.ToManaged?
      && w' == w.(acked := if recorded && !outcome.Lost? then w.acked + {m.id} else w.acked)
    case Arrive(m) =>
      Receivable(here, w.ledger, m) && w' == w.(ledger := w.ledger + [Some(m)])
  }

  function SeenAt(e: Event, now: nat): nat {
    match e
    case Accept(_, seen) => seen
    case Send(_, seen, _, _, _) => seen
    case _ => now
  }

  ghost predicate EventOk(here: string, states: seq<World>, e: Event, i: nat)
    requires i + 1 < |states|
  {
    SeenAt(e, i) <= i && Happens(here, states[SeenAt(e, i)], states[i], e, states[i + 1])
  }

  ghost predicate IsHistory(here: string, states: seq<World>, events: seq<Event>) {
    && |states| == |events| + 1 && states[0] == EMPTY
    && forall i :: 0 <= i < |events| ==> EventOk(here, states, events[i], i)
  }

  // ---- What every record stands on --------------------------------------------------------------

  predicate SameCorrespondence(a: Letter, b: Letter) {
    PrincipalKey(a.from) == PrincipalKey(b.from) && TargetKey(a.to) == TargetKey(b.to) && a.task == b.task
  }

  /** The letter that opened the correspondence, with this very receipt. */
  ghost predicate RootOf(w: World, m: Letter, root: Letter) {
    && Held(w, root) && m.receipt.Some?
    && root.id == m.receipt.value.rootMessageId && root.receipt == m.receipt
    && root.authorization == Some(m.receipt.value.authorization)
    && SameCorrespondence(root, m)
  }

  /** The letter a continuation names, which had reached its recipient. */
  ghost predicate PredecessorOf(w: World, m: Letter, p: Letter) {
    && HasReached(w, p) && m.authorization.Some? && TargetThread(m.to).Some?
    && m.authorization.value.source == Names(TargetThread(m.to).value, p.id)
    && p.receipt == m.receipt && SameCorrespondence(p, m)
  }

  /** The peer letter that carried the permission, quoted from what it says. */
  ghost predicate Carried(w: World, m: Letter, s: Letter) {
    && HasReached(w, s) && m.receipt.Some?
    && var r := m.receipt.value;
    && r.sourceLetter == Some(Snapshot(s)) && |s.body| <= RECEIPT_BODY
    && r.authorization.quote.Some? && Occurs(r.authorization.quote.value, s.body)
    && TargetKey(s.to) == PrincipalKey(m.from) && PrincipalKey(s.from) == TargetKey(m.to) && s.task == m.task
  }

  ghost predicate Grounded(w: World, m: Letter) {
    m.receipt.Some? ==>
      && var r := m.receipt.value;
      && (r.authorization.basis == Some(UserInstruction) || r.authorization.basis == Some(PeerLetter))
      && (exists root :: RootOf(w, m, root))
      && (m.authorization.Some? && m.authorization.value.basis == Some(ThreadContinuation) ==>
            exists p :: PredecessorOf(w, m, p))
      && (r.authorization.basis == Some(UserInstruction) <==> r.sourceLetter.None?)
      && (r.sourceLetter.Some? ==> exists s :: Carried(w, m, s))
  }

  // ---- Proof ------------------------------------------------------------------------------------

  ghost predicate Grows(w: World, w': World) {
    && (forall m :: InLedger(w.ledger, m) ==> InLedger(w'.ledger, m))
    && (forall a :: a in w.outbox ==> a in w'.outbox)
    && w.acked <= w'.acked
  }

  lemma {:induction false} RecordsGrow(here: string, states: seq<World>, events: seq<Event>, i: nat, j: nat)
    requires IsHistory(here, states, events) && i <= j < |states|
    ensures Grows(states[i], states[j])
  {
    if i < j {
      RecordsGrow(here, states, events, i, j - 1);
      assert EventOk(here, states, events[j - 1], j - 1);
    }
  }

  lemma OwnInstructionIsGrounded(w: World, m: Letter)
    requires Held(w, m) && m.authorization.Some? && m.authorization.value.basis == Some(UserInstruction)
    requires m.receipt == Some(Receipt(m.id, m.authorization.value, None))
    ensures Grounded(w, m)
  {
    assert RootOf(w, m, m);
  }

  lemma PeerLetterIsGrounded(w: World, m: Letter, record: Letter, threadId: string)
    requires Held(w, m) && HasReached(w, record) && record.task == m.task
    requires m.authorization.Some? && m.authorization.value.basis == Some(PeerLetter)
    requires var r := FromPeerLetter(m.from, m.to, m.authorization.value, threadId, record);
      r.Ok? && m.receipt == Stamped(r.value, m.id)
    ensures Grounded(w, m)
  {
    assert RootOf(w, m, m);
    assert Carried(w, m, record);
  }

  lemma ContinuationIsGrounded(here: string, w: World, m: Letter, record: Letter)
    requires HasReached(w, record) && record.task == m.task && PrincipalOk(m.from) && LetterOk(record)
    requires m.authorization.Some? && m.authorization.value.basis == Some(ThreadContinuation)
    requires m.authorization.value.source.Names? && m.authorization.value.source.messageId == record.id
    requires var r := FromOwnLetter(m.from, m.to, m.authorization.value.source.threadId, record);
      r.Ok? && m.receipt == Stamped(r.value, m.id)
    requires MachineOf(m.from) == here && (MachineOf(record.from) == here ==> Grounded(w, record))
    ensures Grounded(w, m)
  {
    PrincipalKeysAreRoutes(record.from, m.from);
    assert MachineOf(record.from) == here;
    assert m.receipt == record.receipt;
    var root :| RootOf(w, record, root);
    assert RootOf(w, m, root);
    assert PredecessorOf(w, m, record);
    if m.receipt.value.sourceLetter.Some? {
      var s :| Carried(w, record, s);
      assert Carried(w, m, s);
    }
  }

  /** Every record of `seen` is well formed, and if it is written on this machine, `w` holds what it stands on. */
  ghost predicate GroundedIn(here: string, seen: World, w: World) {
    forall m :: Held(seen, m) ==> LetterOk(m) && (MachineOf(m.from) == here ==> Grounded(w, m))
  }

  ghost predicate RecordsAreGrounded(here: string, w: World) {
    GroundedIn(here, w, w)
  }

  lemma LookupHolds(w: World, id: MessageId)
    requires Lookup(w)(id).Some? && Lookup(w)(id).value.reachedRecipient
    ensures var record := Lookup(w)(id).value.message;
      record.id == id && Held(w, record) && HasReached(w, record)
  {
    LookupAnswers(w.ledger, w.outbox, w.acked, id);
  }

  lemma ReferenceIsGrounded(here: string, seen: World, w: World, m: Letter, record: Letter)
    requires GroundedIn(here, seen, w) && Grows(seen, w) && Held(w, m)
    requires PrincipalOk(m.from) && MachineOf(m.from) == here
    requires m.authorization.Some? && m.authorization.value.source.Names?
    requires record.id == m.authorization.value.source.messageId && HasReached(seen, record) && record.task == m.task
    requires var (e, threadId) := (m.authorization.value, m.authorization.value.source.threadId);
      || (e.basis == Some(PeerLetter)
          && var r := FromPeerLetter(m.from, m.to, e, threadId, record);
          && r.Ok? && m.receipt == Stamped(r.value, m.id))
      || (e.basis == Some(ThreadContinuation)
          && var r := FromOwnLetter(m.from, m.to, threadId, record);
          && r.Ok? && m.receipt == Stamped(r.value, m.id))
    ensures Grounded(w, m)
  {
    assert HasReached(w, record) && Held(seen, record);
    if m.authorization.value.basis == Some(PeerLetter) {
      PeerLetterIsGrounded(w, m, record, m.authorization.value.source.threadId);
    } else {
      ContinuationIsGrounded(here, w, m, record);
    }
  }

  /** What a resolved reference has established about the record it names. */
  lemma ResolvedReference(
    from: Principal, to: Target, task: Option<string>, e: Authorization, lookup: MessageId -> Option<LocalRecord>,
    opening: Option<Opening>)
    requires e.basis != Some(UserInstruction)
    requires ResolveCommunicationBasis(from, to, task, Some(e), lookup) == Ok(opening)
    ensures e.source.Names? && lookup(e.source.messageId).Some?
    ensures var found := lookup(e.source.messageId).value;
      && found.reachedRecipient && found.message.task == task
      && (|| (e.basis == Some(PeerLetter)
              && FromPeerLetter(from, to, e, e.source.threadId, found.message) == Ok(opening))
          || (e.basis == Some(ThreadContinuation)
              && FromOwnLetter(from, to, e.source.threadId, found.message) == Ok(opening)))
  {
  }

  lemma ComposedIsGrounded(here: string, seen: World, w: World, m: Letter)
    requires GroundedIn(here, seen, w) && Grows(seen, w) && Held(w, m)
    requires Composed(here, seen, m) && MachineOf(m.from) == here
    ensures Grounded(w, m)
  {
    if m.receipt.Some? {
      var opening :| RequireOriginatingBasis(m.from, m.to, m.task, m.authorization, Some(Lookup(seen))) == Ok(opening)
                     && m.receipt == Stamped(opening, m.id);
      if m.authorization.value.basis == Some(UserInstruction) {
        OwnInstructionIsGrounded(w, m);
      } else {
        ResolvedReference(m.from, m.to, m.task, m.authorization.value, Lookup(seen), opening);
        LookupHolds(seen, m.authorization.value.source.messageId);
        ReferenceIsGrounded(here, seen, w, m, Lookup(seen)(m.authorization.value.source.messageId).value.message);
      }
    }
  }

  /** The mail that arrived before state `i` in the name of a sender of this machine. */
  predicate Impersonated(here: string, events: seq<Event>, i: nat, j: nat) {
    j < i && j < |events| && events[j].Arrive? && MachineOf(events[j].m.from) == here
  }

  ghost predicate ImpersonatedAreGrounded(here: string, events: seq<Event>, i: nat, w: World) {
    forall j: nat :: Impersonated(here, events, i, j) ==> Grounded(w, events[j].m)
  }

  lemma OneEventGrounded(here: string, states: seq<World>, events: seq<Event>, j: nat, w: World)
    requires IsHistory(here, states, events) && j < |events| && Grows(states[j + 1], w)
    requires GroundedIn(here, states[j], w) && SeenAt(events[j], j) <= j
    requires GroundedIn(here, states[SeenAt(events[j], j)], w) && Grows(states[SeenAt(events[j], j)], w)
    requires events[j].Arrive? && MachineOf(events[j].m.from) == here ==> Grounded(w, events[j].m)
    ensures GroundedIn(here, states[j + 1], w)
  {
    assert EventOk(here, states, events[j], j);
    forall m | Held(states[j + 1], m) && !Held(states[j], m)
      ensures LetterOk(m) && (MachineOf(m.from) == here ==> Grounded(w, m))
    {
      assert Held(w, m);
      if MachineOf(m.from) == here && !events[j].Arrive? {
        ComposedIsGrounded(here, states[SeenAt(events[j], j)], w, m);
      }
    }
  }

  lemma GroundedNext(here: string, states: seq<World>, events: seq<Event>, k: nat, i: nat)
    requires IsHistory(here, states, events) && k < i < |states| && SeenAt(events[k], k) <= k
    requires ImpersonatedAreGrounded(here, events, i, states[i])
    requires GroundedIn(here, states[k], states[i]) && GroundedIn(here, states[SeenAt(events[k], k)], states[i])
    ensures GroundedIn(here, states[k + 1], states[i])
  {
    RecordsGrow(here, states, events, k + 1, i);
    RecordsGrow(here, states, events, SeenAt(events[k], k), i);
    assert Impersonated(here, events, i, k) ==> Grounded(states[i], events[k].m);
    OneEventGrounded(here, states, events, k, states[i]);
  }

  lemma {:induction false} GroundedUpTo(here: string, states: seq<World>, events: seq<Event>, j: nat, i: nat)
    requires IsHistory(here, states, events) && j <= i < |states|
    requires ImpersonatedAreGrounded(here, events, i, states[i])
    ensures GroundedIn(here, states[j], states[i])
    decreases j
  {
    if j > 0 {
      var k := j - 1;
      assert EventOk(here, states, events[k], k);
      GroundedUpTo(here, states, events, k, i);
      GroundedUpTo(here, states, events, SeenAt(events[k], k), i);
      GroundedNext(here, states, events, k, i);
    }
  }

  /**
   In every state of every history, a record written on this machine that carries a receipt has the opening letter
   on record too, between the same two keys, on the same task and with the identical receipt; a continuation's
   predecessor had reached its recipient; and a quoted permission is in the letter it quotes. That holds of all
   records if and only if it holds of the mail that arrived from elsewhere in the name of a sender of this machine,
   which the receiver does not refuse: everything composed here, continuations of such mail included, keeps it.
   */
  lemma EveryRecordIsGrounded(here: string, states: seq<World>, events: seq<Event>, i: nat)
    requires IsHistory(here, states, events) && i < |states|
    ensures RecordsAreGrounded(here, states[i]) <==> ImpersonatedAreGrounded(here, events, i, states[i])
  {
    if ImpersonatedAreGrounded(here, events, i, states[i]) {
      GroundedUpTo(here, states, events, i, i);
    }
    forall j: nat | Impersonated(here, events, i, j) && RecordsAreGrounded(here, states[i])
      ensures Grounded(states[i], events[j].m)
    {
      assert EventOk(here, states, events[j], j);
      assert InLedger(states[j + 1].ledger, events[j].m);
      RecordsGrow(here, states, events, j + 1, i);
      assert Held(states[i], events[j].m);
    }
  }

  /** Such mail: received, in the name of a sender of this machine, with a receipt whose root nobody has. */
  lemma ImpersonatedMailIsNotGrounded(
    from: Principal, to: Target, instruction: Authorization, id: MessageId, root: MessageId)
    returns (states: seq<World>, events: seq<Event>, m: Letter)
    requires PrincipalOk(from) && TargetOk(to) && ThreadAt(to, MachineOf(from)) && id != root
    requires AuthorizationOk(instruction) && instruction.basis == Some(UserInstruction)
    ensures IsHistory(MachineOf(from), states, events) && events == [Arrive(m)] && m.from == from
    ensures !RecordsAreGrounded(MachineOf(from), states[1])
  {
    m := Letter(id, "", from, to, false, "", None, true, Anytime, None, Some(instruction),
                Some(Receipt(root, instruction, None)));
    var w := World([Some(m)], [], {});
    states, events := [EMPTY, w], [Arrive(m)];
    assert Happens(MachineOf(from), EMPTY, EMPTY, events[0], w);
    assert EventOk(MachineOf(from), states, events[0], 0);
    assert InLedger(w.ledger, m);
    assert !Grounded(w, m) by {
      forall x ensures !RootOf(w, m, x) {
        assert Held(w, x) ==> x == m;
      }
    }
    assert Held(states[1], m);
  }

  // ---- Reaching the recipient, as recorded and in fact ------------------------------------------

  predicate Lands(e: Event, id: MessageId) {
    (e.Send? && e.m.id == id && e.landed) || (e.Retry? && e.m.id == id && e.outcome.Landed())
  }

  predicate GivesUpOn(e: Event, id: MessageId) {
    e.Retry? && e.m.id == id && e.recorded && e.outcome.GivesUp()
  }

  /** The other side has the letter, whether or not this one learned of it. */
  predicate Landed(events: seq<Event>, i: nat, id: MessageId) {
    exists j :: 0 <= j < i && j < |events| && Lands(events[j], id)
  }

  predicate GivenUp(events: seq<Event>, i: nat, id: MessageId) {
    exists j :: 0 <= j < i && j < |events| && GivesUpOn(events[j], id)
  }

  /** A first attempt that landed, was answered for, and was put on record. */
  predicate AnswersSend(e: Event, m: Letter) {
    e.Send? && e.m == m && e.landed && e.answered && e.recorded
  }

  predicate AnswersRetry(e: Event, id: MessageId) {
    e.Retry? && e.m.id == id && e.outcome.Answered? && e.recorded
  }

  /** Some attempt was answered for, and the answer is on record. */
  predicate Answered(events: seq<Event>, i: nat, m: Letter) {
    exists j :: 0 <= j < i && j < |events| && (AnswersSend(events[j], m) || AnswersRetry(events[j], m.id))
  }

  lemma EventsSoFar(events: seq<Event>, i: nat, m: Letter)
    requires i < |events|
    ensures Answered(events, i + 1, m)
       <==> Answered(events, i, m) || AnswersSend(events[i], m) || AnswersRetry(events[i], m.id)
    ensures GivenUp(events, i + 1, m.id) <==> GivenUp(events, i, m.id) || GivesUpOn(events[i], m.id)
  {
  }

  /** What the records of an outbound letter say, as the events that wrote them. */
  ghost predicate Recorded(w: World, events: seq<Event>, i: nat, m: Letter) {
    && (Attempt(m, true) in w.outbox || m.id in w.acked ==> Answered(events, i, m) || GivenUp(events, i, m.id))
    && (Answered(events, i, m) ==> Attempt(m, true) in w.outbox || m.id in w.acked)
    && (GivenUp(events, i, m.id) ==> m.id in w.acked)
  }

  lemma RecordedStep(here: string, seen: World, w: World, events: seq<Event>, i: nat, w': World, m: Letter)
    requires i < |events| && Happens(here, seen, w, events[i], w') && Recorded(w, events, i, m)
    ensures Recorded(w', events, i + 1, m)
  {
    EventsSoFar(events, i, m);
  }

  lemma {:induction false} RecordedSoFar(
    here: string, states: seq<World>, events: seq<Event>, i: nat, m: Letter)
    requires IsHistory(here, states, events) && i < |states|
    ensures Recorded(states[i], events, i, m)
  {
    if i > 0 {
      var k := i - 1;
      RecordedSoFar(here, states, events, k, m);
      assert EventOk(here, states, events[k], k);
      RecordedStep(here, states[SeenAt(events[k], k)], states[k], events, k, states[k + 1], m);
    }
  }

  lemma AnsweredHasLanded(events: seq<Event>, i: nat, m: Letter)
    requires Answered(events, i, m)
    ensures Landed(events, i, m.id)
  {
    var j :| 0 <= j < i && j < |events| && (AnswersSend(events[j], m) || AnswersRetry(events[j], m.id));
    assert Lands(events[j], m.id);
  }

  /**
   A letter sent abroad counts as reached if and only if some attempt was answered for on record or it was given up:
   settling an unaddressable or refused letter writes the same ack as delivering it. So one that never landed counts
   as reached exactly when it was given up.
   */
  lemma ReachedButNotLanded(here: string, states: seq<World>, events: seq<Event>, i: nat, m: Letter)
    requires IsHistory(here, states, events) && i < |states|
    requires InOutbox(states[i].outbox, m) && !InLedger(states[i].ledger, m)
    ensures HasReached(states[i], m) <==> Answered(events, i, m) || GivenUp(events, i, m.id)
    ensures !Landed(events, i, m.id) ==> (HasReached(states[i], m) <==> GivenUp(events, i, m.id))
  {
    RecordedSoFar(here, states, events, i, m);
    if Answered(events, i, m) {
      AnsweredHasLanded(events, i, m);
    }
  }

  /** A letter that stands on its sender's own instruction can always be composed. */
  lemma OpeningIsComposed(here: string, seen: World, m: Letter, instruction: Authorization)
    requires LetterOk(m) && MachineOf(m.from) == here && instruction.basis == Some(UserInstruction)
    requires m.authorization == Some(instruction) && m.receipt == Some(Receipt(m.id, instruction, None))
    ensures Composed(here, seen, m)
  {
    var own := Opening(None, instruction, None);
    assert RequireOriginatingBasis(m.from, m.to, m.task, m.authorization, Some(Lookup(seen))) == Ok(Some(own));
    assert Stamped(Some(own), m.id) == m.receipt;
  }

  /** A continuation of a letter given up is composed like any other. */
  lemma GivenUpIsResolved(w: World, opening: Letter)
    requires w.ledger == [] && w.outbox == [Attempt(opening, false)] && opening.id in w.acked
    ensures Lookup(w)(opening.id) == Some(LocalRecord(opening, true))
  {
    assert Merged([], [], w.acked, opening.id) == None;
    assert w.outbox[..|w.outbox| - 1] == [];
  }

  lemma ContinuationIsComposed(here: string, seen: World, opening: Letter, m: Letter)
    requires LetterOk(m) && MachineOf(m.from) == here
    requires Lookup(seen)(opening.id) == Some(LocalRecord(opening, true))
    requires m.from == opening.from && m.to == opening.to && m.task == opening.task && m.receipt == opening.receipt
    requires opening.authorization.Some? && opening.receipt.Some? && TargetThread(m.to).Some?
    requires m.authorization
          == Some(Authorization(Some(ThreadContinuation), None, Names(TargetThread(m.to).value, opening.id)))
    ensures Composed(here, seen, m)
  {
    var r := opening.receipt.value;
    var taken := Opening(Some(r.rootMessageId), r.authorization, r.sourceLetter);
    assert RequireOriginatingBasis(m.from, m.to, m.task, m.authorization, Some(Lookup(seen))) == Ok(Some(taken));
    assert Stamped(Some(taken), m.id) == m.receipt;
  }

  /** Three events in a row are a history. */
  lemma ThreeEvents(here: string, states: seq<World>, events: seq<Event>)
    requires |states| == 4 && |events| == 3 && states[0] == EMPTY
    requires SeenAt(events[0], 0) == 0 && Happens(here, states[0], states[0], events[0], states[1])
    requires SeenAt(events[1], 1) == 1 && Happens(here, states[1], states[1], events[1], states[2])
    requires SeenAt(events[2], 2) == 2 && Happens(here, states[2], states[2], events[2], states[3])
    ensures IsHistory(here, states, events)
  {
    assert EventOk(here, states, events[0], 0) && EventOk(here, states, events[1], 1)
           && EventOk(here, states, events[2], 2);
  }

  /** The run: the only attempt fails, its retry is refused for good, and a continuation is sent. */
  lemma GivenUpRun(here: string, opening: Letter, next: Letter) returns (states: seq<World>, events: seq<Event>)
    requires Composed(here, EMPTY, opening) && opening.to.ToManaged? && Abroad(opening.to, here)
    requires Composed(here, World([], [Attempt(opening, false)], {opening.id}), next) && Abroad(next.to, here)
    requires next.id != opening.id
    ensures IsHistory(here, states, events) && |events| == 3
    ensures states[3] == World([], [Attempt(opening, false), Attempt(next, true)], {opening.id})
    ensures !Landed(events, 3, opening.id)
  {
    var sent, settled := World([], [Attempt(opening, false)], {}), World([], [Attempt(opening, false)], {opening.id});
    var continued := World([], [Attempt(opening, false), Attempt(next, true)], {opening.id});
    states := [EMPTY, sent, settled, continued];
    events := [Send(opening, 0, false, false, true), Retry(opening, PermanentlyRefused, true),
               Send(next, 2, true, true, true)];
    assert [] + [Attempt(opening, false)] == [Attempt(opening, false)];
    assert [Attempt(opening, false)] + [Attempt(next, true)] == [Attempt(opening, false), Attempt(next, true)];
    assert {} + {opening.id} == {opening.id};
    assert Happens(here, EMPTY, EMPTY, events[0], sent);
    assert Happens(here, sent, sent, events[1], settled);
    assert Happens(here, settled, settled, events[2], continued);
    ThreeEvents(here, states, events);
  }

  /**
   So a correspondence with a session of another machine can be opened by a letter that nobody ever received: its
   only attempt failed, its retry was refused for good, and its continuation was composed all the same.
   */
  lemma GivenUpLetterIsContinued(
    from: Principal, to: Target, instruction: Authorization, first: MessageId, second: MessageId)
    returns (states: seq<World>, events: seq<Event>, opening: Letter, next: Letter)
    requires PrincipalOk(from) && TargetOk(to) && first != second
    requires to.ToManaged? && to.peer.machine != MachineOf(from)
    requires AuthorizationOk(instruction) && instruction.basis == Some(UserInstruction)
    ensures IsHistory(MachineOf(from), states, events) && |events| == 3
    ensures Held(states[3], next) && next.receipt.Some? && PredecessorOf(states[3], next, opening)
    ensures !Landed(events, 3, opening.id) && !InLedger(states[3].ledger, opening)
  {
    var reference := Authorization(Some(ThreadContinuation), None, Names(to.peer.threadId, first));
    var receipt := Some(Receipt(first, instruction, None));
    opening := Letter(first, "", from, to, false, "", None, true, Anytime, None, Some(instruction), receipt);
    next := Letter(second, "", from, to, false, "", None, true, Anytime, None, Some(reference), receipt);
    var settled := World([], [Attempt(opening, false)], {first});
    OpeningIsComposed(MachineOf(from), EMPTY, opening, instruction);
    GivenUpIsResolved(settled, opening);
    ContinuationIsComposed(MachineOf(from), settled, opening, next);
    states, events := GivenUpRun(MachineOf(from), opening, next);
  }
}
