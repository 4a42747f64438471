/**
 Delivery to Codex App threads as a machine over what survives a crash: the ledger, the cursor file with its
 pickup barriers, the ack log, and the turns the App Server has accepted. A step is one change of one of them.
 A crash drops the daemon's copy of the cursors and nothing else, so what holds along every history holds
 wherever the daemon stops. The cursor file is shared with delivery to managed sessions, which may change the
 entries of its own recipients in any way.
 */
module AppMachine {
  import opened Prelude
  import opened ChatIdentity
  import opened ChatLetters
  import opened ChatCursors
  import opened ChatSettlement
  import opened ChatCoalesce

  datatype World = World(ledger: seq<Slot>, cursors: Cursors, acked: set<MessageId>, turns: seq<MessageId>)

  const START := World([], Cursors(map[], map[], map[], None), {}, [])

  datatype Step =
    | Write(m: Letter)
    | Read(recipient: ManagedPeer, upTo: nat)
    | AckElsewhere(id: MessageId)
    | SaveLocal(local: Cursors)
    | StartTurn(key: Key)
    | AckDelivered(id: MessageId)

  /** The keys of App threads; no other destination has one of these. */
  predicate IsAppKey(key: Key) {
    "codex-app" + ":" <= key
  }

  lemma AppKeysAreAppThreads(t: Target)
    ensures IsAppKey(TargetKey(t)) <==> t.ToApp?
  {
    match t
    case ToManaged(peer) => assert ManagedPeerKey(peer)[1] == 'c' && ("codex-app" + ":")[1] == 'o';
    case ToApp(app) =>
    case ToOwner => assert TargetKey(t)[0] == 'o' && ("codex-app" + ":")[0] == 'c';
    case ToExternal(name) => assert TargetKey(t)[0] == 'e' && ("codex-app" + ":")[0] == 'c';
  }

  predicate LetterAt(ledger: seq<Slot>, index: nat, id: MessageId) {
    index < |ledger| && ledger[index].Some? && ledger[index].value.id == id
  }

  /** The barrier of a recipient: its letter, and the cursor that was moved together with it. */
  predicate WellArmed(ledger: seq<Slot>, c: Cursors, key: Key)
    requires key in c.pickups
  {
    var p := c.pickups[key];
    && p.ledgerIndex.Some? && LetterAt(ledger, p.ledgerIndex.value, p.messageId)
    && var m := ledger[p.ledgerIndex.value].value;
    && TargetKey(m.to) == key && p.conditional == IsConditional(m)
    && (!p.conditional ==> At(c.delivered, key) > p.ledgerIndex.value)
  }

  /** What allows a barrier to be dropped: the turn was accepted, and a conditional letter acknowledged. */
  predicate Done(w: World, key: Key)
    requires key in w.cursors.pickups
  {
    var p := w.cursors.pickups[key];
    p.messageId in w.turns && (p.conditional ==> p.messageId in w.acked)
  }

  predicate Kept(w: World, local: Cursors, key: Key) {
    key in w.cursors.pickups && key in local.pickups && local.pickups[key] == w.cursors.pickups[key]
  }

  /** A letter that may be passed by its cursor: accepted, or the one the barrier guards. */
  predicate Covered(w: World, pickups: map<Key, Pickup>, m: Letter) {
    m.id in w.turns || (TargetKey(m.to) in pickups && pickups[TargetKey(m.to)].messageId == m.id)
  }

  predicate Between(low: Positions, index: nat, high: Positions, key: Key) {
    At(low, key) <= index < At(high, key)
  }

  ghost predicate CursorsForward(w: World, local: Cursors) {
    forall key :: IsAppKey(key) ==> At(w.cursors.delivered, key) <= At(local.delivered, key) <= |w.ledger|
  }

  ghost predicate BarriersStand(w: World, local: Cursors) {
    forall key :: key in w.cursors.pickups && IsAppKey(key) ==> Kept(w, local, key) || Done(w, key)
  }

  predicate ArmedAnew(w: World, local: Cursors, key: Key)
    requires key in local.pickups
  {
    WellArmed(w.ledger, local, key) && local.pickups[key].messageId !in w.turns
  }

  ghost predicate ArmsAreNew(w: World, local: Cursors) {
    forall key :: key in local.pickups && IsAppKey(key) ==> Kept(w, local, key) || ArmedAnew(w, local, key)
  }

  /** An immediate letter to an App thread. */
  predicate ImmediateAt(ledger: seq<Slot>, index: nat) {
    && index < |ledger| && ledger[index].Some? && !IsConditional(ledger[index].value)
    && IsAppKey(TargetKey(ledger[index].value.to))
  }

  ghost predicate NonePassed(w: World, local: Cursors) {
    forall index: nat ::
      ImmediateAt(w.ledger, index)
      && Between(w.cursors.delivered, index, local.delivered, TargetKey(w.ledger[index].value.to))
      ==> Covered(w, local.pickups, w.ledger[index].value)
  }

  /**
   Saving the daemon's copy. Of App threads it moves no cursor back and none past a letter that is not covered,
   drops only finished barriers, and arms only letters that have no turn yet. Of managed recipients it may hold
   anything.
   */
  ghost predicate SaveOk(w: World, local: Cursors) {
    CursorsForward(w, local) && BarriersStand(w, local) && ArmsAreNew(w, local) && NonePassed(w, local)
  }

  ghost predicate Legal(w: World, s: Step, w': World) {
    match s
    case Write(m) =>
      DistinctLedger(w.ledger + [Some(m)]) && w' == w.(ledger := w.ledger + [Some(m)])
    case Read(recipient, upTo) =>
      w' == w.(cursors := Marked(w.cursors, recipient, upTo))
    case AckElsewhere(id) =>
      w' == w.(acked := w.acked + {id})
    case SaveLocal(local) =>
      SaveOk(w, local) && w' == w.(cursors := Saved(w.cursors, local))
    case StartTurn(key) =>
      && key in w.cursors.pickups && IsAppKey(key)
      && var id := w.cursors.pickups[key].messageId;
      && id !in w.turns
      && w' == w.(turns := w.turns + [id])
    case AckDelivered(id) =>
      id in w.turns && w' == w.(acked := w.acked + {id})
  }

  ghost predicate IsHistory(states: seq<World>, steps: seq<Step>) {
    && |states| == |steps| + 1 && states[0] == START
    && forall i :: 0 <= i < |steps| ==> Legal(states[i], steps[i], states[i + 1])
  }

  // ---- Every accepted turn is accounted for -----------------------------------------------------

  predicate Settled(w: World, m: Letter, index: nat) {
    if IsConditional(m) then m.id in w.acked else At(w.cursors.delivered, TargetKey(m.to)) > index
  }

  predicate Armed(w: World, m: Letter) {
    TargetKey(m.to) in w.cursors.pickups && w.cursors.pickups[TargetKey(m.to)].messageId == m.id
  }

  predicate AccountedAt(w: World, id: MessageId, index: nat) {
    && LetterAt(w.ledger, index, id) && IsAppKey(TargetKey(w.ledger[index].value.to))
    && (Armed(w, w.ledger[index].value) || Settled(w, w.ledger[index].value, index))
  }

  ghost predicate Accounted(w: World) {
    && DistinctLedger(w.ledger)
    && (forall key :: IsAppKey(key) ==> At(w.cursors.delivered, key) <= |w.ledger|)
    && (forall key :: key in w.cursors.pickups && IsAppKey(key) ==> WellArmed(w.ledger, w.cursors, key))
    && (forall i, j :: 0 <= i < j < |w.turns| ==> w.turns[i] != w.turns[j])
    && (forall id :: id in w.turns ==> exists index: nat :: AccountedAt(w, id, index))
    && (forall index: nat :: ImmediateAt(w.ledger, index)
          && At(w.cursors.delivered, TargetKey(w.ledger[index].value.to)) > index
          ==> Covered(w, w.cursors.pickups, w.ledger[index].value))
  }

  lemma SameLetter(ledger: seq<Slot>, i: nat, j: nat, id: MessageId)
    requires DistinctLedger(ledger) && LetterAt(ledger, i, id) && LetterAt(ledger, j, id)
    ensures i == j
  {
  }

  lemma SaveKeepsAccounted(w: World, local: Cursors)
    requires Accounted(w) && SaveOk(w, local)
    ensures Accounted(w.(cursors := Saved(w.cursors, local)))
  {
    var w' := w.(cursors := Saved(w.cursors, local));
    forall key | key in w'.cursors.pickups && IsAppKey(key)
      ensures WellArmed(w'.ledger, w'.cursors, key)
    {
      if Kept(w, local, key) {
        assert WellArmed(w.ledger, w.cursors, key);
      }
    }
    forall id | id in w'.turns
      ensures exists index: nat :: AccountedAt(w', id, index)
    {
      var index: nat :| AccountedAt(w, id, index);
      var key := TargetKey(w.ledger[index].value.to);
      if Armed(w, w.ledger[index].value) {
        assert WellArmed(w.ledger, w.cursors, key);
        SameLetter(w.ledger, index, w.cursors.pickups[key].ledgerIndex.value, id);
        assert Kept(w, local, key) || Done(w, key);
      }
      assert AccountedAt(w', id, index);
    }
    forall index: nat |
      ImmediateAt(w.ledger, index) && At(w'.cursors.delivered, TargetKey(w.ledger[index].value.to)) > index
      ensures Covered(w', w'.cursors.pickups, w.ledger[index].value)
    {
      var key := TargetKey(w.ledger[index].value.to);
      if At(w.cursors.delivered, key) > index {
        assert Covered(w, w.cursors.pickups, w.ledger[index].value);
        assert key in w.cursors.pickups ==> Kept(w, local, key) || Done(w, key);
      } else {
        assert Between(w.cursors.delivered, index, local.delivered, key);
      }
    }
  }

  lemma StartedIsAccounted(w: World, key: Key, id: MessageId)
    requires Accounted(w) && key in w.cursors.pickups && IsAppKey(key)
    requires id in w.turns || id == w.cursors.pickups[key].messageId
    ensures exists index: nat :: AccountedAt(w.(turns := w.turns + [w.cursors.pickups[key].messageId]), id, index)
  {
    var p := w.cursors.pickups[key];
    var w' := w.(turns := w.turns + [p.messageId]);
    if id == p.messageId {
      assert WellArmed(w.ledger, w.cursors, key);
      assert AccountedAt(w', id, p.ledgerIndex.value);
    } else {
      var index: nat :| AccountedAt(w, id, index);
      assert AccountedAt(w', id, index);
    }
  }

  lemma StartKeepsAccounted(w: World, key: Key)
    requires Accounted(w) && key in w.cursors.pickups && IsAppKey(key)
    requires w.cursors.pickups[key].messageId !in w.turns
    ensures Accounted(w.(turns := w.turns + [w.cursors.pickups[key].messageId]))
  {
    var w' := w.(turns := w.turns + [w.cursors.pickups[key].messageId]);
    forall id | id in w'.turns
      ensures exists index: nat :: AccountedAt(w', id, index)
    {
      StartedIsAccounted(w, key, id);
    }
  }

  /** Growth of the ledger, of the ack log or of anyone's read position loses no account. */
  lemma GrowthKeepsAccounted(w: World, w': World)
    requires Accounted(w) && DistinctLedger(w'.ledger) && w.ledger <= w'.ledger && w.acked <= w'.acked
    requires w'.turns == w.turns && w'.cursors.(read := map[]) == w.cursors.(read := map[])
    ensures Accounted(w')
  {
    forall id | id in w'.turns
      ensures exists index: nat :: AccountedAt(w', id, index)
    {
      var index: nat :| AccountedAt(w, id, index);
      assert AccountedAt(w', id, index);
    }
    forall key | key in w'.cursors.pickups && IsAppKey(key)
      ensures WellArmed(w'.ledger, w'.cursors, key)
    {
      assert WellArmed(w.ledger, w.cursors, key);
    }
  }

  lemma StepKeepsAccounted(w: World, s: Step, w': World)
    requires Accounted(w) && Legal(w, s, w')
    ensures Accounted(w')
  {
    match s
    case SaveLocal(local) => SaveKeepsAccounted(w, local);
    case StartTurn(key) => StartKeepsAccounted(w, key);
    case _ => GrowthKeepsAccounted(w, w');
  }

  /**
   At every point of every history, whatever delivery to managed sessions does meanwhile, each accepted turn of an
   App thread is still behind its recipient's barrier or settled on its letter's own track, no message id has more
   than one turn, and no cursor has passed an immediate letter to an App thread that neither has a turn nor stands
   behind the barrier.
   */
  lemma {:induction false} EveryTurnIsAccountedFor(states: seq<World>, steps: seq<Step>, i: nat)
    requires IsHistory(states, steps) && i < |states|
    ensures Accounted(states[i])
  {
    if i > 0 {
      EveryTurnIsAccountedFor(states, steps, i - 1);
      assert Legal(states[i - 1], steps[i - 1], states[i]);
      StepKeepsAccounted(states[i - 1], steps[i - 1], states[i]);
    }
  }

  /**
   Why a first submission needs no proof: a letter that its own track still offers to a recipient without a
   barrier has never been accepted.
   */
  lemma OfferedWasNeverAccepted(w: World, key: Key, index: nat)
    requires Accounted(w) && key !in w.cursors.pickups
    requires index < |w.ledger| && w.ledger[index].Some? && TargetKey(w.ledger[index].value.to) == key
    requires !Settled(w, w.ledger[index].value, index)
    ensures w.ledger[index].value.id !in w.turns
  {
    var id := w.ledger[index].value.id;
    forall at: nat
      ensures !AccountedAt(w, id, at)
    {
      if LetterAt(w.ledger, at, id) {
        SameLetter(w.ledger, index, at, id);
      }
    }
  }

  predicate Guards(w: World, key: Key, id: MessageId) {
    key in w.cursors.pickups && w.cursors.pickups[key].messageId == id
  }

  /** A barrier that guards one letter now and another later was dropped in between, when its letter was done. */
  lemma {:induction false} BarrierChangesOnlyWhenDone(
    states: seq<World>, steps: seq<Step>, i: nat, j: nat, key: Key, id: MessageId) returns (s: nat)
    requires IsHistory(states, steps) && i <= j < |states|
    requires IsAppKey(key) && Guards(states[i], key, id) && !Guards(states[j], key, id)
    ensures i <= s < j && steps[s].SaveLocal? && Guards(states[s], key, id) && Done(states[s], key)
  {
    assert Legal(states[j - 1], steps[j - 1], states[j]);
    if Guards(states[j - 1], key, id) {
      s := j - 1;
      if steps[s].SaveLocal? {
        assert Kept(states[s], steps[s].local, key) || Done(states[s], key);
      }
    } else {
      s := BarrierChangesOnlyWhenDone(states, steps, i, j - 1, key, id);
    }
  }

  /**
   Two turns for one recipient are for two letters, and between them the first was accepted, acknowledged if it
   is conditional, and only then its barrier dropped.
   */
  lemma TurnsOfARecipientAreSequential(states: seq<World>, steps: seq<Step>, i: nat, j: nat, key: Key)
    returns (s: nat)
    requires IsHistory(states, steps) && i < j < |steps|
    requires steps[i] == StartTurn(key) && steps[j] == StartTurn(key)
    requires key in states[i].cursors.pickups && key in states[j].cursors.pickups
    ensures states[i].cursors.pickups[key].messageId != states[j].cursors.pickups[key].messageId
    ensures i < s < j && steps[s].SaveLocal?
    ensures Guards(states[s], key, states[i].cursors.pickups[key].messageId) && Done(states[s], key)
  {
    var id := states[i].cursors.pickups[key].messageId;
    assert Legal(states[i], steps[i], states[i + 1]);
    TurnsGrow(states, steps, i + 1, j);
    assert Legal(states[j], steps[j], states[j + 1]);
    assert states[j].turns[|states[i].turns|] == id;
    s := BarrierChangesOnlyWhenDone(states, steps, i + 1, j, key, id);
  }

  lemma {:induction false} TurnsGrow(states: seq<World>, steps: seq<Step>, i: nat, j: nat)
    requires IsHistory(states, steps) && i <= j < |states|
    ensures states[i].turns <= states[j].turns
  {
    if i < j {
      TurnsGrow(states, steps, i, j - 1);
      assert Legal(states[j - 1], steps[j - 1], states[j]);
    }
  }
}
