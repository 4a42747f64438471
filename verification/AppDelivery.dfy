/** The delivery pass for Codex App threads, and the submission of one letter. */
module AppDelivery {
  import opened Prelude
  import opened ChatIdentity
  import opened ChatLetters
  import opened ChatCursors
  import opened ChatSettlement
  import opened ChatCoalesce
  import opened AppMachine

  // ---- Everything outside the daemon's memory ---------------------------------------------------

  /** What other processes may have done in between: written, read and acknowledged, nothing else. */
  ghost predicate Elsewhere(w: World, w': World) {
    && w.ledger <= w'.ledger && w.acked <= w'.acked && w'.turns == w.turns
    && w'.cursors.(read := map[]) == w.cursors.(read := map[])
  }

  /** The same, but a turn of this letter may have been accepted. */
  ghost predicate ElsewhereOrStarted(w: World, id: MessageId, w': World) {
    Elsewhere(w, w') || (id !in w.turns && Elsewhere(w.(turns := w.turns + [id]), w'))
  }

  datatype Thread = Idle(acceptsInput: bool) | Active | SystemError | NotLoaded

  /** An RPC is answered, refused by the provider with its own sentence, or lost with the connection. */
  datatype Reply<+T> = Answer(value: T) | ProviderRefusal | Broken

  datatype Delivery = Delivered(duplicate: bool) | Held | Threw

  lemma HistoryGrows(states: seq<World>, steps: seq<Step>, s: Step, w': World)
    requires IsHistory(states, steps) && Legal(states[|states| - 1], s, w')
    ensures IsHistory(states + [w'], steps + [s])
  {
    var all, taken := states + [w'], steps + [s];
    forall i | 0 <= i < |taken|
      ensures Legal(all[i], taken[i], all[i + 1])
    {
      assert i < |steps| ==> Legal(states[i], steps[i], states[i + 1]);
    }
  }

  class Outside {
    var world: World
    ghost var states: seq<World>
    ghost var steps: seq<Step>

    ghost predicate Valid()
      reads this
    {
      IsHistory(states, steps) && world == states[|states| - 1] && Accounted(world)
    }

    /** What was recorded stays recorded. */
    ghost predicate Continues(states: seq<World>, steps: seq<Step>)
      reads this
    {
      states <= this.states && steps <= this.steps
    }

    constructor ()
      ensures Valid() && world == START
    {
      world := START;
      states, steps := [START], [];
    }

    method Take(s: Step, w': World)
      requires Valid() && Legal(world, s, w')
      modifies this
      ensures Valid() && world == w' && states == old(states) + [w'] && steps == old(steps) + [s]
    {
      StepKeepsAccounted(world, s, w');
      HistoryGrows(states, steps, s, w');
      states, steps := states + [w'], steps + [s];
      world := w';
    }

    method Meanwhile()
      requires Valid()
      modifies this
      ensures Continues(old(states), old(steps))
      ensures Valid() && Elsewhere(old(world), world)
    {
      var changes: nat := *;
      while changes > 0
        invariant Valid() && Elsewhere(old(world), world) && Continues(old(states), old(steps))
      {
        var letter: Letter := *;
        var reader: ManagedPeer := *;
        var number: nat := *;
        var kind: nat := *;
        if kind == 0 && DistinctLedger(world.ledger + [Some(letter)]) {
          Take(Write(letter), world.(ledger := world.ledger + [Some(letter)]));
        } else if kind == 1 {
          Take(Read(reader, number), world.(cursors := Marked(world.cursors, reader, number)));
        } else {
          Take(AckElsewhere(number), world.(acked := world.acked + {number}));
        }
        changes := changes - 1;
      }
    }

    /** Any request that reads: others go on, and any answer may come. */
    method AskThread() returns (r: Reply<Thread>)
      requires Valid()
      modifies this
      ensures Continues(old(states), old(steps))
      ensures Valid() && Elsewhere(old(world), world)
    {
      Meanwhile();
      r := *;
    }

    /** `turn/start`: a turn answered for has been accepted; one not answered for may have been. */
    method RequestTurn(key: Key) returns (r: Reply<()>)
      requires Valid() && key in world.cursors.pickups && IsAppKey(key)
      requires world.cursors.pickups[key].messageId !in world.turns
      modifies this
      ensures Continues(old(states), old(steps))
      ensures Valid()
      ensures ElsewhereOrStarted(old(world), old(world.cursors.pickups[key].messageId), world)
      ensures r.Answer? ==> old(world.cursors.pickups[key].messageId) in world.turns
    {
      Meanwhile();
      var accepted: bool := *;
      if accepted {
        Take(StartTurn(key), world.(turns := world.turns + [world.cursors.pickups[key].messageId]));
        r := *;
      } else {
        var refused: bool := *;
        r := if refused then ProviderRefusal else Broken;
      }
    }

    /** The exact proof of an accepted turn, when it can be read at all. */
    method Persisted(id: MessageId) returns (r: Reply<bool>)
      requires Valid()
      modifies this
      ensures Continues(old(states), old(steps))
      ensures Valid() && Elsewhere(old(world), world)
      ensures r.Answer? ==> r.value == (id in world.turns)
    {
      Meanwhile();
      var readable: bool := *;
      r := if readable then Answer(id in world.turns) else Broken;
    }

    method AppendAck(id: MessageId)
      requires Valid() && id in world.turns
      modifies this
      ensures Continues(old(states), old(steps))
      ensures Valid() && world == old(world).(acked := old(world).acked + {id})
    {
      Take(AckDelivered(id), world.(acked := world.acked + {id}));
    }

    /** The locked write; it may fail and then changes nothing. */
    method Save(local: Cursors) returns (ok: bool)
      requires Valid() && SaveOk(world, local)
      modifies this
      ensures Continues(old(states), old(steps))
      ensures Valid() && world == if ok then old(world).(cursors := Saved(old(world).cursors, local)) else old(world)
    {
      ok := *;
      if ok {
        Take(SaveLocal(local), world.(cursors := Saved(world.cursors, local)));
      }
    }
  }

  function HoldReason(t: Thread): Option<string> {
    match t
    case Active => Some("active")
    case SystemError => Some("in-system-error")
    case Idle(accepts) => if accepts then None else Some("takes-no-direct-input")
    case NotLoaded => None
  }

  /**
   Reads the thread; one that is not loaded is resumed and read again before it is judged. Only what the last read
   found counts, and a thread that could not be loaded is not idle. `seen` is what was read, in order.
   */
  method ThreadIsIdle(outside: Outside) returns (r: Reply<bool>, ghost seen: seq<Thread>)
    requires outside.Valid()
    modifies outside
    ensures outside.Continues(old(outside.states), old(outside.steps))
    ensures outside.Valid() && Elsewhere(old(outside.world), outside.world)
    ensures |seen| <= 2 && (|seen| == 2 ==> seen[0].NotLoaded?)
    ensures r.Answer? ==> seen != [] && (seen[|seen| - 1].NotLoaded? ==> |seen| == 2)
    ensures r.Answer? ==> r.value == (seen[|seen| - 1] == Idle(true))
  {
    seen := [];
    var thread := outside.AskThread();
    if !thread.Answer? {
      return if thread.ProviderRefusal? then ProviderRefusal else Broken, seen;
    }
    seen := [thread.value];
    if HoldReason(thread.value).Some? {
      return Answer(false), seen;
    }
    if thread.value.NotLoaded? {
      var resumed := outside.AskThread();
      if !resumed.Answer? {
        return if resumed.ProviderRefusal? then ProviderRefusal else Broken, seen;
      }
      thread := outside.AskThread();
      if !thread.Answer? {
        return if thread.ProviderRefusal? then ProviderRefusal else Broken, seen;
      }
      seen := seen + [thread.value];
      if HoldReason(thread.value).Some? {
        return Answer(false), seen;
      }
    }
    return Answer(thread.value.Idle?), seen;
  }

  /**
   Submits one letter behind its durable barrier. `prove` asks first whether an earlier submission was accepted.
   A letter without that proof must never have been accepted; then at most one turn is started, and what is
   reported as delivered has been accepted.
   */
  method DeliverCodexAppMessage(outside: Outside, here: string, m: Letter, prove: bool) returns (d: Delivery)
    requires outside.Valid() && Guards(outside.world, TargetKey(m.to), m.id)
    requires !prove ==> m.id !in outside.world.turns
    modifies outside
    ensures outside.Continues(old(outside.states), old(outside.steps))
    ensures outside.Valid() && ElsewhereOrStarted(old(outside.world), m.id, outside.world)
    ensures d.Delivered? ==> m.id in outside.world.turns
    ensures d == Delivered(true) ==> m.id in old(outside.world).turns
    ensures d == Delivered(false) ==> m.id !in old(outside.world).turns
  {
    if !m.to.ToApp? || m.to.app.machine != here {
      return Held;
    }
    AppKeysAreAppThreads(m.to);
    if prove {
      var persisted := outside.Persisted(m.id);
      if !persisted.Answer? {
        return Threw;
      }
      if persisted.value {
        return Delivered(true);
      }
    }
    d := RequestDelivery(outside, m);
  }

  /** Connects, waits for an idle thread and starts the one turn. */
  method RequestDelivery(outside: Outside, m: Letter) returns (d: Delivery)
    requires outside.Valid() && m.to.ToApp? && IsAppKey(TargetKey(m.to))
    requires Guards(outside.world, TargetKey(m.to), m.id) && m.id !in outside.world.turns
    modifies outside
    ensures outside.Continues(old(outside.states), old(outside.steps))
    ensures outside.Valid() && ElsewhereOrStarted(old(outside.world), m.id, outside.world)
    ensures d != Delivered(true) && (d == Delivered(false) ==> m.id in outside.world.turns)
  {
    var connected: bool := *;
    if !connected {
      return Threw;
    }
    var idle, seen := ThreadIsIdle(outside);
    if idle != Answer(true) {
      return if idle.Broken? then Threw else Held;
    }
    var started := outside.RequestTurn(TargetKey(m.to));
    if !started.Answer? {
      return if started.ProviderRefusal? then Held else Threw;
    }
    return Delivered(false);
  }

  // ---- The daemon's copy of the cursors ---------------------------------------------------------

  /** For this recipient memory and file agree about the barrier. */
  predicate InSync(w: World, local: Cursors, key: Key) {
    if key in local.pickups then Kept(w, local, key) else key !in w.cursors.pickups
  }

  /** What a pass may rely on: its ledger is how the file began, and saving its copy is legal. */
  ghost predicate Ready(w: World, ledger: seq<Slot>, local: Cursors) {
    && ledger <= w.ledger && SaveOk(w, local)
    && forall key :: IsAppKey(key) ==> At(local.delivered, key) <= |ledger|
  }

  function Without(pickups: map<Key, Pickup>, key: Key): map<Key, Pickup> {
    pickups - {key}
  }

  lemma ReadyElsewhere(w: World, w': World, ledger: seq<Slot>, local: Cursors)
    requires Ready(w, ledger, local) && Elsewhere(w, w')
    ensures Ready(w', ledger, local)
    ensures forall key :: InSync(w, local, key) ==> InSync(w', local, key)
  {
    assert forall index: nat :: index < |w.ledger| ==> w'.ledger[index] == w.ledger[index];
    assert forall key :: key in w.cursors.pickups && IsAppKey(key) ==> Kept(w, local, key) || Done(w, key);
    assert forall key :: Kept(w, local, key) <==> Kept(w', local, key);
    forall key | key in local.pickups && IsAppKey(key) && !Kept(w', local, key)
      ensures WellArmed(w'.ledger, local, key)
    {
      assert WellArmed(w.ledger, local, key);
    }
  }

  lemma ReadyStarted(w: World, ledger: seq<Slot>, local: Cursors, key: Key)
    requires Ready(w, ledger, local) && Accounted(w) && IsAppKey(key) && Kept(w, local, key)
    ensures Ready(w.(turns := w.turns + [local.pickups[key].messageId]), ledger, local)
  {
    var w' := w.(turns := w.turns + [local.pickups[key].messageId]);
    assert forall other :: Kept(w, local, other) <==> Kept(w', local, other);
    assert BarriersStand(w', local) by {
      assert forall other :: other in w.cursors.pickups && IsAppKey(other) ==> Kept(w, local, other) || Done(w, other);
      assert forall other :: other in w.cursors.pickups && Done(w, other) ==> Done(w', other);
    }
    StartedArms(w, local, key);
    assert NonePassed(w', local);
  }

  lemma StartedArms(w: World, local: Cursors, key: Key)
    requires ArmsAreNew(w, local) && Accounted(w) && IsAppKey(key) && Kept(w, local, key)
    ensures ArmsAreNew(w.(turns := w.turns + [local.pickups[key].messageId]), local)
  {
    var id := local.pickups[key].messageId;
    var w' := w.(turns := w.turns + [id]);
    assert WellArmed(w.ledger, w.cursors, key);
    forall other | other in local.pickups && IsAppKey(other) && !Kept(w', local, other)
      ensures ArmedAnew(w', local, other)
    {
      assert !Kept(w, local, other);
      assert ArmedAnew(w, local, other);
      if local.pickups[other].messageId == id {
        OneBarrierPerLetter(w, local, other, key);
      }
    }
  }

  /** Two barriers never guard the same letter. */
  lemma OneBarrierPerLetter(w: World, local: Cursors, a: Key, b: Key)
    requires DistinctLedger(w.ledger) && a in local.pickups && b in w.cursors.pickups
    requires WellArmed(w.ledger, local, a) && WellArmed(w.ledger, w.cursors, b)
    requires local.pickups[a].messageId == w.cursors.pickups[b].messageId
    ensures a == b
  {
    SameLetter(w.ledger, local.pickups[a].ledgerIndex.value, w.cursors.pickups[b].ledgerIndex.value,
               local.pickups[a].messageId);
  }

  /** A submission leaves the pass ready, and every barrier where it was. */
  lemma ReadySubmitted(w: World, w': World, ledger: seq<Slot>, local: Cursors, key: Key)
    requires Ready(w, ledger, local) && Accounted(w) && IsAppKey(key) && Kept(w, local, key)
    requires ElsewhereOrStarted(w, local.pickups[key].messageId, w')
    ensures Ready(w', ledger, local)
    ensures forall other :: InSync(w, local, other) ==> InSync(w', local, other)
  {
    if Elsewhere(w, w') {
      ReadyElsewhere(w, w', ledger, local);
    } else {
      var started := w.(turns := w.turns + [local.pickups[key].messageId]);
      ReadyStarted(w, ledger, local, key);
      assert forall other :: InSync(w, local, other) ==> InSync(started, local, other);
      ReadyElsewhere(started, w', ledger, local);
    }
  }

  lemma ReadySaved(w: World, ledger: seq<Slot>, local: Cursors)
    requires Ready(w, ledger, local)
    ensures var w' := w.(cursors := Saved(w.cursors, local));
      Ready(w', ledger, local) && forall key :: InSync(w', local, key)
  {
    var w' := w.(cursors := Saved(w.cursors, local));
    assert forall key :: key in local.pickups ==> Kept(w', local, key);
  }

  lemma ReadyIgnoresRead(w: World, ledger: seq<Slot>, local: Cursors, local': Cursors)
    requires Ready(w, ledger, local) && local'.delivered == local.delivered && local'.pickups == local.pickups
    ensures Ready(w, ledger, local')
    ensures forall key :: InSync(w, local, key) <==> InSync(w, local', key)
  {
    assert forall key :: Kept(w, local, key) <==> Kept(w, local', key);
    forall key | key in local'.pickups && IsAppKey(key) && !Kept(w, local', key)
      ensures ArmedAnew(w, local', key)
    {
      assert ArmedAnew(w, local, key);
    }
  }

  /** The entries of App threads. */
  function OfApps<V>(entries: map<Key, V>): map<Key, V> {
    map key | key in entries && IsAppKey(key) :: entries[key]
  }

  predicate SameForApps(a: Cursors, b: Cursors) {
    OfApps(a.delivered) == OfApps(b.delivered) && OfApps(a.pickups) == OfApps(b.pickups)
  }

  lemma SameAppEntry(a: Cursors, b: Cursors, key: Key)
    requires SameForApps(a, b) && IsAppKey(key)
    ensures At(a.delivered, key) == At(b.delivered, key)
    ensures key in a.pickups <==> key in b.pickups
    ensures key in a.pickups ==> a.pickups[key] == b.pickups[key]
  {
    assert key in OfApps(a.delivered) <==> key in OfApps(b.delivered);
    assert key in OfApps(a.pickups) <==> key in OfApps(b.pickups);
    assert key in OfApps(a.delivered) ==> OfApps(a.delivered)[key] == OfApps(b.delivered)[key];
    assert key in OfApps(a.pickups) ==> OfApps(a.pickups)[key] == OfApps(b.pickups)[key];
  }

  /** Nothing about App threads depends on the entries of others. */
  lemma ReadyForApps(w: World, ledger: seq<Slot>, local: Cursors, local': Cursors)
    requires Ready(w, ledger, local) && SameForApps(local, local')
    ensures Ready(w, ledger, local')
    ensures forall key :: IsAppKey(key) && InSync(w, local, key) ==> InSync(w, local', key)
  {
    forall key | IsAppKey(key)
      ensures At(local'.delivered, key) == At(local.delivered, key)
      ensures Kept(w, local, key) <==> Kept(w, local', key)
      ensures key in local'.pickups <==> key in local.pickups
      ensures key in local.pickups ==> local'.pickups[key] == local.pickups[key]
    {
      SameAppEntry(local, local', key);
    }
    AppArms(w, local, local');
    AppPasses(w, local, local');
  }

  lemma AppArms(w: World, local: Cursors, local': Cursors)
    requires ArmsAreNew(w, local) && SameForApps(local, local')
    ensures ArmsAreNew(w, local')
  {
    forall key | key in local'.pickups && IsAppKey(key) && !Kept(w, local', key)
      ensures ArmedAnew(w, local', key)
    {
      SameAppEntry(local, local', key);
      assert ArmedAnew(w, local, key);
    }
  }

  lemma AppPasses(w: World, local: Cursors, local': Cursors)
    requires NonePassed(w, local) && SameForApps(local, local')
    ensures NonePassed(w, local')
  {
    forall index: nat |
      ImmediateAt(w.ledger, index)
      && Between(w.cursors.delivered, index, local'.delivered, TargetKey(w.ledger[index].value.to))
      ensures Covered(w, local'.pickups, w.ledger[index].value)
    {
      SameAppEntry(local, local', TargetKey(w.ledger[index].value.to));
      assert Covered(w, local.pickups, w.ledger[index].value);
    }
  }

  /** Dropping a finished barrier. */
  lemma ReadyCleared(w: World, ledger: seq<Slot>, local: Cursors, local': Cursors, key: Key)
    requires Ready(w, ledger, local) && Accounted(w) && Kept(w, local, key) && Done(w, key)
    requires local'.pickups == Without(local.pickups, key) && local'.delivered == local.delivered
    ensures Ready(w, ledger, local')
    ensures forall other :: other != key && InSync(w, local, other) ==> InSync(w, local', other)
  {
    ClearedArms(w, local, local', key);
    ClearedPasses(w, local, local', key);
    assert BarriersStand(w, local');
  }

  lemma ClearedArms(w: World, local: Cursors, local': Cursors, key: Key)
    requires ArmsAreNew(w, local)
    requires local'.pickups == Without(local.pickups, key) && local'.delivered == local.delivered
    ensures ArmsAreNew(w, local')
  {
    forall other | other in local'.pickups && IsAppKey(other) && !Kept(w, local', other)
      ensures ArmedAnew(w, local', other)
    {
      assert !Kept(w, local, other);
      assert ArmedAnew(w, local, other);
    }
  }

  lemma ClearedPasses(w: World, local: Cursors, local': Cursors, key: Key)
    requires NonePassed(w, local) && Kept(w, local, key) && Done(w, key)
    requires local'.pickups == Without(local.pickups, key) && local'.delivered == local.delivered
    ensures NonePassed(w, local')
  {
    forall index: nat |
      ImmediateAt(w.ledger, index)
      && Between(w.cursors.delivered, index, local'.delivered, TargetKey(w.ledger[index].value.to))
      ensures Covered(w, local'.pickups, w.ledger[index].value)
    {
      assert Covered(w, local.pickups, w.ledger[index].value);
    }
  }

  function Advanced(local: Cursors, key: Key, cursor: nat): Cursors {
    local.(delivered := local.delivered[key := cursor])
  }

  /** Moving a cursor over positions that hold nothing immediate for its recipient. */
  lemma ReadyAdvanced(w: World, ledger: seq<Slot>, local: Cursors, key: Key, cursor: nat)
    requires Ready(w, ledger, local) && At(local.delivered, key) <= cursor <= |ledger|
    requires forall i :: At(local.delivered, key) <= i < cursor ==> !ImmediateFor(ledger[i], key)
    ensures Ready(w, ledger, Advanced(local, key, cursor))
    ensures forall other :: InSync(w, local, other) ==> InSync(w, Advanced(local, key, cursor), other)
  {
    assert forall i :: At(local.delivered, key) <= i < cursor ==> w.ledger[i] == ledger[i];
    AdvancedForward(w, local, key, cursor);
    AdvancedBarriers(w, local, key, cursor);
    AdvancedArms(w, local, key, cursor);
    AdvancedPasses(w, local, key, cursor);
    AdvancedWithin(ledger, local, key, cursor);
  }

  lemma AdvancedWithin(ledger: seq<Slot>, local: Cursors, key: Key, cursor: nat)
    requires cursor <= |ledger| && forall other :: IsAppKey(other) ==> At(local.delivered, other) <= |ledger|
    ensures forall other :: IsAppKey(other) ==> At(Advanced(local, key, cursor).delivered, other) <= |ledger|
  {
  }

  lemma AdvancedForward(w: World, local: Cursors, key: Key, cursor: nat)
    requires CursorsForward(w, local) && At(local.delivered, key) <= cursor <= |w.ledger|
    ensures CursorsForward(w, Advanced(local, key, cursor))
  {
    forall other | IsAppKey(other)
      ensures At(w.cursors.delivered, other) <= At(Advanced(local, key, cursor).delivered, other) <= |w.ledger|
    {
      assert At(w.cursors.delivered, other) <= At(local.delivered, other) <= |w.ledger|;
    }
  }

  /** Barriers do not depend on cursors. */
  lemma AdvancedBarriers(w: World, local: Cursors, key: Key, cursor: nat)
    requires BarriersStand(w, local)
    ensures BarriersStand(w, Advanced(local, key, cursor))
    ensures forall other :: Kept(w, local, other) <==> Kept(w, Advanced(local, key, cursor), other)
    ensures forall other :: InSync(w, local, other) ==> InSync(w, Advanced(local, key, cursor), other)
  {
    assert forall other :: Kept(w, local, other) <==> Kept(w, Advanced(local, key, cursor), other);
  }

  lemma AdvancedArms(w: World, local: Cursors, key: Key, cursor: nat)
    requires ArmsAreNew(w, local) && At(local.delivered, key) <= cursor
    ensures ArmsAreNew(w, Advanced(local, key, cursor))
  {
    var local' := Advanced(local, key, cursor);
    forall other | other in local'.pickups && IsAppKey(other) && !Kept(w, local', other)
      ensures ArmedAnew(w, local', other)
    {
      assert !Kept(w, local, other);
      assert ArmedAnew(w, local, other);
    }
  }

  lemma AdvancedPasses(w: World, local: Cursors, key: Key, cursor: nat)
    requires NonePassed(w, local) && At(local.delivered, key) <= cursor <= |w.ledger|
    requires forall i :: At(local.delivered, key) <= i < cursor ==> !ImmediateFor(w.ledger[i], key)
    ensures NonePassed(w, Advanced(local, key, cursor))
  {
    var local' := Advanced(local, key, cursor);
    forall index: nat |
      ImmediateAt(w.ledger, index)
      && Between(w.cursors.delivered, index, local'.delivered, TargetKey(w.ledger[index].value.to))
      ensures Covered(w, local'.pickups, w.ledger[index].value)
    {
      NotSkipped(w.ledger, local, key, cursor, index);
      assert Between(w.cursors.delivered, index, local.delivered, TargetKey(w.ledger[index].value.to));
      assert Covered(w, local.pickups, w.ledger[index].value);
    }
  }

  lemma NotSkipped(ledger: seq<Slot>, local: Cursors, key: Key, cursor: nat, index: nat)
    requires cursor <= |ledger| && ImmediateAt(ledger, index)
    requires forall i :: At(local.delivered, key) <= i < cursor ==> !ImmediateFor(ledger[i], key)
    requires index < At(Advanced(local, key, cursor).delivered, TargetKey(ledger[index].value.to))
    ensures index < At(local.delivered, TargetKey(ledger[index].value.to))
  {
    if TargetKey(ledger[index].value.to) == key && At(local.delivered, key) <= index {
      assert ImmediateFor(ledger[index], key);
    }
  }

  function ArmedFor(local: Cursors, key: Key, m: Letter, index: nat): Cursors {
    var armed := local.(pickups := local.pickups[key := Pickup(m.id, Some(index), IsConditional(m))]);
    if IsConditional(m) then armed
    else armed.(delivered := local.delivered[key := index + 1],
                read := local.read[key := Max(At(local.read, key), index + 1)])
  }

  /** Barrier and cursor move together, for a letter that has no turn. */
  lemma ReadyArmed(w: World, ledger: seq<Slot>, local: Cursors, key: Key, index: nat)
    requires Ready(w, ledger, local) && key !in local.pickups && key !in w.cursors.pickups
    requires index < |ledger| && ledger[index].Some? && TargetKey(ledger[index].value.to) == key
    requires !IsConditional(ledger[index].value) ==> At(local.delivered, key) == index
    requires ledger[index].value.id !in w.turns
    ensures var local' := ArmedFor(local, key, ledger[index].value, index);
      Ready(w, ledger, local') && forall other :: other != key && InSync(w, local, other) ==> InSync(w, local', other)
  {
    var local' := ArmedFor(local, key, ledger[index].value, index);
    assert w.ledger[index] == ledger[index];
    assert BarriersStand(w, local') by {
      forall other | other in w.cursors.pickups && IsAppKey(other)
        ensures Kept(w, local', other) || Done(w, other)
      {
        assert Kept(w, local, other) || Done(w, other);
      }
    }
    ArmedArms(w, local, key, index);
    ArmedPasses(w, local, key, index);
  }

  lemma ArmedArms(w: World, local: Cursors, key: Key, index: nat)
    requires CursorsForward(w, local) && ArmsAreNew(w, local) && key !in w.cursors.pickups
    requires index < |w.ledger| && w.ledger[index].Some? && TargetKey(w.ledger[index].value.to) == key
    requires !IsConditional(w.ledger[index].value) ==> At(local.delivered, key) == index
    requires w.ledger[index].value.id !in w.turns
    ensures ArmsAreNew(w, ArmedFor(local, key, w.ledger[index].value, index))
  {
    var local' := ArmedFor(local, key, w.ledger[index].value, index);
    assert ArmedAnew(w, local', key);
    forall other | other in local'.pickups && IsAppKey(other) && other != key && !Kept(w, local', other)
      ensures ArmedAnew(w, local', other)
    {
      assert !Kept(w, local, other);
      assert ArmedAnew(w, local, other);
    }
  }

  lemma ArmedPasses(w: World, local: Cursors, key: Key, index: nat)
    requires NonePassed(w, local) && key !in local.pickups
    requires index < |w.ledger| && w.ledger[index].Some? && TargetKey(w.ledger[index].value.to) == key
    requires !IsConditional(w.ledger[index].value) ==> At(local.delivered, key) == index
    ensures NonePassed(w, ArmedFor(local, key, w.ledger[index].value, index))
  {
    var local' := ArmedFor(local, key, w.ledger[index].value, index);
    forall i: nat |
      ImmediateAt(w.ledger, i)
      && Between(w.cursors.delivered, i, local'.delivered, TargetKey(w.ledger[i].value.to))
      ensures Covered(w, local'.pickups, w.ledger[i].value)
    {
      if i != index {
        assert Between(w.cursors.delivered, i, local.delivered, TargetKey(w.ledger[i].value.to));
        assert Covered(w, local.pickups, w.ledger[i].value);
      }
    }
  }

  /** The letter found by a barrier's id is the one it was armed for. */
  lemma GuardedLetter(w: World, ledger: seq<Slot>, local: Cursors, key: Key, at: nat)
    requires Accounted(w) && ledger <= w.ledger && IsAppKey(key) && Kept(w, local, key)
    requires LetterAt(ledger, at, local.pickups[key].messageId)
    ensures TargetKey(ledger[at].value.to) == key
  {
    var p := local.pickups[key];
    assert WellArmed(w.ledger, w.cursors, key);
    assert w.ledger[at] == ledger[at];
    SameLetter(w.ledger, at, p.ledgerIndex.value, p.messageId);
  }

  // ---- The pass ---------------------------------------------------------------------------------

  method FindLetter(ledger: seq<Slot>, id: MessageId) returns (at: Option<nat>)
    ensures at.Some? ==> LetterAt(ledger, at.value, id)
    ensures at.None? ==> forall i :: 0 <= i < |ledger| ==> !LetterAt(ledger, i, id)
  {
    for i := 0 to |ledger|
      invariant forall j :: 0 <= j < i ==> !LetterAt(ledger, j, id)
    {
      if ledger[i].Some? && ledger[i].value.id == id {
        return Some(i);
      }
    }
    return None;
  }

  predicate IsRecipient(slot: Slot, here: string, key: Key) {
    slot.Some? && slot.value.to.ToApp? && slot.value.to.app.machine == here && TargetKey(slot.value.to) == key
  }

  /** The App threads of this machine that any letter addresses, each once, oldest first. */
  method AppRecipients(ledger: seq<Slot>, here: string) returns (keys: seq<Key>)
    ensures forall key :: key in keys <==> exists i :: 0 <= i < |ledger| && IsRecipient(ledger[i], here, key)
    ensures forall i, j :: 0 <= i < j < |keys| ==> keys[i] != keys[j]
    ensures forall key :: key in keys ==> IsAppKey(key)
  {
    keys := [];
    for i := 0 to |ledger|
      invariant forall key :: key in keys <==> exists j :: 0 <= j < i && IsRecipient(ledger[j], here, key)
      invariant forall a, b :: 0 <= a < b < |keys| ==> keys[a] != keys[b]
      invariant forall key :: key in keys ==> IsAppKey(key)
    {
      var slot := ledger[i];
      if slot.Some? && slot.value.to.ToApp? && slot.value.to.app.machine == here {
        assert IsRecipient(ledger[i], here, TargetKey(slot.value.to));
        if TargetKey(slot.value.to) !in keys {
          AppKeysAreAppThreads(slot.value.to);
          keys := keys + [TargetKey(slot.value.to)];
        }
      }
    }
  }

  class Daemon {
    const outside: Outside
    const here: string
    var local: Cursors

    constructor (outside: Outside, here: string)
      ensures this.outside == outside && this.here == here
    {
      this.outside, this.here, local := outside, here, Cursors(map[], map[], map[], None);
    }

    /** The daemon may go on, or stop here for ever. */
    ghost predicate Working(ledger: seq<Slot>)
      reads this, outside
    {
      outside.Valid() && Ready(outside.world, ledger, local)
    }

    /** Submits the letter behind the barrier; whatever comes of it, every barrier stays where it was. */
    method Submit(ledger: seq<Slot>, key: Key, m: Letter, prove: bool) returns (accepted: bool)
      requires Working(ledger) && IsAppKey(key) && Kept(outside.world, local, key)
      requires TargetKey(m.to) == key && local.pickups[key].messageId == m.id
      requires !prove ==> m.id !in outside.world.turns
      modifies outside
      ensures outside.Continues(old(outside.states), old(outside.steps))
      ensures Working(ledger) && (accepted ==> m.id in outside.world.turns)
      ensures forall other :: old(InSync(outside.world, local, other)) ==> InSync(outside.world, local, other)
    {
      ghost var before := outside.world;
      var d := DeliverCodexAppMessage(outside, here, m, prove);
      ReadySubmitted(before, outside.world, ledger, local, key);
      accepted := d.Delivered?;
    }

    /** Closes an accepted barrier: acknowledge or pass, drop, save. */
    method FinishPickup(ledger: seq<Slot>, key: Key) returns (saved: bool)
      requires Working(ledger) && IsAppKey(key) && Kept(outside.world, local, key)
      requires local.pickups[key].messageId in outside.world.turns
      modifies this`local, outside
      ensures outside.Continues(old(outside.states), old(outside.steps))
      ensures Working(ledger)
      ensures forall other :: other != key && old(InSync(outside.world, local, other)) ==>
                InSync(outside.world, local, other)
      ensures local.pickups == Without(old(local).pickups, key) && local.delivered == old(local).delivered
      ensures outside.world.turns == old(outside.world).turns
      ensures saved ==> Closed(old(local).pickups[key], key)
    {
      PassPickup(ledger, key);
      saved := CompleteAndSave(ledger, key);
    }

    method CompleteAndSave(ledger: seq<Slot>, key: Key) returns (saved: bool)
      requires Working(ledger) && IsAppKey(key) && Kept(outside.world, local, key)
      requires local.pickups[key].messageId in outside.world.turns
      modifies this`local, outside
      ensures outside.Continues(old(outside.states), old(outside.steps))
      ensures Working(ledger)
      ensures forall other :: other != key && old(InSync(outside.world, local, other)) ==>
                InSync(outside.world, local, other)
      ensures local == old(local).(pickups := Without(old(local).pickups, key))
      ensures outside.world.turns == old(outside.world).turns
      ensures saved ==> Closed(old(local).pickups[key], key)
    {
      Complete(ledger, key);
      ReadySaved(outside.world, ledger, local);
      saved := outside.Save(local);
    }

    /** Repeats with `max` what arming has done, for a barrier armed by a version that did not. */
    method PassPickup(ledger: seq<Slot>, key: Key)
      requires Working(ledger) && IsAppKey(key) && Kept(outside.world, local, key)
      modifies this`local
      ensures Working(ledger) && local.(read := map[]) == old(local).(read := map[])
      ensures forall other :: InSync(outside.world, old(local), other) <==> InSync(outside.world, local, other)
    {
      var p := local.pickups[key];
      assert WellArmed(outside.world.ledger, outside.world.cursors, key);
      if !p.conditional && p.ledgerIndex.Some? {
        var past := p.ledgerIndex.value + 1;
        assert At(local.delivered, key) >= past;
        local := local.(delivered := local.delivered[key := Max(At(local.delivered, key), past)],
                        read := local.read[key := Max(At(local.read, key), past)]);
        assert local.delivered == old(local).delivered;
      }
      ReadyIgnoresRead(outside.world, ledger, old(local), local);
    }

    /** A recipient whose barrier survived: prove acceptance or submit again, and only then close it. */
    method DeliverRetained(ledger: seq<Slot>, key: Key) returns (delivered: bool)
      requires Working(ledger) && IsAppKey(key) && Kept(outside.world, local, key)
      modifies this`local, outside
      ensures outside.Continues(old(outside.states), old(outside.steps))
      ensures Working(ledger)
      ensures forall other :: other != key && old(InSync(outside.world, local, other)) ==>
                InSync(outside.world, local, other)
      ensures delivered ==> Closed(old(local).pickups[key], key)
      ensures !delivered ==> local == old(local) || old(local).pickups[key].messageId in outside.world.turns
    {
      var at := FindLetter(ledger, local.pickups[key].messageId);
      if at.None? {
        return false;
      }
      GuardedLetter(outside.world, ledger, local, key, at.value);
      assert InSync(outside.world, local, key);
      var accepted := Submit(ledger, key, ledger[at.value].value, true);
      if !accepted {
        return false;
      }
      delivered := FinishPickup(ledger, key);
    }

    /** A barrier is closed when its turn was accepted, its letter acknowledged, and it stands nowhere any more. */
    ghost predicate Closed(p: Pickup, key: Key)
      reads this, outside
    {
      && p.messageId in outside.world.turns && (p.conditional ==> p.messageId in outside.world.acked)
      && key !in local.pickups && key !in outside.world.cursors.pickups
    }

    /** The next letter of a recipient without a barrier; its cursor catches up with it. */
    method NextDelivery(ledger: seq<Slot>, key: Key, acked: set<MessageId>, now: int)
      returns (pick: Option<nat>, moved: bool)
      requires Working(ledger) && IsAppKey(key) && InSync(outside.world, local, key) && key !in local.pickups
      modifies this`local
      ensures Working(ledger) && local.pickups == old(local).pickups
      ensures IsNext(ledger, key, At(old(local).delivered, key), acked, now, pick, At(local.delivered, key))
      ensures moved <==> local != old(local)
      ensures forall other :: old(InSync(outside.world, local, other)) ==> InSync(outside.world, local, other)
    {
      var cursor;
      pick, cursor := PickPendingDelivery(ledger, key, At(local.delivered, key), acked, now);
      moved := key !in local.delivered || local.delivered[key] != cursor;
      if moved {
        ReadyAdvanced(outside.world, ledger, local, key, cursor);
        local := Advanced(local, key, cursor);
      }
    }

    /**
     A recipient without a barrier: arm, save, submit without asking for proof. The letter has no turn yet,
     because its own track still offered it.
     */
    method DeliverFirst(ledger: seq<Slot>, key: Key, acked: set<MessageId>, now: int)
      returns (delivered: bool, changed: bool)
      requires Working(ledger) && IsAppKey(key) && InSync(outside.world, local, key) && key !in local.pickups
      modifies this`local, outside
      ensures outside.Continues(old(outside.states), old(outside.steps))
      ensures Working(ledger)
      ensures forall other :: other != key && old(InSync(outside.world, local, other)) ==>
                InSync(outside.world, local, other)
      ensures delivered ==>
                exists index: nat, cursor: nat ::
                  && IsNext(ledger, key, At(old(local).delivered, key), acked, now, Some(index), cursor)
                  && Handed(ledger[index].value, key)
                  && (!IsConditional(ledger[index].value) ==> At(local.delivered, key) == index + 1)
    {
      var pick, moved := NextDelivery(ledger, key, acked, now);
      delivered, changed := false, moved;
      var rateLimited: bool := *;
      if pick.None? || rateLimited {
        return;
      }
      var offered := StillOffered(ledger, key, pick.value);
      if offered {
        delivered := ArmAndSubmit(ledger, key, pick.value);
        changed := moved || delivered;
      }
    }

    /** Reads the ack of a conditional letter once more, right before it is submitted. */
    method StillOffered(ledger: seq<Slot>, key: Key, index: nat) returns (offered: bool)
      requires Working(ledger) && IsAppKey(key) && InSync(outside.world, local, key) && key !in local.pickups
      requires index < |ledger| && ledger[index].Some? && TargetKey(ledger[index].value.to) == key
      requires !IsConditional(ledger[index].value) ==> At(local.delivered, key) == index
      modifies outside
      ensures Working(ledger) && outside.Continues(old(outside.states), old(outside.steps))
      ensures forall other :: old(InSync(outside.world, local, other)) ==> InSync(outside.world, local, other)
      ensures offered ==> ledger[index].value.id !in outside.world.turns
      ensures !offered ==> IsConditional(ledger[index].value) && ledger[index].value.id in outside.world.acked
    {
      var m := ledger[index].value;
      ghost var before := outside.world;
      outside.Meanwhile();
      ReadyElsewhere(before, outside.world, ledger, local);
      if IsConditional(m) && m.id in outside.world.acked {
        return false;
      }
      assert outside.world.ledger[index] == ledger[index];
      OfferedWasNeverAccepted(outside.world, key, index);
      return true;
    }

    /** The letter was accepted, acknowledged on its track, and its barrier dropped. */
    ghost predicate Handed(m: Letter, key: Key)
      reads this, outside
    {
      m.id in outside.world.turns && (IsConditional(m) ==> m.id in outside.world.acked) && key !in local.pickups
    }

    /** Barrier and cursor are saved together before the submission; what fails after that leaves them standing. */
    method ArmAndSubmit(ledger: seq<Slot>, key: Key, index: nat) returns (delivered: bool)
      requires Working(ledger) && IsAppKey(key) && InSync(outside.world, local, key) && key !in local.pickups
      requires index < |ledger| && ledger[index].Some? && TargetKey(ledger[index].value.to) == key
      requires !IsConditional(ledger[index].value) ==> At(local.delivered, key) == index
      requires ledger[index].value.id !in outside.world.turns
      modifies this`local, outside
      ensures Working(ledger) && outside.Continues(old(outside.states), old(outside.steps))
      ensures forall other :: other != key && old(InSync(outside.world, local, other)) ==>
                InSync(outside.world, local, other)
      ensures local.delivered == ArmedFor(old(local), key, ledger[index].value, index).delivered
      ensures if delivered then Handed(ledger[index].value, key)
              else local == ArmedFor(old(local), key, ledger[index].value, index)
    {
      var saved := ArmAndSave(ledger, key, index);
      if !saved {
        return false;
      }
      delivered := SubmitArmed(ledger, key, ledger[index].value);
    }

    method SubmitArmed(ledger: seq<Slot>, key: Key, m: Letter) returns (delivered: bool)
      requires Working(ledger) && IsAppKey(key) && Kept(outside.world, local, key) && TargetKey(m.to) == key
      requires local.pickups[key].messageId == m.id && local.pickups[key].conditional == IsConditional(m)
      requires m.id !in outside.world.turns
      modifies this`local, outside
      ensures Working(ledger) && outside.Continues(old(outside.states), old(outside.steps))
      ensures forall other :: other != key && old(InSync(outside.world, local, other)) ==>
                InSync(outside.world, local, other)
      ensures local.delivered == old(local).delivered
      ensures if delivered then Handed(m, key) else local == old(local)
    {
      assert InSync(outside.world, local, key);
      delivered := Submit(ledger, key, m, false);
      if delivered {
        Complete(ledger, key);
      }
    }

    method ArmAndSave(ledger: seq<Slot>, key: Key, index: nat) returns (saved: bool)
      requires Working(ledger) && IsAppKey(key) && InSync(outside.world, local, key) && key !in local.pickups
      requires index < |ledger| && ledger[index].Some? && TargetKey(ledger[index].value.to) == key
      requires !IsConditional(ledger[index].value) ==> At(local.delivered, key) == index
      requires ledger[index].value.id !in outside.world.turns
      modifies this`local, outside
      ensures Working(ledger) && outside.Continues(old(outside.states), old(outside.steps))
      ensures forall other :: other != key && old(InSync(outside.world, local, other)) ==>
                InSync(outside.world, local, other)
      ensures local == ArmedFor(old(local), key, ledger[index].value, index)
      ensures outside.world.turns == old(outside.world).turns
      ensures saved ==> InSync(outside.world, local, key)
    {
      ReadyArmed(outside.world, ledger, local, key, index);
      local := ArmedFor(local, key, ledger[index].value, index);
      ReadySaved(outside.world, ledger, local);
      saved := outside.Save(local);
    }

    /** After acceptance: acknowledge on its track and drop the barrier in memory; the pass saves at its end. */
    method Complete(ledger: seq<Slot>, key: Key)
      requires Working(ledger) && IsAppKey(key) && Kept(outside.world, local, key)
      requires local.pickups[key].messageId in outside.world.turns
      modifies this`local, outside
      ensures outside.Continues(old(outside.states), old(outside.steps))
      ensures Working(ledger)
      ensures forall other :: other != key && old(InSync(outside.world, local, other)) ==>
                InSync(outside.world, local, other)
      ensures local == old(local).(pickups := Without(old(local).pickups, key))
      ensures old(local).pickups[key].conditional ==> old(local).pickups[key].messageId in outside.world.acked
      ensures outside.world.turns == old(outside.world).turns
    {
      if local.pickups[key].conditional {
        ghost var before := outside.world;
        outside.AppendAck(local.pickups[key].messageId);
        ReadyElsewhere(before, outside.world, ledger, local);
      }
      ReadyCleared(outside.world, ledger, local, local.(pickups := Without(local.pickups, key)), key);
      local := local.(pickups := Without(local.pickups, key));
    }

    method DeliverAppPending(ledger: seq<Slot>, acked: set<MessageId>, now: int, budget: nat)
      returns (deliveries: nat, changed: bool)
      requires Working(ledger) && forall key :: IsAppKey(key) ==> InSync(outside.world, local, key)
      modifies this`local, outside
      ensures outside.Continues(old(outside.states), old(outside.steps))
      ensures Working(ledger) && deliveries <= budget
    {
      deliveries, changed := 0, false;
      var recipients := AppRecipients(ledger, here);
      for i := 0 to |recipients|
        invariant Working(ledger) && deliveries <= budget
        invariant outside.Continues(old(outside.states), old(outside.steps))
        invariant forall j :: i <= j < |recipients| ==> InSync(outside.world, local, recipients[j])
      {
        if deliveries >= budget {
          break;
        }
        var key := recipients[i];
        var delivered := false;
        if key in local.pickups {
          delivered := DeliverRetained(ledger, key);
        } else {
          var moved;
          delivered, moved := DeliverFirst(ledger, key, acked, now);
          changed := changed || moved;
        }
        deliveries := deliveries + if delivered then 1 else 0;
      }
    }

    /**
     Delivery to managed sessions before the App half of a pass, and the sweeps that settle dead recipients or mirror
     the owner's mail: the same copy of the cursors, changed for anyone but App threads, and saved at any time.
     */
    method ManagedHalf(ledger: seq<Slot>) returns (changed: bool)
      requires Working(ledger) && forall key :: IsAppKey(key) ==> InSync(outside.world, local, key)
      modifies this`local, outside
      ensures Working(ledger) && outside.Continues(old(outside.states), old(outside.steps))
      ensures forall key :: IsAppKey(key) ==> InSync(outside.world, local, key)
    {
      changed := false;
      var turns: nat := *;
      while turns > 0
        invariant Working(ledger) && outside.Continues(old(outside.states), old(outside.steps))
        invariant forall key :: IsAppKey(key) ==> InSync(outside.world, local, key)
      {
        ghost var before := outside.world;
        outside.Meanwhile();
        ReadyElsewhere(before, outside.world, ledger, local);
        var next: Cursors := *;
        if SameForApps(local, next) {
          ReadyForApps(outside.world, ledger, local, next);
          local, changed := next, true;
        }
        var save: bool := *;
        if save {
          ReadySaved(outside.world, ledger, local);
          var saved := outside.Save(local);
        }
        turns := turns - 1;
      }
    }

    /** From nothing but what is on disk to the App half. */
    method Start() returns (ledger: seq<Slot>, acked: set<MessageId>)
      requires outside.Valid()
      modifies this`local, outside
      ensures Working(ledger) && outside.Continues(old(outside.states), old(outside.steps))
      ensures forall key :: IsAppKey(key) ==> InSync(outside.world, local, key)
    {
      ledger := outside.world.ledger;
      outside.Meanwhile();
      local := outside.world.cursors;
      assert Ready(outside.world, ledger, local);
      assert forall key :: InSync(outside.world, local, key);
      ghost var before := outside.world;
      outside.Meanwhile();
      ReadyElsewhere(before, outside.world, ledger, local);
      acked := outside.world.acked;
    }

    /**
     One pass from nothing but what is on disk, managed sessions first and on the same copy of the cursors: it can
     follow any earlier pass, finished or stopped anywhere, and every state it passes through accounts for every turn.
     */
    method Pass(now: int, budget: nat)
      requires outside.Valid()
      modifies this`local, outside
      ensures outside.Valid() && outside.Continues(old(outside.states), old(outside.steps))
      ensures forall i :: 0 <= i < |outside.states| ==> Accounted(outside.states[i])
    {
      var ledger, acked := Start();
      var moved := ManagedHalf(ledger);
      var deliveries, changed := DeliverAppPending(ledger, acked, now, budget);
      if moved || changed {
        var saved := outside.Save(local);
      }
      AllAccounted();
    }

    /** A sweep that only settles managed recipients or the owner, between passes. */
    method ManagedPass()
      requires outside.Valid()
      modifies this`local, outside
      ensures outside.Valid() && outside.Continues(old(outside.states), old(outside.steps))
      ensures forall i :: 0 <= i < |outside.states| ==> Accounted(outside.states[i])
    {
      var ledger, acked := Start();
      var changed := ManagedHalf(ledger);
      AllAccounted();
    }

    lemma AllAccounted()
      requires outside.Valid()
      ensures forall i :: 0 <= i < |outside.states| ==> Accounted(outside.states[i])
    {
      forall i | 0 <= i < |outside.states|
        ensures Accounted(outside.states[i])
      {
        EveryTurnIsAccountedFor(outside.states, outside.steps, i);
      }
    }
  }
}
