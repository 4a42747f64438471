/** No id is ever live and cancelled at once, and a tombstone stands until a sweep finds it expired. */
module AttachmentTombstones {
  import opened Prelude
  import opened AttachmentRecords
  import opened AttachmentMachine
  import opened AttachmentInvariant
  import opened AttachmentSpec

  // ---- Lists of tombstones ----------------------------------------------------------------------

  predicate Apart(ts: seq<Tombstone>) {
    ts == [] || (FindTombstone(ts[1..], ts[0].id).None? && Apart(ts[1..]))
  }

  lemma {:induction false} TombstoneMember(ts: seq<Tombstone>, t: Tombstone)
    requires Apart(ts) && t in ts
    ensures FindTombstone(ts, t.id) == Some(t)
  {
    if ts[0] != t {
      assert t in ts[1..];
      TombstoneMember(ts[1..], t);
    }
  }

  lemma {:induction false} FindPushed(ts: seq<Tombstone>, t: Tombstone, id: Uuid)
    ensures FindTombstone(ts + [t], id)
         == if FindTombstone(ts, id).Some? then FindTombstone(ts, id) else if t.id == id then Some(t) else None
  {
    if ts == [] {
      assert FindTombstone([t][1..], id).None?;
    } else {
      assert (ts + [t])[1..] == ts[1..] + [t];
      FindPushed(ts[1..], t, id);
    }
  }

  lemma {:induction false} PushedApart(ts: seq<Tombstone>, t: Tombstone)
    requires Apart(ts) && FindTombstone(ts, t.id).None?
    ensures Apart(ts + [t])
  {
    if ts != [] {
      assert (ts + [t])[1..] == ts[1..] + [t];
      FindPushed(ts[1..], t, ts[0].id);
      PushedApart(ts[1..], t);
    }
  }

  /** Of each id a sweep keeps the tombstone exactly until it expires. */
  lemma {:induction false} FindLive(ts: seq<Tombstone>, now: nat, id: Uuid)
    requires Apart(ts)
    ensures FindTombstone(LiveTombstones(ts, now), id)
         == if FindTombstone(ts, id).Some? && FindTombstone(ts, id).value.expiresAt > now then FindTombstone(ts, id)
            else None
  {
    if ts != [] {
      FindLive(ts[1..], now, id);
      var rest := LiveTombstones(ts[1..], now);
      if ts[0].expiresAt > now {
        assert LiveTombstones(ts, now)[1..] == rest;
      } else {
        assert LiveTombstones(ts, now) == rest;
      }
    }
  }

  lemma {:induction false} LiveApart(ts: seq<Tombstone>, now: nat)
    requires Apart(ts)
    ensures Apart(LiveTombstones(ts, now))
  {
    if ts != [] {
      LiveApart(ts[1..], now);
      FindLive(ts[1..], now, ts[0].id);
      var rest := LiveTombstones(ts[1..], now);
      if ts[0].expiresAt > now {
        assert LiveTombstones(ts, now)[1..] == rest;
      } else {
        assert LiveTombstones(ts, now) == rest;
      }
    }
  }

  // ---- Live or cancelled ------------------------------------------------------------------------

  /** Of every id there is at most one tombstone, and none while it has a row. */
  ghost predicate LiveOrCancelled(d: Durable) {
    && Apart(d.index.cancelled)
    && forall id: Uuid :: FindTombstone(d.index.cancelled, id).Some? ==> d.Row(id).None?
  }

  /** Only a reservation makes a row. */
  lemma NoRowStays(host: Host, d: Durable, s: Step, d': Durable, id: Uuid)
    requires StepOk(host, d, s, d') && d.Row(id).None?
    ensures d'.Row(id).Some? ==> s.Reserve? && s.row.id == id
  {
    var rs := d.index.records;
    match s
    case Reserve(row) => FindPush(rs, row, id);
    case Acknowledge(other) =>
      var row := d.Row(other).value;
      FindPut(rs, row.(received := |d.files[PathOf(row)]|), id);
    case Verify(other, ref, expiresAt, _) =>
      var row := d.Row(other).value;
      FindPut(rs, row.(phase := Verified, expiresAt := expiresAt, reference := Some(ref)), id);
    case PinMessage(pin) => FindRetainAll(rs, pin.references, id);
    case DropExpired(now) => FindWithout(rs, ExpiredIds(d.index, now), id);
    case DropCancelled(t) => FindWithout(rs, {t.id}, id);
    case _ =>
  }

  /** What a step does to the tombstones. */
  lemma StepTombstones(host: Host, d: Durable, s: Step, d': Durable)
    requires StepOk(host, d, s, d')
    ensures d'.index.cancelled ==
      match s
      case DropExpired(now) => LiveTombstones(d.index.cancelled, now)
      case DropCancelled(t) => d.index.cancelled + [t]
      case _ => d.index.cancelled
  {
  }

  lemma DropCancelledApart(d: Durable, t: Tombstone, d': Durable)
    requires LiveOrCancelled(d) && DropCancelledStep(d, t, d')
    ensures LiveOrCancelled(d')
  {
    PushedApart(d.index.cancelled, t);
    forall id: Uuid | FindTombstone(d'.index.cancelled, id).Some?
      ensures d'.Row(id).None?
    {
      FindPushed(d.index.cancelled, t, id);
      FindWithout(d.index.records, {t.id}, id);
    }
  }

  lemma DropExpiredApart(d: Durable, now: nat, d': Durable)
    requires LiveOrCancelled(d) && DropExpiredStep(d, now, d')
    ensures LiveOrCancelled(d')
  {
    LiveApart(d.index.cancelled, now);
    forall id: Uuid | FindTombstone(d'.index.cancelled, id).Some?
      ensures d'.Row(id).None?
    {
      FindLive(d.index.cancelled, now, id);
      FindWithout(d.index.records, ExpiredIds(d.index, now), id);
    }
  }

  lemma StepKeepsApart(host: Host, d: Durable, s: Step, d': Durable)
    requires LiveOrCancelled(d) && StepOk(host, d, s, d')
    ensures LiveOrCancelled(d')
  {
    if s.DropCancelled? {
      DropCancelledApart(d, s.tombstone, d');
    } else if s.DropExpired? {
      DropExpiredApart(d, s.now, d');
    } else {
      StepTombstones(host, d, s, d');
      forall id: Uuid | FindTombstone(d'.index.cancelled, id).Some?
        ensures d'.Row(id).None?
      {
        NoRowStays(host, d, s, d', id);
      }
    }
  }

  /** At every state of every run no id is live and cancelled at once, nor cancelled twice. */
  lemma {:induction false} EveryIdIsLiveOrCancelled(host: Host, states: seq<Durable>, steps: seq<Step>, i: nat)
    requires IsRun(host, states, steps) && i < |states|
    ensures LiveOrCancelled(states[i])
  {
    if i > 0 {
      var k := i - 1;
      EveryIdIsLiveOrCancelled(host, states, steps, k);
      StepKeepsApart(host, states[k], steps[k], states[k + 1]);
    }
  }

  // ---- How long a tombstone stands --------------------------------------------------------------

  /** Every sweep of this stretch came before this time. */
  ghost predicate SweptBefore(steps: seq<Step>, i: nat, j: nat, expiresAt: nat) {
    forall k :: i <= k < j && k < |steps| && steps[k].DropExpired? ==> steps[k].now < expiresAt
  }

  lemma {:induction false} LivingTombstones(ts: seq<Tombstone>, now: nat)
    ensures forall t :: t in LiveTombstones(ts, now) <==> t in ts && t.expiresAt > now
  {
    if ts != [] {
      LivingTombstones(ts[1..], now);
      assert ts == [ts[0]] + ts[1..];
    }
  }

  lemma TombstoneStep(host: Host, d: Durable, s: Step, d': Durable, t: Tombstone)
    requires StepOk(host, d, s, d') && t in d.index.cancelled
    requires s.DropExpired? ==> s.now < t.expiresAt
    ensures t in d'.index.cancelled
  {
    StepTombstones(host, d, s, d');
    if s.DropExpired? {
      LivingTombstones(d.index.cancelled, s.now);
    }
  }

  lemma {:induction false} TombstoneStays(
    host: Host, states: seq<Durable>, steps: seq<Step>, i: nat, j: nat, t: Tombstone)
    requires IsRun(host, states, steps) && i <= j < |states|
    requires t in states[i].index.cancelled && SweptBefore(steps, i, j, t.expiresAt)
    ensures t in states[j].index.cancelled
    decreases j
  {
    if i < j {
      var k := j - 1;
      TombstoneStays(host, states, steps, i, k, t);
      TombstoneStep(host, states[k], steps[k], states[k + 1], t);
    }
  }
}
