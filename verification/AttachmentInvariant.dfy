/** Every run of the machine keeps `Sound`, freezes retained images and only extends acknowledged bytes. */
module AttachmentInvariant {
  import opened Prelude
  import opened AttachmentRecords
  import opened AttachmentMachine

  // ---- One step ---------------------------------------------------------------------------------

  lemma ReserveKeeps(host: Host, d: Durable, row: Record, d': Durable)
    requires Sound(host, d) && ReserveStep(d, row, d')
    ensures Sound(host, d')
  {
    var rs := d.index.records;
    PushDistinct(rs, row);
    forall id: Uuid ensures Find(rs + [row], id) ==
            if Find(rs, id).Some? then Find(rs, id) else if row.id == id then Some(row) else None {
      FindPush(rs, row, id);
    }
    forall target: Key ensures QuotaOk(rs + [row]) ==> UploadsTo(rs + [row], target) <= TARGET_UPLOADS {
    }
    PushFigures(rs, row, row.scope.target);
    forall target: Key ensures UploadsTo(rs + [row], target) <= TARGET_UPLOADS {
      PushFigures(rs, row, target);
    }
    forall p | p in d'.files ensures Owned(d', p) {
      assert Owned(d, p);
    }
    forall id: Uuid ensures RetainedRowOk(host, d', id) {
      assert RetainedRowOk(host, d, id);
    }
    forall pin, ref | pin in d'.index.pins && ref in pin.references ensures Holds(host, d', ref) {
      assert Holds(host, d, ref);
    }
  }

  /** A step that only touches the file of one row that is not retained. */
  lemma FileChangeKeeps(host: Host, d: Durable, id: Uuid, d': Durable)
    requires Sound(host, d) && d'.index == d.index
    requires d.Row(id).Some? && !d.Row(id).value.phase.Retained?
    requires forall p :: p != PathOf(d.Row(id).value) ==> (p in d'.files <==> p in d.files)
    requires forall p :: p != PathOf(d.Row(id).value) && p in d.files ==> d'.files[p] == d.files[p]
    requires PathOf(d.Row(id).value) in d'.files ==> Owned(d', PathOf(d.Row(id).value))
    ensures Sound(host, d')
  {
    forall p | p in d'.files ensures Owned(d', p) {
      if p != PathOf(d.Row(id).value) {
        assert Owned(d, p);
      }
    }
    forall other: Uuid ensures RetainedRowOk(host, d', other) {
      assert RetainedRowOk(host, d, other);
    }
    forall pin, ref | pin in d'.index.pins && ref in pin.references ensures Holds(host, d', ref) {
      assert Holds(host, d, ref);
    }
  }

  /** The list facts of replacing a row by another phase or count of itself. */
  lemma RowChangeLists(rs: seq<Record>, row': Record)
    requires Distinct(rs) && QuotaOk(rs) && Find(rs, row'.id).Some?
    requires Find(rs, row'.id).value.bytes == row'.bytes && Find(rs, row'.id).value.scope == row'.scope
    requires Find(rs, row'.id).value.phase.Uploading?
    ensures Distinct(Put(rs, row')) && QuotaOk(Put(rs, row'))
    ensures forall id: Uuid :: Find(Put(rs, row'), id) == if id == row'.id then Some(row') else Find(rs, id)
  {
    PutDistinct(rs, row');
    PutNoHeavier(rs, row', 0);
    forall target: Key ensures UploadsTo(Put(rs, row'), target) <= TARGET_UPLOADS {
      PutNoHeavier(rs, row', target);
    }
    forall id: Uuid ensures Find(Put(rs, row'), id) == if id == row'.id then Some(row') else Find(rs, id) {
      FindPut(rs, row', id);
    }
  }

  /** Images that are held stay held while no retained row and no file changes. */
  lemma SameImagesHeld(host: Host, d: Durable, d': Durable, id: Uuid)
    requires Sound(host, d) && d'.files == d.files && d'.index.pins == d.index.pins
    requires forall other: Uuid :: other != id ==> d'.Row(other) == d.Row(other)
    requires d.Row(id).Some? && !d.Row(id).value.phase.Retained?
    requires d'.Row(id).Some? && !d'.Row(id).value.phase.Retained?
    ensures forall other: Uuid :: RetainedRowOk(host, d', other)
    ensures forall pin, ref :: pin in d'.index.pins && ref in pin.references ==> Holds(host, d', ref)
  {
    forall other: Uuid ensures RetainedRowOk(host, d', other) {
      assert RetainedRowOk(host, d, other);
    }
    forall pin, ref | pin in d'.index.pins && ref in pin.references ensures Holds(host, d', ref) {
      assert Holds(host, d, ref);
    }
  }

  /** A step that replaces one uploading row by another phase or count of itself. */
  lemma RowChangeKeeps(host: Host, d: Durable, row': Record, d': Durable)
    requires Sound(host, d)
    requires d' == d.(index := d.index.(records := Put(d.index.records, row')))
    requires d.Row(row'.id).Some?
    requires var row := d.Row(row'.id).value;
      && row.phase.Uploading? && !row'.phase.Retained?
      && row'.bytes == row.bytes && row'.scope == row.scope && row'.media == row.media
      && (d.HasFile(row) ==> row'.received <= |d.files[PathOf(row)]|)
    requires RecordOk(row')
    ensures Sound(host, d')
  {
    RowChangeLists(d.index.records, row');
    assert forall id: Uuid :: d'.Row(id) == if id == row'.id then Some(row') else d.Row(id);
    SameImagesHeld(host, d, d', row'.id);
    forall p | p in d'.files ensures Owned(d', p) {
      assert Owned(d, p);
    }
  }

  lemma PinMessageLists(rs: seq<Record>, refs: seq<Reference>)
    requires Distinct(rs) && QuotaOk(rs)
    ensures Distinct(RetainAll(rs, refs)) && QuotaOk(RetainAll(rs, refs)) && |RetainAll(rs, refs)| == |rs|
    ensures forall id: Uuid :: Find(RetainAll(rs, refs), id)
              == if CitesId(refs, id) && Find(rs, id).Some? then Some(Find(rs, id).value.(phase := Retained))
                 else Find(rs, id)
  {
    RetainAllKeeps(rs, refs, 0);
    forall target: Key ensures UploadsTo(RetainAll(rs, refs), target) <= TARGET_UPLOADS {
      RetainAllKeeps(rs, refs, target);
    }
    forall id: Uuid ensures Find(RetainAll(rs, refs), id)
                         == if CitesId(refs, id) && Find(rs, id).Some?
                            then Some(Find(rs, id).value.(phase := Retained)) else Find(rs, id) {
      FindRetainAll(rs, refs, id);
    }
  }

  /** A row that becomes retained was exactly what a reference says. */
  lemma RetainedRecordsOk(host: Host, d: Durable, pin: Pin)
    requires Sound(host, d) && forall ref :: ref in pin.references ==> Exact(host, d, ref)
    ensures forall row :: row in RetainAll(d.index.records, pin.references) ==> RecordOk(row)
  {
    var rs := d.index.records;
    var rs' := RetainAll(rs, pin.references);
    PinMessageLists(rs, pin.references);
    forall row | row in rs' ensures RecordOk(row) {
      FindMember(rs', row);
      var earlier := d.Row(row.id).value;
      if CitesId(pin.references, row.id) {
        var ref :| ref in pin.references && ref.id == row.id;
        assert Exact(host, d, ref);
      }
      assert RecordOk(earlier);
    }
  }

  lemma PinMessageKeeps(host: Host, d: Durable, pin: Pin, d': Durable)
    requires Sound(host, d) && PinMessageStep(host, d, pin, d')
    ensures Sound(host, d')
  {
    PinMessageLists(d.index.records, pin.references);
    RetainedRecordsOk(host, d, pin);
    forall p | p in d'.files ensures Owned(d', p) {
      assert Owned(d, p);
    }
    PinMessageHolds(host, d, pin, d');
  }

  lemma PinMessageHolds(host: Host, d: Durable, pin: Pin, d': Durable)
    requires Sound(host, d) && d'.files == d.files && d'.index.pins == d.index.pins + [pin]
    requires forall ref :: ref in pin.references ==> Exact(host, d, ref)
    requires forall id: Uuid :: d'.Row(id) == if CitesId(pin.references, id) && d.Row(id).Some?
                                              then Some(d.Row(id).value.(phase := Retained)) else d.Row(id)
    ensures forall id: Uuid :: RetainedRowOk(host, d', id)
    ensures forall p, ref :: p in d'.index.pins && ref in p.references ==> Holds(host, d', ref)
  {
    forall id: Uuid ensures RetainedRowOk(host, d', id) {
      assert RetainedRowOk(host, d, id);
      if CitesId(pin.references, id) {
        var ref :| ref in pin.references && ref.id == id;
        assert Exact(host, d, ref);
      }
    }
    forall p, ref | p in d'.index.pins && ref in p.references ensures Holds(host, d', ref) {
      if p == pin {
        assert Exact(host, d, ref);
        assert CitesId(pin.references, ref.id);
      } else {
        assert Holds(host, d, ref);
      }
    }
  }

  lemma InheritKeeps(host: Host, d: Durable, added: seq<Pin>, d': Durable)
    requires Sound(host, d) && InheritStep(d, added, d')
    ensures Sound(host, d')
  {
    forall pin | pin in d'.index.pins ensures ReferencesOk(pin.references) {
      if pin in added {
        var p :| p in d.index.pins && p.messageId == pin.messageId && p.references == pin.references;
      }
    }
    forall p | p in d'.files ensures Owned(d', p) {
      assert Owned(d, p);
    }
    forall id: Uuid ensures RetainedRowOk(host, d', id) {
      assert RetainedRowOk(host, d, id);
    }
    forall pin, ref | pin in d'.index.pins && ref in pin.references ensures Holds(host, d', ref) {
      if pin !in d.index.pins {
        var p :| p in d.index.pins && p.messageId == pin.messageId && p.references == pin.references;
      }
      assert Holds(host, d, ref);
    }
  }

  /** Dropping rows that have no file left and are neither retained nor cited by a pin. */
  lemma DropKeeps(host: Host, d: Durable, ids: set<Uuid>, cancelled: seq<Tombstone>, d': Durable)
    requires Sound(host, d)
    requires forall id :: id in ids && d.Row(id).Some? ==>
      !d.Row(id).value.phase.Retained? && !d.HasFile(d.Row(id).value)
    requires |cancelled| <= RECORDS
    requires d' == d.(index := Store(Without(d.index.records, ids), d.index.pins, cancelled))
    ensures Sound(host, d')
  {
    var rs := d.index.records;
    WithoutDistinct(rs, ids);
    WithoutNoHeavier(rs, ids, 0);
    forall target: Key ensures UploadsTo(Without(rs, ids), target) <= TARGET_UPLOADS {
      WithoutNoHeavier(rs, ids, target);
    }
    forall id: Uuid ensures d'.Row(id) == if id in ids then None else d.Row(id) {
      FindWithout(rs, ids, id);
    }
    forall p | p in d'.files ensures Owned(d', p) {
      assert Owned(d, p);
    }
    forall id: Uuid ensures RetainedRowOk(host, d', id) {
      assert RetainedRowOk(host, d, id);
    }
    forall pin, ref | pin in d'.index.pins && ref in pin.references ensures Holds(host, d', ref) {
      assert Holds(host, d, ref);
    }
  }

  /** The rows a sweep drops are those it counted as expired, found by id. */
  lemma ExpiredRows(d: Durable, now: nat, id: Uuid)
    requires Distinct(d.index.records)
    ensures id in ExpiredIds(d.index, now) <==> d.Row(id).Some? && Expired(d.index, d.Row(id).value, now)
  {
    if id in ExpiredIds(d.index, now) {
      var row :| row in d.index.records && Expired(d.index, row, now) && row.id == id;
      FindMember(d.index.records, row);
    }
  }

  lemma DropExpiredKeeps(host: Host, d: Durable, now: nat, d': Durable)
    requires Sound(host, d) && DropExpiredStep(d, now, d')
    ensures Sound(host, d')
  {
    forall id | id in ExpiredIds(d.index, now) && d.Row(id).Some?
      ensures !d.Row(id).value.phase.Retained? && !d.HasFile(d.Row(id).value) {
      ExpiredRows(d, now, id);
    }
    DropKeeps(host, d, ExpiredIds(d.index, now), LiveTombstones(d.index.cancelled, now), d');
  }

  lemma AcknowledgeKeeps(host: Host, d: Durable, id: Uuid, d': Durable)
    requires Sound(host, d) && AcknowledgeStep(d, id, d')
    ensures Sound(host, d')
  {
    var row := d.Row(id).value;
    RowChangeKeeps(host, d, row.(received := |d.files[PathOf(row)]|), d');
  }

  lemma VerifyKeeps(
    host: Host, d: Durable, id: Uuid, ref: Reference, expiresAt: nat, decoded: Bytes, d': Durable)
    requires Sound(host, d) && VerifyStep(d, id, ref, expiresAt, decoded, d')
    ensures Sound(host, d')
  {
    var row := d.Row(id).value;
    assert Owned(d, PathOf(row));
    RowChangeKeeps(host, d, row.(phase := Verified, expiresAt := expiresAt, reference := Some(ref)), d');
  }

  predicate TouchesAFile(s: Step) {
    s.CreateFile? || s.TruncateTail? || s.WriteTail? || s.UnlinkExpired? || s.UnlinkCancelled?
  }

  lemma FileStepKeeps(host: Host, d: Durable, s: Step, d': Durable)
    requires Sound(host, d) && StepOk(host, d, s, d') && TouchesAFile(s)
    ensures Sound(host, d')
  {
    if s.TruncateTail? {
      assert Owned(d, PathOf(d.Row(s.id).value));
    }
    FileChangeKeeps(host, d, s.id, d');
  }

  lemma StepKeepsSound(host: Host, d: Durable, s: Step, d': Durable)
    requires Sound(host, d) && StepOk(host, d, s, d')
    ensures Sound(host, d')
  {
    match s
    case Reserve(row) => ReserveKeeps(host, d, row, d');
    case Acknowledge(id) => AcknowledgeKeeps(host, d, id, d');
    case Verify(id, ref, expiresAt, decoded) => VerifyKeeps(host, d, id, ref, expiresAt, decoded, d');
    case PinMessage(pin) => PinMessageKeeps(host, d, pin, d');
    case Inherit(added) => InheritKeeps(host, d, added, d');
    case DropExpired(now) => DropExpiredKeeps(host, d, now, d');
    case DropCancelled(t) => DropKeeps(host, d, {t.id}, d.index.cancelled + [t], d');
    case _ => FileStepKeeps(host, d, s, d');
  }

  /** A retained row and its file are out of reach of every step. */
  lemma {:induction false} StepFreezesRetained(host: Host, d: Durable, s: Step, d': Durable, id: Uuid)
    requires Sound(host, d) && StepOk(host, d, s, d')
    requires d.Row(id).Some? && d.Row(id).value.phase.Retained?
    ensures d'.Row(id) == d.Row(id)
    ensures var p := PathOf(d.Row(id).value); p in d.files && p in d'.files && d'.files[p] == d.files[p]
  {
    assert RetainedRowOk(host, d, id);
    var rs := d.index.records;
    match s
    case Reserve(row) => FindPush(rs, row, id);
    case CreateFile(_) =>
    case TruncateTail(_) =>
    case WriteTail(_, _) =>
    case Acknowledge(other) =>
      var row := d.Row(other).value;
      FindPut(rs, row.(received := |d.files[PathOf(row)]|), id);
    case Verify(other, ref, expiresAt, _) =>
      var row := d.Row(other).value;
      FindPut(rs, row.(phase := Verified, expiresAt := expiresAt, reference := Some(ref)), id);
    case PinMessage(pin) => FindRetainAll(rs, pin.references, id);
    case Inherit(_) =>
    case UnlinkExpired(_, _) =>
    case DropExpired(now) =>
      ExpiredRows(d, now, id);
      FindWithout(rs, ExpiredIds(d.index, now), id);
    case UnlinkCancelled(_) =>
    case DropCancelled(t) => FindWithout(rs, {t.id}, id);
  }

  /** Pins are only ever appended. */
  lemma StepKeepsPins(host: Host, d: Durable, s: Step, d': Durable)
    requires StepOk(host, d, s, d')
    ensures d.index.pins <= d'.index.pins
  {
  }

  function Rank(phase: Phase): nat {
    match phase
    case Uploading => 0
    case Verified => 1
    case Retained => 2
  }

  /**
   How a row that is still there may differ: identity and declaration never, received bytes and phase only
   forward, a reference once made never, and acknowledged bytes not at all.
   */
  ghost predicate Later(d: Durable, d': Durable, id: Uuid)
  {
    d.Row(id).Some? && d'.Row(id).Some? ==>
      var row, row' := d.Row(id).value, d'.Row(id).value;
      && row'.scope == row.scope && row'.media == row.media
      && row'.bytes == row.bytes && row'.digest == row.digest
      && row.received <= row'.received
      && Rank(row.phase) <= Rank(row'.phase)
      && (row.reference.Some? ==> row'.reference == row.reference)
      && (0 < row.received && d'.HasFile(row) ==>
            && d.HasFile(row)
            && row.received <= |d.files[PathOf(row)]|
            && row.received <= |d'.files[PathOf(row)]|
            && d'.files[PathOf(row)][..row.received] == d.files[PathOf(row)][..row.received]
            && (row.received == row.bytes ==> d'.files[PathOf(row)] == d.files[PathOf(row)]))
  }

  lemma FileStepMovesForward(host: Host, d: Durable, s: Step, d': Durable, id: Uuid)
    requires Sound(host, d) && StepOk(host, d, s, d') && TouchesAFile(s)
    ensures Later(d, d', id)
  {
    if d.Row(id).Some? && d.HasFile(d.Row(id).value) {
      assert Owned(d, PathOf(d.Row(id).value));
    }
  }

  lemma StepMovesForward(host: Host, d: Durable, s: Step, d': Durable, id: Uuid)
    requires Sound(host, d) && StepOk(host, d, s, d')
    ensures Later(d, d', id)
  {
    if TouchesAFile(s) {
      FileStepMovesForward(host, d, s, d', id);
    } else if d.Row(id).Some? {
      var rs := d.index.records;
      if d.HasFile(d.Row(id).value) {
        assert Owned(d, PathOf(d.Row(id).value));
      }
      match s
      case Reserve(row) => FindPush(rs, row, id);
      case Acknowledge(other) =>
        var r := d.Row(other).value;
        FindPut(rs, r.(received := |d.files[PathOf(r)]|), id);
      case Verify(other, ref, expiresAt, _) =>
        var r := d.Row(other).value;
        FindPut(rs, r.(phase := Verified, expiresAt := expiresAt, reference := Some(ref)), id);
      case PinMessage(pin) => FindRetainAll(rs, pin.references, id);
      case DropExpired(now) => FindWithout(rs, ExpiredIds(d.index, now), id);
      case DropCancelled(t) => FindWithout(rs, {t.id}, id);
      case Inherit(_) =>
    }
  }

  // ---- Whole runs -------------------------------------------------------------------------------

  /** At every crash point of every run the store is sound. */
  lemma {:induction false} EveryStateIsSound(host: Host, states: seq<Durable>, steps: seq<Step>, i: nat)
    requires IsRun(host, states, steps) && i < |states|
    ensures Sound(host, states[i])
  {
    if i > 0 {
      EveryStateIsSound(host, states, steps, i - 1);
      StepKeepsSound(host, states[i - 1], steps[i - 1], states[i]);
    }
  }

  /** From the moment an image is held, every later state holds it with the very same bytes. */
  lemma {:induction false} HeldForever(
    host: Host, states: seq<Durable>, steps: seq<Step>, i: nat, j: nat, ref: Reference)
    requires IsRun(host, states, steps) && i <= j < |states|
    requires Holds(host, states[i], ref)
    ensures Holds(host, states[j], ref)
    ensures var p := Path(ref.id, ref.media);
      p in states[i].files && p in states[j].files && states[j].files[p] == states[i].files[p]
    decreases j
  {
    EveryStateIsSound(host, states, steps, i);
    var row := states[i].Row(ref.id).value;
    assert row in states[i].index.records && RecordOk(row);
    if i < j {
      HeldForever(host, states, steps, i, j - 1, ref);
      EveryStateIsSound(host, states, steps, j - 1);
      var row' := states[j - 1].Row(ref.id).value;
      assert row' in states[j - 1].index.records && RecordOk(row');
      StepFreezesRetained(host, states[j - 1], steps[j - 1], states[j], ref.id);
    }
  }

  lemma {:induction false} PinsOnlyGrow(host: Host, states: seq<Durable>, steps: seq<Step>, i: nat, j: nat)
    requires IsRun(host, states, steps) && i <= j < |states|
    ensures states[i].index.pins <= states[j].index.pins
    decreases j
  {
    if i < j {
      PinsOnlyGrow(host, states, steps, i, j - 1);
      assert StepOk(host, states[j - 1], steps[j - 1], states[j]);
      StepKeepsPins(host, states[j - 1], steps[j - 1], states[j]);
    }
  }

  lemma RowStepsForward(host: Host, states: seq<Durable>, steps: seq<Step>, k: nat, id: Uuid)
    requires IsRun(host, states, steps) && k < |steps|
    ensures Later(states[k], states[k + 1], id)
  {
    EveryStateIsSound(host, states, steps, k);
    StepMovesForward(host, states[k], steps[k], states[k + 1], id);
  }

  lemma RowIsOk(host: Host, states: seq<Durable>, steps: seq<Step>, k: nat, id: Uuid)
    requires IsRun(host, states, steps) && k < |states| && states[k].Row(id).Some?
    ensures RecordOk(states[k].Row(id).value) && Later(states[k], states[k], id)
  {
    EveryStateIsSound(host, states, steps, k);
    assert states[k].Row(id).value in states[k].index.records;
    LaterIsReflexive(host, states[k], id);
  }

  /** Steps forward make up a way forward. */
  lemma {:induction false} LaterChains(states: seq<Durable>, i: nat, j: nat, id: Uuid)
    requires i <= j < |states|
    requires forall k :: i <= k <= j ==> states[k].Row(id).Some? && RecordOk(states[k].Row(id).value)
    requires forall k :: i <= k < j ==> Later(states[k], states[k + 1], id)
    requires Later(states[i], states[i], id)
    ensures Later(states[i], states[j], id)
    decreases j
  {
    if i < j {
      LaterChains(states, i, j - 1, id);
      assert Later(states[j - 1], states[j - 1 + 1], id);
      LaterComposes(states[i], states[j - 1], states[j], id);
    }
  }

  /** The row is in the index at every state of this stretch. */
  ghost predicate Lives(states: seq<Durable>, id: Uuid, i: nat, j: nat) {
    j < |states| && forall k :: i <= k <= j ==> states[k].Row(id).Some?
  }

  /** While a row lives, it only moves forward. */
  lemma LivingRowMovesForward(host: Host, states: seq<Durable>, steps: seq<Step>, i: nat, j: nat, id: Uuid)
    requires IsRun(host, states, steps) && i <= j && Lives(states, id, i, j)
    ensures Later(states[i], states[j], id)
  {
    forall k | i <= k <= j
      ensures RecordOk(states[k].Row(id).value) && Later(states[k], states[k], id)
    {
      RowIsOk(host, states, steps, k, id);
    }
    forall k | i <= k < j
      ensures Later(states[k], states[k + 1], id)
    {
      RowStepsForward(host, states, steps, k, id);
    }
    LaterChains(states, i, j, id);
  }

  lemma LaterIsReflexive(host: Host, d: Durable, id: Uuid)
    requires Sound(host, d)
    ensures Later(d, d, id)
  {
    if d.Row(id).Some? && d.HasFile(d.Row(id).value) {
      assert Owned(d, PathOf(d.Row(id).value));
    }
  }

  lemma LaterComposes(a: Durable, b: Durable, c: Durable, id: Uuid)
    requires a.Row(id).Some? && b.Row(id).Some? && c.Row(id).Some?
    requires Later(a, b, id) && Later(b, c, id)
    requires RecordOk(b.Row(id).value)
    ensures Later(a, c, id)
  {
    var row, mid := a.Row(id).value, b.Row(id).value;
    if 0 < row.received && c.HasFile(row) {
      var n, p := row.received, PathOf(row);
      assert c.files[p][..n] == c.files[p][..mid.received][..n];
      assert b.files[p][..n] == b.files[p][..mid.received][..n];
    }
  }

  // ---- Disk use ---------------------------------------------------------------------------------

  /** Bytes in the files under these paths. */
  ghost function FileBytes(files: map<Path, Bytes>, paths: set<Path>): nat
    requires paths <= files.Keys
  {
    if paths == {} then 0
    else var p :| p in paths; |files[p]| + FileBytes(files, paths - {p})
  }

  lemma {:induction false} FileBytesSplit(files: map<Path, Bytes>, paths: set<Path>, p: Path)
    requires paths <= files.Keys && p in paths
    ensures FileBytes(files, paths) == |files[p]| + FileBytes(files, paths - {p})
  {
    var q :| q in paths && FileBytes(files, paths) == |files[q]| + FileBytes(files, paths - {q});
    if q != p {
      FileBytesSplit(files, paths - {q}, p);
      FileBytesSplit(files, paths - {p}, q);
      assert paths - {q} - {p} == paths - {p} - {q};
    }
  }

  /** Files that each fit the first row of their id take no more than the rows reserve. */
  lemma {:induction false} FilesFitReservation(rs: seq<Record>, files: map<Path, Bytes>, paths: set<Path>)
    requires paths <= files.Keys
    requires forall p :: p in paths ==>
      && Find(rs, p.id).Some?
      && p == PathOf(Find(rs, p.id).value)
      && |files[p]| <= Find(rs, p.id).value.bytes
    ensures FileBytes(files, paths) <= Reserved(rs)
  {
    if rs == [] {
      assert forall p :: p in paths ==> Find(rs, p.id).Some?;
      assert paths == {};
    } else {
      var p := PathOf(rs[0]);
      var rest := paths - {p};
      forall q | q in rest ensures Find(rs[1..], q.id) == Find(rs, q.id) {
        assert q == PathOf(Find(rs, q.id).value);
      }
      FilesFitReservation(rs[1..], files, rest);
      if p in paths {
        FileBytesSplit(files, paths, p);
      } else {
        assert rest == paths;
      }
    }
  }

  /** At every crash point all byte files together stay under the host quota. */
  lemma DiskUseBounded(host: Host, states: seq<Durable>, steps: seq<Step>, i: nat)
    requires IsRun(host, states, steps) && i < |states|
    ensures FileBytes(states[i].files, states[i].files.Keys) <= HOST_BYTES
  {
    var d := states[i];
    EveryStateIsSound(host, states, steps, i);
    forall p | p in d.files.Keys ensures
      && Find(d.index.records, p.id).Some?
      && p == PathOf(Find(d.index.records, p.id).value)
      && |d.files[p]| <= Find(d.index.records, p.id).value.bytes
    {
      assert Owned(d, p);
    }
    FilesFitReservation(d.index.records, d.files, d.files.Keys);
  }
}
