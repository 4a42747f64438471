/**
 The durable half of the attachment store as a machine of micro-steps.

 Two things survive a crash: the index, which is replaced as a whole, and the byte files. A `Step` is one
 change of one of them, with the guard the code has established when it makes that change. An operation is a
 path of steps; a crash is a path that stops anywhere. What holds along every run therefore holds at every
 crash point of every operation.
 */
module AttachmentMachine {
  import opened Prelude
  import opened AttachmentRecords

  /** What the store takes from its host: the digest, and the size of the serialised index. */
  datatype Host = Host(sha256: Bytes -> Digest, indexBytes: Store -> nat)

  datatype Durable = Durable(index: Store, files: map<Path, Bytes>) {
    function Row(id: Uuid): Option<Record> {
      Find(index.records, id)
    }

    predicate HasFile(row: Record) {
      PathOf(row) in files
    }
  }

  const START := Durable(EMPTY, map[])

  predicate Protected(pins: seq<Pin>, id: Uuid) {
    exists pin :: pin in pins && CitesId(pin.references, id)
  }

  predicate Expired(store: Store, row: Record, now: nat) {
    !row.phase.Retained? && row.expiresAt <= now && !Protected(store.pins, row.id)
  }

  function ExpiredIds(store: Store, now: nat): set<Uuid> {
    set row | row in store.records && Expired(store, row, now) :: row.id
  }

  function LiveTombstones(ts: seq<Tombstone>, now: nat): (out: seq<Tombstone>)
    ensures |out| <= |ts|
    ensures |out| == |ts| ==> out == ts
  {
    if ts == [] then []
    else (if ts[0].expiresAt > now then [ts[0]] else []) + LiveTombstones(ts[1..], now)
  }

  function FindPin(pins: seq<Pin>, messageId: Uuid, target: Key): (pin: Option<Pin>)
    ensures pin.Some? ==> pin.value in pins && pin.value.messageId == messageId && pin.value.scope.target == target
  {
    if pins == [] then None
    else if pins[0].messageId == messageId && pins[0].scope.target == target then Some(pins[0])
    else FindPin(pins[1..], messageId, target)
  }

  /** A retained image: the row is permanent, and its file is complete and hashes to its digest. */
  ghost predicate Holds(host: Host, d: Durable, ref: Reference) {
    && d.Row(ref.id).Some?
    && var row := d.Row(ref.id).value;
    && row.reference == Some(ref)
    && row.phase.Retained?
    && d.HasFile(row)
    && |d.files[PathOf(row)]| == ref.bytes
    && host.sha256(d.files[PathOf(row)]) == ref.digest
  }

  datatype Step =
    | Reserve(row: Record)
    | CreateFile(id: Uuid)
    | TruncateTail(id: Uuid)
    | WriteTail(id: Uuid, piece: Bytes)
    | Acknowledge(id: Uuid)
    | Verify(id: Uuid, ref: Reference, expiresAt: nat, decoded: Bytes)
    | PinMessage(pin: Pin)
    | Inherit(added: seq<Pin>)
    | UnlinkExpired(id: Uuid, now: nat)
    | DropExpired(now: nat)
    | UnlinkCancelled(id: Uuid)
    | DropCancelled(tombstone: Tombstone)

  // ---- Guards and effects, one predicate per step -----------------------------------------------

  ghost predicate ReserveStep(d: Durable, row: Record, d': Durable) {
    var rs := d.index.records;
    && RecordOk(row) && row.phase.Uploading? && row.received == 0
    && Find(rs, row.id).None?
    && (forall t :: t in d.index.cancelled ==> t.id != row.id)
    && |rs| < RECORDS
    && Reserved(rs) + row.bytes <= HOST_BYTES
    && Uploads(rs) < HOST_UPLOADS
    && UploadsTo(rs, row.scope.target) < TARGET_UPLOADS
    && d' == d.(index := d.index.(records := rs + [row]))
  }

  ghost predicate CreateFileStep(d: Durable, id: Uuid, d': Durable) {
    && d.Row(id).Some?
    && var row := d.Row(id).value;
    && row.phase.Uploading? && row.received == 0 && !d.HasFile(row)
    && d' == d.(files := d.files[PathOf(row) := []])
  }

  ghost predicate TruncateTailStep(d: Durable, id: Uuid, d': Durable) {
    && d.Row(id).Some?
    && var row := d.Row(id).value;
    && row.phase.Uploading? && d.HasFile(row)
    && row.received <= |d.files[PathOf(row)]|
    && d' == d.(files := d.files[PathOf(row) := d.files[PathOf(row)][..row.received]])
  }

  ghost predicate WriteTailStep(d: Durable, id: Uuid, piece: Bytes, d': Durable) {
    && d.Row(id).Some?
    && var row := d.Row(id).value;
    && row.phase.Uploading? && d.HasFile(row)
    && var file := d.files[PathOf(row)];
    && row.received < row.bytes
    && row.received <= |file|
    && |file| + |piece| <= row.bytes
    && d' == d.(files := d.files[PathOf(row) := file + piece])
  }

  ghost predicate AcknowledgeStep(d: Durable, id: Uuid, d': Durable) {
    && d.Row(id).Some?
    && var row := d.Row(id).value;
    && row.phase.Uploading? && d.HasFile(row)
    && var file := d.files[PathOf(row)];
    && row.received <= |file| <= row.bytes
    && d' == d.(index := d.index.(records := Put(d.index.records, row.(received := |file|))))
  }

  ghost predicate VerifyStep(d: Durable, id: Uuid, ref: Reference, expiresAt: nat, decoded: Bytes, d': Durable) {
    && d.Row(id).Some?
    && var row := d.Row(id).value;
    && row.phase.Uploading? && row.received == row.bytes && d.HasFile(row)
    && d.files[PathOf(row)] == decoded
    && ReferenceOk(ref)
    && ref == Reference(row.id, row.digest, row.media, row.bytes, ref.width, ref.height)
    && var verified := row.(phase := Verified, expiresAt := expiresAt, reference := Some(ref));
    && d' == d.(index := d.index.(records := Put(d.index.records, verified)))
  }

  /** The row a reference names is verified as exactly that reference and its file still hashes to it. */
  ghost predicate Exact(host: Host, d: Durable, ref: Reference) {
    && d.Row(ref.id).Some?
    && var row := d.Row(ref.id).value;
    && !row.phase.Uploading? && row.reference == Some(ref) && d.HasFile(row)
    && |d.files[PathOf(row)]| == ref.bytes
    && host.sha256(d.files[PathOf(row)]) == ref.digest
  }

  ghost predicate PinMessageStep(host: Host, d: Durable, pin: Pin, d': Durable) {
    && FindPin(d.index.pins, pin.messageId, pin.scope.target).None?
    && |d.index.pins| < PINS
    && ReferencesOk(pin.references)
    && (forall ref :: ref in pin.references ==> Exact(host, d, ref))
    && d' == d.(index := d.index.(records := RetainAll(d.index.records, pin.references),
                                  pins := d.index.pins + [pin]))
  }

  ghost predicate InheritStep(d: Durable, added: seq<Pin>, d': Durable) {
    && |d.index.pins| + |added| <= PINS
    && (forall a :: a in added ==>
          exists p :: p in d.index.pins && p.messageId == a.messageId && p.references == a.references)
    && d' == d.(index := d.index.(pins := d.index.pins + added))
  }

  ghost predicate UnlinkExpiredStep(d: Durable, id: Uuid, now: nat, d': Durable) {
    && d.Row(id).Some?
    && Expired(d.index, d.Row(id).value, now)
    && d' == d.(files := d.files - {PathOf(d.Row(id).value)})
  }

  ghost predicate DropExpiredStep(d: Durable, now: nat, d': Durable) {
    var ids := ExpiredIds(d.index, now);
    && (forall row :: row in d.index.records && row.id in ids ==> !d.HasFile(row))
    && d' == d.(index := Store(Without(d.index.records, ids), d.index.pins, LiveTombstones(d.index.cancelled, now)))
  }

  ghost predicate UnlinkCancelledStep(d: Durable, id: Uuid, d': Durable) {
    && d.Row(id).Some?
    && !d.Row(id).value.phase.Retained? && !Protected(d.index.pins, id)
    && d' == d.(files := d.files - {PathOf(d.Row(id).value)})
  }

  ghost predicate DropCancelledStep(d: Durable, tombstone: Tombstone, d': Durable) {
    var id := tombstone.id;
    && d.Row(id).Some?
    && !d.Row(id).value.phase.Retained? && !Protected(d.index.pins, id)
    && !d.HasFile(d.Row(id).value)
    && (forall t :: t in d.index.cancelled ==> t.id != id)
    && |d.index.cancelled| < RECORDS
    && d' == d.(index := d.index.(records := Without(d.index.records, {id}),
                                  cancelled := d.index.cancelled + [tombstone]))
  }

  ghost predicate StepOk(host: Host, d: Durable, s: Step, d': Durable) {
    match s
    case Reserve(row) => ReserveStep(d, row, d')
    case CreateFile(id) => CreateFileStep(d, id, d')
    case TruncateTail(id) => TruncateTailStep(d, id, d')
    case WriteTail(id, piece) => WriteTailStep(d, id, piece, d')
    case Acknowledge(id) => AcknowledgeStep(d, id, d')
    case Verify(id, ref, expiresAt, decoded) => VerifyStep(d, id, ref, expiresAt, decoded, d')
    case PinMessage(pin) => PinMessageStep(host, d, pin, d')
    case Inherit(added) => InheritStep(d, added, d')
    case UnlinkExpired(id, now) => UnlinkExpiredStep(d, id, now, d')
    case DropExpired(now) => DropExpiredStep(d, now, d')
    case UnlinkCancelled(id) => UnlinkCancelledStep(d, id, d')
    case DropCancelled(tombstone) => DropCancelledStep(d, tombstone, d')
  }

  /** A run: the durable states passed through, and the step taken between each two. */
  ghost predicate IsRun(host: Host, states: seq<Durable>, steps: seq<Step>) {
    && |states| == |steps| + 1
    && states[0] == START
    && forall i :: 0 <= i < |steps| ==> StepOk(host, states[i], steps[i], states[i + 1])
  }

  // ---- What every state of every run satisfies --------------------------------------------------

  /** A file belongs to a row, holds at least what was acknowledged and no more than was declared. */
  ghost predicate Owned(d: Durable, p: Path) {
    && p in d.files
    && d.Row(p.id).Some?
    && var row := d.Row(p.id).value;
    && row.media == p.media
    && row.received <= |d.files[p]| <= row.bytes
  }

  ghost predicate QuotaOk(rs: seq<Record>) {
    && Reserved(rs) <= HOST_BYTES
    && Uploads(rs) <= HOST_UPLOADS
    && forall target: Key :: UploadsTo(rs, target) <= TARGET_UPLOADS
  }

  ghost predicate RetainedRowOk(host: Host, d: Durable, id: Uuid) {
    d.Row(id).Some? && d.Row(id).value.phase.Retained? ==>
      d.Row(id).value.reference.Some? && Holds(host, d, d.Row(id).value.reference.value)
  }

  ghost predicate Sound(host: Host, d: Durable) {
    && StoreOk(d.index)
    && Distinct(d.index.records)
    && QuotaOk(d.index.records)
    && (forall p :: p in d.files ==> Owned(d, p))
    && (forall id: Uuid :: RetainedRowOk(host, d, id))
    && (forall pin, ref :: pin in d.index.pins && ref in pin.references ==> Holds(host, d, ref))
  }
}
