/**
 The attachment store as the source runs it: a disk that only changes by the machine's steps, and a transaction
 that loads the index, changes its own copy and persists it. Abandoning a transaction anywhere is a crash.
 */
module AttachmentTransaction {
  import opened Prelude
  import opened AttachmentRecords
  import opened AttachmentMachine
  import opened AttachmentInvariant
  import opened AttachmentSpec
  import opened AttachmentPinning
  import Base64

  lemma WrittenSoFar(before: Bytes, data: Bytes, offset: nat, written: nat)
    requires offset + written <= |data|
    ensures before + data[..offset] + data[offset..][..written] == before + data[..offset + written]
  {
    assert data[..offset] + data[offset..][..written] == data[..offset + written];
  }

  /** The index file and the byte files. The ghost trace is every durable state there has been. */
  class Disk {
    const host: Host
    var index: Store
    var files: map<Path, Bytes>
    ghost var trace: seq<Durable>
    ghost var steps: seq<Step>

    ghost function State(): Durable
      reads this
    {
      Durable(index, files)
    }

    ghost predicate Valid()
      reads this
    {
      IsRun(host, trace, steps) && trace[|trace| - 1] == State()
    }

    constructor (host: Host)
      ensures Valid() && this.host == host && State() == START
    {
      this.host := host;
      index := EMPTY;
      files := map[];
      trace := [START];
      steps := [];
    }

    ghost method Record(step: Step)
      requires IsRun(host, trace, steps) && StepOk(host, trace[|trace| - 1], step, State())
      modifies this`trace, this`steps
      ensures Valid() && trace == old(trace) + [State()]
    {
      trace := trace + [State()];
      steps := steps + [step];
    }

    /** The atomic swap of the index file. */
    method Replace(store: Store, ghost step: Step)
      requires Valid() && StepOk(host, State(), step, Durable(store, files))
      modifies this
      ensures Valid() && index == store && files == old(files) && trace == old(trace) + [State()]
    {
      index := store;
      Record(step);
    }

    method Create(path: Path, ghost step: Step)
      requires Valid() && StepOk(host, State(), step, Durable(index, files[path := []]))
      modifies this
      ensures Valid() && index == old(index) && files == old(files)[path := []] && trace == old(trace) + [State()]
    {
      files := files[path := []];
      Record(step);
    }

    method Truncate(path: Path, length: nat, ghost step: Step)
      requires Valid() && path in files && length <= |files[path]|
      requires StepOk(host, State(), step, Durable(index, files[path := files[path][..length]]))
      modifies this
      ensures Valid() && index == old(index) && trace == old(trace) + [State()]
      ensures files == old(files)[path := old(files[path])[..length]]
    {
      files := files[path := files[path][..length]];
      Record(step);
    }

    method Unlink(path: Path, ghost step: Step)
      requires Valid() && StepOk(host, State(), step, Durable(index, files - {path}))
      modifies this
      ensures Valid() && index == old(index) && files == old(files) - {path} && trace == old(trace) + [State()]
    {
      files := files - {path};
      Record(step);
    }

    /** `writeSync` at the end of a file: any positive part of what was offered. */
    method WriteSome(path: Path, data: Bytes, ghost id: Uuid) returns (written: nat)
      requires Valid() && 0 < |data| && path in files && State().Row(id).Some?
      requires var row := State().Row(id).value;
        PathOf(row) == path && row.phase.Uploading? && row.received < row.bytes
        && row.received <= |files[path]| && |files[path]| + |data| <= row.bytes
      modifies this
      ensures Valid() && index == old(index) && 0 < written <= |data|
      ensures files == old(files)[path := old(files[path]) + data[..written]]
      ensures trace == old(trace) + [State()]
    {
      written :| 0 < written <= |data|;
      files := files[path := files[path] + data[..written]];
      Record(WriteTail(id, data[..written]));
    }

    /** `writePrivate` positioned at the end of the file: repeats short writes until all of `data` is there. */
    method WriteAll(path: Path, data: Bytes, ghost id: Uuid)
      requires Valid() && path in files && State().Row(id).Some?
      requires var row := State().Row(id).value;
        PathOf(row) == path && row.phase.Uploading? && row.received < row.bytes
        && row.received <= |files[path]| && |files[path]| + |data| <= row.bytes
      modifies this
      ensures Valid() && index == old(index) && old(trace) <= trace
      ensures files == old(files)[path := old(files[path]) + data]
    {
      var offset := 0;
      assert files[path] + data[..0] == files[path];
      assert files == files[path := files[path]];
      while offset < |data|
        invariant 0 <= offset <= |data|
        invariant Valid() && index == old(index) && old(trace) <= trace
        invariant files == old(files)[path := old(files[path]) + data[..offset]]
      {
        var rest := data[offset..];
        var written := WriteSome(path, rest, id);
        WrittenSoFar(old(files[path]), data, offset, written);
        offset := offset + written;
      }
      assert data[..offset] == data;
    }
  }

  lemma PathsOfNext(rs: seq<Record>, ids: set<Uuid>, i: nat)
    requires i < |rs|
    ensures PathsOf(rs[..i + 1], ids) == PathsOf(rs[..i], ids) + if rs[i].id in ids then {PathOf(rs[i])} else {}
  {
    assert rs[..i + 1] == rs[..i] + [rs[i]];
  }

  lemma ExpiredRowMayGo(d: Durable, row: Record, now: nat)
    requires Distinct(d.index.records) && row in d.index.records && row.id in ExpiredIds(d.index, now)
    ensures UnlinkExpiredStep(d, row.id, now, d.(files := d.files - {PathOf(row)}))
  {
    FindMember(d.index.records, row);
    ExpiredRows(d, now, row.id);
  }

  /** One transaction: its own copy of the index, and the disk it persists to. */
  class Transaction {
    const disk: Disk
    var records: seq<Record>
    var pins: seq<Pin>
    var cancelled: seq<Tombstone>

    function Loaded(): Store
      reads this
    {
      Store(records, pins, cancelled)
    }

    /** Nothing has been changed since the index was loaded or last persisted. */
    ghost predicate Clean()
      reads this, disk
    {
      disk.Valid() && Loaded() == disk.index
    }

    /** `withAttachmentStore`: load the index as it is now. */
    constructor (disk: Disk)
      requires disk.Valid()
      ensures this.disk == disk && Clean()
    {
      this.disk := disk;
      records := disk.index.records;
      pins := disk.index.pins;
      cancelled := disk.index.cancelled;
    }

    /** Every state the disk has been in is sound; in particular the present one. */
    lemma Here()
      requires disk.Valid()
      ensures Sound(disk.host, disk.State())
    {
      EveryStateIsSound(disk.host, disk.trace, disk.steps, |disk.trace| - 1);
    }

    /** The schema and size checks, then the swap. The schema check never refuses: steps keep the store sound. */
    method Persist(ghost step: Step) returns (check: Check)
      requires disk.Valid() && StepOk(disk.host, disk.State(), step, Durable(Loaded(), disk.files))
      modifies disk
      ensures disk.Valid() && old(disk.trace) <= disk.trace
      ensures (check, disk.State()) == Persisted(disk.host, old(disk.State()), Loaded())
      ensures check.Pass? ==> Clean()
    {
      Here();
      StepKeepsSound(disk.host, disk.State(), step, Durable(Loaded(), disk.files));
      if !StoreOk(Loaded()) {
        assert false;
      }
      if disk.host.indexBytes(Loaded()) > STORE_BYTES {
        return Fail("attachment-index-quota");
      }
      disk.Replace(Loaded(), step);
      return Pass;
    }

    method UnlinkExpiredRow(row: Record, now: nat)
      requires disk.Valid() && row in disk.index.records && row.id in ExpiredIds(disk.index, now)
      modifies disk
      ensures disk.Valid() && old(disk.trace) <= disk.trace && disk.index == old(disk.index)
      ensures disk.files == old(disk.files) - {PathOf(row)}
    {
      Here();
      ExpiredRowMayGo(disk.State(), row, now);
      disk.Unlink(PathOf(row), UnlinkExpired(row.id, now));
    }

    /** Removes the files of the expired rows, one by one. */
    method UnlinkExpiredRows(ids: set<Uuid>, now: nat)
      requires Clean() && ids == ExpiredIds(Loaded(), now)
      modifies disk
      ensures disk.Valid() && old(disk.trace) <= disk.trace && disk.index == old(disk.index)
      ensures disk.files == old(disk.files) - PathsOf(records, ids)
    {
      var i := 0;
      while i < |records|
        invariant 0 <= i <= |records|
        invariant disk.Valid() && old(disk.trace) <= disk.trace && disk.index == old(disk.index)
        invariant disk.files == old(disk.files) - PathsOf(records[..i], ids)
      {
        PathsOfNext(records, ids, i);
        if records[i].id in ids {
          UnlinkExpiredRow(records[i], now);
        }
        i := i + 1;
      }
      assert records[..i] == records;
    }

    method ReapExpired(now: nat) returns (check: Check)
      requires Clean()
      modifies this, disk
      ensures disk.Valid() && old(disk.trace) <= disk.trace
      ensures (check, disk.State()) == Reaped(disk.host, old(disk.State()), now)
      ensures check.Pass? ==> Clean()
    {
      var ids := ExpiredIds(Loaded(), now);
      var live := LiveTombstones(cancelled, now);
      if ids == {} && |live| == |cancelled| {
        return Pass;
      }
      UnlinkExpiredRows(ids, now);
      records := Without(records, ids);
      cancelled := live;
      check := Persist(DropExpired(now));
    }

    method EnsureUploadFile(row: Record) returns (check: Check)
      requires Clean() && disk.State().Row(row.id) == Some(row)
      modifies disk
      ensures Clean() && old(disk.trace) <= disk.trace
      ensures (check, disk.State()) == Opened(old(disk.State()), row)
    {
      if PathOf(row) in disk.files {
        return Pass;
      }
      if !(row.received == 0 && row.phase.Uploading?) {
        return Fail("attachment-bytes-missing");
      }
      disk.Create(PathOf(row), CreateFile(row.id));
      return Pass;
    }

    method BeginUpload(scope: Scope, id: Uuid, media: Media, bytes: nat, digest: Digest, now: nat)
      returns (r: Result<Receipt>)
      requires Clean() && 0 < bytes <= IMAGE_BYTES
      modifies this, disk
      ensures disk.Valid() && old(disk.trace) <= disk.trace
      ensures (r, disk.State()) == Begun(disk.host, old(disk.State()), scope, id, media, bytes, digest, now)
    {
      if FindTombstone(cancelled, id).Some? {
        return Refused("attachment-upload-cancelled");
      }
      var existing := Find(records, id);
      if existing.Some? {
        var row := existing.value;
        :- Need(row.scope == scope, "attachment-scope");
        :- Need(row.media == media && row.bytes == bytes && row.digest == digest, "upload-idempotency-conflict");
        :- EnsureUploadFile(row);
        return Ok(UploadReceipt(row));
      }
      :- Quota(records, scope.target, bytes);
      var row := Record(id, scope, media, bytes, digest, 0, Uploading, now + UPLOAD_TTL_MS, None);
      FindPush(records, row, id);
      Here();
      assert PathOf(row) in disk.files ==> Owned(disk.State(), PathOf(row));
      records := records + [row];
      // The durable reservation precedes the file; a new row has none, so creating it cannot be refused.
      :- Persist(Reserve(row));
      var _ := EnsureUploadFile(row);
      return Ok(UploadReceipt(row));
    }

    /** Cuts what was never acknowledged and writes the chunk after what was. */
    method ReplaceTail(row: Record, data: Bytes)
      requires disk.Valid() && disk.State().Row(row.id) == Some(row) && PathOf(row) in disk.files
      requires row.phase.Uploading? && row.received <= |disk.files[PathOf(row)]|
      requires 0 < |data| && row.received + |data| <= row.bytes
      modifies disk
      ensures disk.Valid() && old(disk.trace) <= disk.trace && disk.index == old(disk.index)
      ensures disk.files == old(disk.files)[PathOf(row) := old(disk.files[PathOf(row)])[..row.received] + data]
    {
      var path := PathOf(row);
      ghost var before := disk.files[path];
      if |disk.files[path]| > row.received {
        disk.Truncate(path, row.received, TruncateTail(row.id));
      }
      assert disk.files[path] == before[..row.received];
      disk.WriteAll(path, data, row.id);
    }

    method AppendUpload(row: Record, offset: nat, text: string) returns (r: Result<Receipt>)
      requires Clean() && disk.State().Row(row.id) == Some(row) && Base64.WellShaped(text)
      modifies this, disk
      ensures disk.Valid() && old(disk.trace) <= disk.trace
      ensures (r, disk.State()) == Sent(disk.host, old(disk.State()), row, offset, text)
    {
      var data := Base64.Decode(text);
      :- Need(Base64.Encode(data) == text, "attachment-chunk-encoding");
      r := AppendBytes(row, offset, data);
    }

    method AppendBytes(row: Record, offset: nat, data: Bytes) returns (r: Result<Receipt>)
      requires Clean() && disk.State().Row(row.id) == Some(row)
      modifies this, disk
      ensures disk.Valid() && old(disk.trace) <= disk.trace
      ensures (r, disk.State()) == Appended(disk.host, old(disk.State()), row, offset, data)
    {
      var end := offset + |data|;
      :- Need(0 < |data| <= CHUNK_BYTES, "attachment-chunk-encoding");
      :- Need(end <= row.bytes && offset <= row.received, "attachment-chunk-order");
      :- EnsureUploadFile(row);
      var path := PathOf(row);
      var size := |disk.files[path]|;
      :- Need(row.received <= size <= row.bytes, "attachment-byte-state");
      if offset < row.received {
        :- Need(end <= row.received, "attachment-chunk-overlap");
        :- Need(disk.files[path][offset..end] == data, "attachment-chunk-conflict");
        return Ok(UploadReceipt(row));
      }
      :- Need(row.phase.Uploading?, "attachment-immutable");
      ReplaceTail(row, data);
      var grown := row.(received := end);
      assert |disk.files[path]| == end;
      records := Put(records, grown);
      :- Persist(Acknowledge(row.id));
      return Ok(UploadReceipt(grown));
    }

    method CancelUpload(scope: Scope, id: Uuid, now: nat) returns (r: Result<Uuid>)
      requires Clean()
      modifies this, disk
      ensures disk.Valid() && old(disk.trace) <= disk.trace
      ensures (r, disk.State()) == Cancelled(disk.host, old(disk.State()), scope, id, now)
    {
      var prior := FindTombstone(cancelled, id);
      if prior.Some? {
        :- Need(prior.value.scope == scope, "attachment-cancel-scope");
        return Ok(id);
      }
      var row :- Owner(Durable(Loaded(), disk.files), scope, id);
      :- Need(!row.phase.Retained? && !Protected(pins, id), "attachment-retained");
      :- Need(|cancelled| < RECORDS, "attachment-cancellation-quota");
      var tombstone := Tombstone(id, row.scope, now + UPLOAD_TTL_MS);
      cancelled := cancelled + [tombstone];
      disk.Unlink(PathOf(row), UnlinkCancelled(id));
      records := Without(records, {id});
      :- Persist(DropCancelled(tombstone));
      return Ok(id);
    }

    method CommitFinalized(scope: Scope, id: Uuid, prepared: Bytes, image: Image, aborted: bool, now: nat)
      returns (r: Result<Reference>)
      requires Clean()
      modifies this, disk
      ensures disk.Valid() && old(disk.trace) <= disk.trace
      ensures (r, disk.State())
           == FinalizeCommit(disk.host, old(disk.State()), scope, id, prepared, image, aborted, now)
    {
      var row :- Owner(Durable(Loaded(), disk.files), scope, id);
      :- Need(row.phase.Uploading? && row.received == row.bytes, "attachment-finalize-state");
      var current :- ReadPrivate(Durable(Loaded(), disk.files), row, IMAGE_BYTES);
      :- Need(current == prepared && image.media == row.media, "attachment-finalize-changed");
      :- Need(!aborted, "aborted");
      var ref := Reference(row.id, row.digest, image.media, row.bytes, image.width, image.height);
      :- Need(ReferenceOk(ref), "reference-schema");
      records := Put(records,
        row.(phase := Verified, expiresAt := now + UNRETAINED_TTL_MS, reference := Some(ref)));
      :- Persist(Verify(id, ref, now + UNRETAINED_TTL_MS, current));
      return Ok(ref);
    }

    /** Re-hashes every cited file and marks its row retained; the first file that differs stops it. */
    method RetainExactRows(refs: seq<Reference>) returns (check: Check)
      requires Loaded() == disk.index
      requires forall ref :: ref in refs ==> disk.State().Row(ref.id).Some?
      modifies `records
      ensures check == ExactAll(disk.host, disk.State(), refs)
      ensures check.Pass? ==> records == RetainAll(old(records), refs)
    {
      ghost var all := records;
      var i := 0;
      while i < |refs|
        invariant 0 <= i <= |refs|
        invariant records == RetainAll(all, refs[..i])
        invariant ExactAll(disk.host, disk.State(), refs) == ExactAll(disk.host, disk.State(), refs[i..])
      {
        assert refs[i] in refs && refs[i..][0] == refs[i] && refs[i..][1..] == refs[i + 1..];
        SameRowToRead(disk.host, disk.State(), refs[..i], refs[i]);
        var row := Find(records, refs[i].id).value;
        var bytes := ExactBytes(disk.host, Durable(disk.index, disk.files), row, refs[i]);
        if bytes.Refused? {
          return Fail(bytes.reason);
        }
        RetainAllSnoc(all, refs[..i], refs[i]);
        assert refs[..i + 1] == refs[..i] + [refs[i]];
        records := Put(records, row.(phase := Retained));
        i := i + 1;
      }
      assert refs[..i] == refs;
      return Pass;
    }

    /**
     `withPinnedAttachments`: exact bytes, then retained rows and the pin in one index swap, then the ledger
     callback, which answers `accept`. It is called only once the pin is durable.
     */
    method PinMessageImages(
      scope: Scope, messageId: Uuid, refs: seq<Reference>, aborted: bool, accept: Result<Uuid>)
      returns (r: Result<Uuid>, called: bool)
      requires Clean() && ReferencesOk(refs)
      modifies this, disk
      ensures disk.Valid() && old(disk.trace) <= disk.trace
      ensures (r, disk.State()) == Pinned(
        disk.host, old(disk.State()), scope, messageId, refs, if aborted then Refused("aborted") else accept)
      ensures called ==>
        r == accept && FindPin(disk.index.pins, messageId, scope.target) == Some(Pin(messageId, scope, refs))
      ensures r.Ok? ==> called
    {
      called := false;
      var check := PinOnce(scope, messageId, refs);
      if check.Fail? {
        return Refused(check.reason), false;
      }
      if aborted {
        return Refused("aborted"), false;
      }
      return accept, true;
    }

    /** The pin of this message, made now unless it is there. */
    method PinOnce(scope: Scope, messageId: Uuid, refs: seq<Reference>) returns (check: Check)
      requires Clean() && ReferencesOk(refs)
      modifies this, disk
      ensures disk.Valid() && old(disk.trace) <= disk.trace
      ensures forall accepted: Result<Uuid> ::
        Pinned(disk.host, old(disk.State()), scope, messageId, refs, accepted)
        == (if check.Fail? then Refused(check.reason) else accepted, disk.State())
      ensures check.Pass? ==> FindPin(disk.index.pins, messageId, scope.target) == Some(Pin(messageId, scope, refs))
    {
      var prior := FindPin(pins, messageId, scope.target);
      if prior.Some? {
        return Need(prior.value.scope == scope && prior.value.references == refs, "attachment-pin-conflict");
      }
      if |pins| >= PINS {
        return Fail("attachment-pin-quota");
      }
      var readable := ReadableAll(Durable(Loaded(), disk.files), pins, scope, refs);
      if readable.Fail? {
        return readable;
      }
      ReadableRows(disk.State(), pins, scope, refs);
      var exact := RetainExactRows(refs);
      if exact.Fail? {
        return exact;
      }
      ExactRows(disk.host, disk.State(), scope, refs);
      PinPush(pins, Pin(messageId, scope, refs));
      pins := pins + [Pin(messageId, scope, refs)];
      check := Persist(PinMessage(Pin(messageId, scope, refs)));
    }

    /** Adds a copy of every source pin that the destination does not have yet. */
    method CopyPins(original: seq<Pin>, destination: Endpoint) returns (check: Check)
      requires Clean() && forall pin :: pin in original ==> pin in pins
      modifies `pins
      ensures var all := InheritAll(disk.State(), old(pins), original, destination);
        if check.Pass? then all == Ok(pins) else all == Refused(check.reason)
    {
      var i := 0;
      while i < |original|
        invariant 0 <= i <= |original|
        invariant InheritAll(disk.State(), old(pins), original, destination)
                  == InheritAll(disk.State(), pins, original[i..], destination)
      {
        var next := InheritOne(Durable(disk.index, disk.files), pins, original[i], destination);
        if next.Refused? {
          return Fail(next.reason);
        }
        pins := next.value;
        i := i + 1;
      }
      return Pass;
    }

    /** `inheritAttachmentPins`: copy every pin of the source to the destination, in one index swap. */
    method InheritPins(source: Endpoint, destination: Endpoint, aborted: bool) returns (r: Result<nat>)
      requires Clean()
      modifies this, disk
      ensures disk.Valid() && old(disk.trace) <= disk.trace
      ensures (r, disk.State()) == Forked(disk.host, old(disk.State()), source, destination, aborted)
    {
      Here();
      ghost var start := pins;
      var original := PinsOf(pins, source);
      :- CopyPins(original, destination);
      :- Need(!aborted, "aborted");
      CopiesOfOriginals(disk.State(), start, start, original, destination);
      assert pins == start + pins[|start|..];
      :- Persist(Inherit(pins[|start|..]));
      return Ok(|pins|);
    }
  }
}
