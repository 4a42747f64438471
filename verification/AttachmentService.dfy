/**
 The attachment operations as a caller reaches them: parse, open the store, sweep what expired, check the session,
 run the body. The decode half of finalize runs without the lock, while other transactions may do anything.
 */
module AttachmentService {
  import opened Prelude
  import opened AttachmentRecords
  import opened AttachmentMachine
  import opened AttachmentInvariant
  import opened AttachmentSpec
  import opened AttachmentPromises
  import opened AttachmentTransaction
  import Base64

  /** A body's outcome, unless the session check before it was refused. */
  function Admitted<T>(session: Result<Uuid>, d: Durable, body: (Result<T>, Durable)): (Result<T>, Durable) {
    if session.Refused? then (Refused(session.reason), d) else body
  }

  function ScopeOf(target: Key, session: Result<Uuid>, principal: Key): Scope {
    Scope(target, if session.Ok? then session.value else 0, principal)
  }

  /** The index a refused call leaves: the one before it, or that one swept. */
  predicate LeftAsItWas(host: Host, before: Durable, after: Durable, now: nat) {
    after.index == before.index || after.index == Reaped(host, before, now).1.index
  }

  method BeginAttachmentUpload(
    disk: Disk, found: Option<Session>, target: Key, principal: Key,
    id: Uuid, media: Media, totalBytes: nat, digest: Digest, now: nat) returns (r: Result<Receipt>)
    requires disk.Valid()
    modifies disk
    ensures disk.Valid() && old(disk.trace) <= disk.trace
    ensures !(0 < totalBytes <= IMAGE_BYTES) ==> r == Refused("schema") && disk.State() == old(disk.State())
    ensures 0 < totalBytes <= IMAGE_BYTES ==>
      var reaped, session := Reaped(disk.host, old(disk.State()), now), AttachmentSession(found, true);
      (r, disk.State()) == Swept(reaped, Admitted(session, reaped.1,
        Begun(disk.host, reaped.1, ScopeOf(target, session, principal), id, media, totalBytes, digest, now)))
    ensures r.Refused? ==> LeftAsItWas(disk.host, old(disk.State()), disk.State(), now)
  {
    var declared := 0 < totalBytes <= IMAGE_BYTES;
    :- Need(declared, "schema");
    var tx := new Transaction(disk);
    :- tx.ReapExpired(now);
    var registration :- AttachmentSession(found, true);
    r := tx.BeginUpload(Scope(target, registration, principal), id, media, totalBytes, digest, now);
  }

  method AppendAttachmentChunk(
    disk: Disk, found: Option<Session>, target: Key, principal: Key,
    id: Uuid, offset: nat, text: string, now: nat) returns (r: Result<Receipt>)
    requires disk.Valid()
    modifies disk
    ensures disk.Valid() && old(disk.trace) <= disk.trace
    ensures !ChunkOk(offset, text) ==> r == Refused("schema") && disk.State() == old(disk.State())
    ensures ChunkOk(offset, text) ==>
      var reaped, session := Reaped(disk.host, old(disk.State()), now), AttachmentSession(found, true);
      var owner := Owner(reaped.1, ScopeOf(target, session, principal), id);
      (r, disk.State()) == Swept(reaped, Admitted(session, reaped.1,
        if owner.Refused? then (Refused(owner.reason), reaped.1)
        else Sent(disk.host, reaped.1, owner.value, offset, text)))
    ensures r.Refused? ==> LeftAsItWas(disk.host, old(disk.State()), disk.State(), now)
  {
    var parsed := ChunkOk(offset, text);
    :- Need(parsed, "schema");
    var tx := new Transaction(disk);
    :- tx.ReapExpired(now);
    var registration :- AttachmentSession(found, true);
    var row :- Owner(Durable(tx.Loaded(), disk.files), Scope(target, registration, principal), id);
    RefusedChunkLeavesTheIndex(disk.host, disk.State(), row, offset, text);
    r := tx.AppendUpload(row, offset, text);
  }

  lemma RefusedAppendLeavesTheIndex(host: Host, d: Durable, row: Record, offset: nat, data: Bytes)
    ensures Appended(host, d, row, offset, data).0.Refused? ==> Appended(host, d, row, offset, data).1.index == d.index
  {
  }

  lemma RefusedChunkLeavesTheIndex(host: Host, d: Durable, row: Record, offset: nat, text: string)
    requires Base64.WellShaped(text)
    ensures Sent(host, d, row, offset, text).0.Refused? ==> Sent(host, d, row, offset, text).1.index == d.index
  {
    RefusedAppendLeavesTheIndex(host, d, row, offset, Base64.Decode(text));
  }

  method CancelAttachmentUpload(
    disk: Disk, found: Option<Session>, target: Key, principal: Key, id: Uuid, now: nat) returns (r: Result<Uuid>)
    requires disk.Valid()
    modifies disk
    ensures disk.Valid() && old(disk.trace) <= disk.trace
    ensures
      var reaped, session := Reaped(disk.host, old(disk.State()), now), AttachmentSession(found, true);
      (r, disk.State()) == Swept(reaped, Admitted(session, reaped.1,
        Cancelled(disk.host, reaped.1, ScopeOf(target, session, principal), id, now)))
    ensures r.Refused? ==> LeftAsItWas(disk.host, old(disk.State()), disk.State(), now)
  {
    var tx := new Transaction(disk);
    :- tx.ReapExpired(now);
    var registration :- AttachmentSession(found, true);
    r := tx.CancelUpload(Scope(target, registration, principal), id, now);
  }

  /** Any one transaction of anybody, on any input. */
  method AnyTransaction(disk: Disk)
    requires disk.Valid()
    modifies disk
    ensures disk.Valid() && old(disk.trace) <= disk.trace
  {
    var tx := new Transaction(disk);
    var now: nat := *;
    var reaped := tx.ReapExpired(now);
    if reaped.Fail? {
      return;
    }
    var scope: Scope := *;
    var id: Uuid := *;
    var aborted: bool := *;
    var bytes: Bytes := *;
    var kind: nat := *;
    if kind == 0 {
      var media: Media := *;
      var size: nat := *;
      var digest: Digest := *;
      if 0 < size <= IMAGE_BYTES {
        var r := tx.BeginUpload(scope, id, media, size, digest, now);
      }
    } else if kind == 1 {
      var offset: nat := *;
      var text: string := *;
      var row := Owner(Durable(tx.Loaded(), disk.files), scope, id);
      if row.Ok? && ChunkOk(offset, text) {
        var r := tx.AppendUpload(row.value, offset, text);
      }
    } else if kind == 2 {
      var image: Image := *;
      var r := tx.CommitFinalized(scope, id, bytes, image, aborted, now);
    } else if kind == 3 {
      var refs: seq<Reference> := *;
      if ReferencesOk(refs) {
        var accept: Result<Uuid> := *;
        var r, called := tx.PinMessageImages(scope, id, refs, aborted, accept);
      }
    } else if kind == 4 {
      var source: Endpoint := *;
      var destination: Endpoint := *;
      var r := tx.InheritPins(source, destination, aborted);
    } else {
      var r := tx.CancelUpload(scope, id, now);
    }
  }

  /** Whatever others do while this one does not hold the lock. The contract also admits transactions cut short. */
  method OtherTransactions(disk: Disk)
    requires disk.Valid()
    modifies disk
    ensures disk.Valid() && old(disk.trace) <= disk.trace
  {
    var count: nat := *;
    while count > 0
      invariant disk.Valid() && old(disk.trace) <= disk.trace
    {
      AnyTransaction(disk);
      count := count - 1;
    }
  }

  /** The row is verified as `ref`, which describes `bytes`, and its file holds exactly them. */
  ghost predicate CommittedAs(d: Durable, scope: Scope, id: Uuid, bytes: Bytes, image: Image, ref: Reference) {
    && d.Row(id).Some?
    && var row := d.Row(id).value;
    && row.scope == scope && row.phase.Verified? && row.reference == Some(ref)
    && d.HasFile(row) && d.files[PathOf(row)] == bytes
    && ref == Reference(id, row.digest, image.media, |bytes|, image.width, image.height)
  }

  /**
   What a reference made from `bytes` says: the row is committed as it describes, and its digest is that of `bytes`
   if and only if the row kept the digest it was read under.
   */
  ghost predicate MadeFrom(
    host: Host, read: Durable, after: Durable, scope: Scope, id: Uuid, bytes: Bytes, image: Image, ref: Reference)
  {
    && read.Row(id).Some?
    && CommittedAs(after, scope, id, bytes, image, ref)
    && (ref.digest == host.sha256(bytes) <==> ref.digest == read.Row(id).value.digest)
  }

  /** The state some transaction found, swept at one of these times and otherwise as it was. */
  ghost predicate OnlySwept(host: Host, found: Durable, after: Durable, times: set<nat>) {
    exists now :: now in times && after == Reaped(host, found, now).1
  }

  /** The first half of finalize, under the lock. */
  method ReadForFinalize(disk: Disk, found: Option<Session>, target: Key, principal: Key, id: Uuid, now: nat)
    returns (r: Result<Prepared>)
    requires disk.Valid()
    modifies disk
    ensures disk.Valid() && old(disk.trace) <= disk.trace
    ensures var reaped, session := Reaped(disk.host, old(disk.State()), now), AttachmentSession(found, true);
      && disk.State() == reaped.1
      && r == if reaped.0.Fail? then Refused(reaped.0.reason)
              else if session.Refused? then Refused(session.reason)
              else FinalizeRead(disk.host, reaped.1, ScopeOf(target, session, principal), id)
  {
    var tx := new Transaction(disk);
    :- tx.ReapExpired(now);
    var registration :- AttachmentSession(found, true);
    r := FinalizeRead(disk.host, Durable(tx.Loaded(), disk.files), Scope(target, registration, principal), id);
  }

  lemma RefusedCommitChangesNothing(
    host: Host, d: Durable, scope: Scope, id: Uuid, prepared: Bytes, image: Image, aborted: bool, now: nat)
    ensures FinalizeCommit(host, d, scope, id, prepared, image, aborted, now).0.Refused? ==>
              FinalizeCommit(host, d, scope, id, prepared, image, aborted, now).1 == d
  {
  }

  /** The second half, under the lock again, on whatever store and session have become. */
  method CommitPrepared(
    disk: Disk, found: Option<Session>, target: Key, principal: Key, id: Uuid, bytes: Bytes, image: Image,
    aborted: bool, now: nat, ghost read: Durable, ghost readScope: Scope)
    returns (r: Result<Reference>)
    requires disk.Valid() && Sound(disk.host, read)
    requires FinalizeRead(disk.host, read, readScope, id) == Ok(Decode(bytes))
    modifies disk
    ensures disk.Valid() && old(disk.trace) <= disk.trace
    ensures r.Ok? ==>
      && AttachmentSession(found, true).Ok?
      && MadeFrom(disk.host, read, disk.State(), ScopeOf(target, AttachmentSession(found, true), principal), id, bytes,
                  image, r.value)
    ensures r.Refused? ==> disk.State() == Reaped(disk.host, old(disk.State()), now).1
  {
    var tx := new Transaction(disk);
    :- tx.ReapExpired(now);
    tx.Here();
    ghost var d := disk.State();
    var registration :- AttachmentSession(found, true);
    var scope := Scope(target, registration, principal);
    r := tx.CommitFinalized(scope, id, bytes, image, aborted, now);
    if r.Ok? {
      CommitIsCommittedAs(disk.host, read, d, readScope, scope, id, bytes, image, aborted, now);
    } else {
      RefusedCommitChangesNothing(disk.host, d, scope, id, bytes, image, aborted, now);
    }
  }

  lemma CommitIsCommittedAs(
    host: Host, d0: Durable, d1: Durable, readScope: Scope, scope: Scope, id: Uuid, bytes: Bytes, image: Image,
    aborted: bool, now: nat)
    requires Sound(host, d0) && Sound(host, d1)
    requires FinalizeRead(host, d0, readScope, id) == Ok(Decode(bytes))
    requires FinalizeCommit(host, d1, scope, id, bytes, image, aborted, now).0.Ok?
    ensures var (r, d') := FinalizeCommit(host, d1, scope, id, bytes, image, aborted, now);
      MadeFrom(host, d0, d', scope, id, bytes, image, r.value)
  {
    CommittedRow(host, d1, scope, id, bytes, image, aborted, now);
    CommitDescribesTheDecodedBytes(host, d0, d1, readScope, scope, id, bytes, image, aborted, now);
  }

  /** A transaction with an empty body: the sweep is all it does. */
  method SweepOnly(disk: Disk, now: nat) returns (check: Check)
    requires disk.Valid()
    modifies disk
    ensures disk.Valid() && old(disk.trace) <= disk.trace
    ensures (check, disk.State()) == Reaped(disk.host, old(disk.State()), now)
  {
    var tx := new Transaction(disk);
    check := tx.ReapExpired(now);
  }

  /** What the four transactions of one finalize may see as the time. */
  datatype Clock = Clock(admit: nat, read: nat, commit: nat, failed: nat) {
    function Times(): set<nat> {
      {admit, read, commit, failed}
    }
  }

  /** The first two transactions: swept to be admitted, and the read, with the lock released in between. */
  method AdmitAndRead(disk: Disk, found: Option<Session>, target: Key, principal: Key, id: Uuid, clock: Clock)
    returns (prepared: Result<Prepared>, ghost last: Durable)
    requires disk.Valid()
    modifies disk
    ensures disk.Valid() && old(disk.trace) <= disk.trace && last in disk.trace
    ensures prepared.Ok? ==>
      && AttachmentSession(found, true).Ok?
      && prepared
         == FinalizeRead(disk.host, disk.State(), ScopeOf(target, AttachmentSession(found, true), principal), id)
    ensures OnlySwept(disk.host, last, disk.State(), clock.Times())
  {
    last := disk.State();
    var admitted := SweepOnly(disk, clock.admit);
    if admitted.Fail? {
      return Refused(admitted.reason), last;
    }
    OtherTransactions(disk);
    last := disk.State();
    prepared := ReadForFinalize(disk, found, target, principal, id, clock.read);
  }

  /** From the end of the first half on, with the lock released in between. */
  method DecodeAndCommit(
    disk: Disk, found: Option<Session>, target: Key, principal: Key, id: Uuid, bytes: Bytes, decoded: Result<Image>,
    aborted: bool, clock: Clock, ghost read: Durable, ghost readScope: Scope)
    returns (r: Result<Reference>, ghost last: Durable)
    requires disk.Valid() && Sound(disk.host, read)
    requires FinalizeRead(disk.host, read, readScope, id) == Ok(Decode(bytes))
    modifies disk
    ensures disk.Valid() && old(disk.trace) <= disk.trace && last in disk.trace
    ensures r.Ok? ==>
      && decoded.Ok? && AttachmentSession(found, true).Ok?
      && MadeFrom(disk.host, read, disk.State(), ScopeOf(target, AttachmentSession(found, true), principal), id, bytes,
                  decoded.value, r.value)
    ensures r.Refused? ==> OnlySwept(disk.host, last, disk.State(), clock.Times())
  {
    OtherTransactions(disk);
    last := disk.State();
    if decoded.Refused? {
      // The failure is recorded in a transaction of its own.
      var _ := SweepOnly(disk, clock.failed);
      return Refused(decoded.reason), last;
    }
    r := CommitPrepared(disk, found, target, principal, id, bytes, decoded.value, aborted, clock.commit, read,
                        readScope);
  }

  /**
   Sweep to be admitted; read under the lock; decode without it; re-check and commit under it. Between any two of
   these others do what they like. A reference made by this call carries exactly the bytes it decoded; their digest
   too, if and only if the row kept the digest it was read under. A refused call leaves what the last of its
   transactions found, swept: `found` is the session each half sees, `last` the state that transaction started
   from, `read` the state the bytes were read from.
   */
  method FinalizeAttachmentUpload(
    disk: Disk, found: Option<Session>, foundAgain: Option<Session>, target: Key, principal: Key, id: Uuid,
    decoded: Result<Image>, aborted: bool, clock: Clock)
    returns (r: Result<Reference>, ghost read: Durable, ghost last: Durable)
    requires disk.Valid()
    modifies disk
    ensures disk.Valid() && old(disk.trace) <= disk.trace && read in disk.trace && last in disk.trace
    ensures r.Ok? ==>
      var session := AttachmentSession(found, true);
      && session.Ok?
      && match FinalizeRead(disk.host, read, ScopeOf(target, session, principal), id)
         case Ok(Already(ref)) => r.value == ref && disk.State() == read
         case Ok(Decode(bytes)) =>
           && decoded.Ok? && AttachmentSession(foundAgain, true).Ok?
           && MadeFrom(disk.host, read, disk.State(), ScopeOf(target, AttachmentSession(foundAgain, true), principal),
                       id, bytes, decoded.value, r.value)
         case Refused(_) => false
    ensures r.Refused? ==> OnlySwept(disk.host, last, disk.State(), clock.Times())
  {
    var prepared: Result<Prepared>;
    prepared, last := AdmitAndRead(disk, found, target, principal, id, clock);
    read := disk.State();
    if prepared.Refused? {
      return Refused(prepared.reason), read, last;
    }
    if prepared.value.Already? {
      return Ok(prepared.value.reference), read, last;
    }
    EveryStateIsSound(disk.host, disk.trace, disk.steps, |disk.trace| - 1);
    r, last := DecodeAndCommit(disk, foundAgain, target, principal, id, prepared.value.bytes, decoded, aborted, clock,
                               read, ScopeOf(target, AttachmentSession(found, true), principal));
  }

  // ---- What that means on a disk ----------------------------------------------------------------

  /** At every durable state a disk has been in, crashes included, it is sound and within the host quota. */
  lemma EveryCrashPoint(disk: Disk, i: nat)
    requires disk.Valid() && i < |disk.trace|
    ensures Sound(disk.host, disk.trace[i])
    ensures FileBytes(disk.trace[i].files, disk.trace[i].files.Keys) <= HOST_BYTES
  {
    EveryStateIsSound(disk.host, disk.trace, disk.steps, i);
    DiskUseBounded(disk.host, disk.trace, disk.steps, i);
  }

  /** A message pinned at any earlier state resolves now to the images it resolved to then. */
  lemma PinnedThenIsPinnedNow(disk: Disk, i: nat, messageId: Uuid, target: Key, registration: Uuid)
    requires disk.Valid() && i < |disk.trace|
    requires FindLivePin(disk.trace[i].index.pins, messageId, target, registration).Some?
    ensures var refs := FindLivePin(disk.trace[i].index.pins, messageId, target, registration).value.references;
      var now := Resolved(disk.host, disk.State(), target, registration, messageId, refs);
      now.Ok? && now == Resolved(disk.host, disk.trace[i], target, registration, messageId, refs)
  {
    PinnedMessageResolvesForever(
      disk.host, disk.trace, disk.steps, i, |disk.trace| - 1, messageId, target, registration);
  }
}
