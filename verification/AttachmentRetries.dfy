/** Asking again: every operation sweeps first, so what a repeat answers depends on what has expired by then. */
module AttachmentRetries {
  import opened Prelude
  import opened AttachmentRecords
  import opened AttachmentMachine
  import opened AttachmentInvariant
  import opened AttachmentSpec
  import opened AttachmentPromises
  import opened AttachmentTombstones

  /** `begin` and `cancel` as they run: the sweep of the moment, then the body. */
  function SweptBegin(
    host: Host, d: Durable, scope: Scope, id: Uuid, media: Media, bytes: nat, digest: Digest, now: nat)
    : (Result<Receipt>, Durable)
  {
    var reaped := Reaped(host, d, now);
    Swept(reaped, Begun(host, reaped.1, scope, id, media, bytes, digest, now))
  }

  function SweptCancel(host: Host, d: Durable, scope: Scope, id: Uuid, now: nat): (Result<Uuid>, Durable) {
    var reaped := Reaped(host, d, now);
    Swept(reaped, Cancelled(host, reaped.1, scope, id, now))
  }

  function SweptAppend(host: Host, d: Durable, scope: Scope, id: Uuid, offset: nat, data: Bytes, now: nat)
    : (Result<Receipt>, Durable)
  {
    var reaped := Reaped(host, d, now);
    var owner := Owner(reaped.1, scope, id);
    Swept(reaped, if owner.Refused? then (Refused(owner.reason), reaped.1)
                  else Appended(host, reaped.1, owner.value, offset, data))
  }

  function SweptCommit(
    host: Host, d: Durable, scope: Scope, id: Uuid, prepared: Bytes, image: Image, now: nat)
    : (Result<Reference>, Durable)
  {
    var reaped := Reaped(host, d, now);
    Swept(reaped, FinalizeCommit(host, reaped.1, scope, id, prepared, image, false, now))
  }

  lemma {:induction false} WithoutNothing(rs: seq<Record>)
    ensures Without(rs, {}) == rs
  {
    if rs != [] {
      WithoutNothing(rs[1..]);
    }
  }

  /** A sweep that is not refused leaves exactly the rows and tombstones that have not expired. */
  lemma SweepLeaves(host: Host, d: Durable, now: nat)
    requires Reaped(host, d, now).0.Pass?
    ensures var ids := ExpiredIds(d.index, now);
      Reaped(host, d, now).1 == Durable(
        Store(Without(d.index.records, ids), d.index.pins, LiveTombstones(d.index.cancelled, now)),
        d.files - PathsOf(d.index.records, ids))
  {
    WithoutNothing(d.index.records);
    if ExpiredIds(d.index, now) == {} {
      assert PathsOf(d.index.records, {}) == {};
      assert d.files - {} == d.files;
    }
  }

  // ---- Beginning again --------------------------------------------------------------------------

  /** After an accepted begin the row is there under its declaration, alone with its id, and so is its file. */
  lemma BegunRow(
    host: Host, d: Durable, scope: Scope, id: Uuid, media: Media, bytes: nat, digest: Digest, now: nat)
    requires Distinct(d.index.records) && Begun(host, d, scope, id, media, bytes, digest, now).0.Ok?
    ensures var (r, d') := Begun(host, d, scope, id, media, bytes, digest, now);
      && Distinct(d'.index.records) && d'.Row(id).Some?
      && var row := d'.Row(id).value;
      && r == Ok(UploadReceipt(row)) && d'.HasFile(row)
      && row.scope == scope && row.media == media && row.bytes == bytes && row.digest == digest
      && FindTombstone(d'.index.cancelled, id).None?
  {
    if d.Row(id).None? {
      var row := Record(id, scope, media, bytes, digest, 0, Uploading, now + UPLOAD_TTL_MS, None);
      FindPush(d.index.records, row, id);
      PushDistinct(d.index.records, row);
    }
  }

  /** A row that has not expired survives the sweep as it is, with its file if it has one. */
  lemma SurvivesTheSweep(host: Host, d: Durable, id: Uuid, now: nat)
    requires Distinct(d.index.records) && d.Row(id).Some?
    requires Reaped(host, d, now).0.Pass?
    ensures var swept := Reaped(host, d, now).1;
      && (FindTombstone(d.index.cancelled, id).None? ==> FindTombstone(swept.index.cancelled, id).None?)
      && if Expired(d.index, d.Row(id).value, now) then swept.Row(id).None?
         else swept.Row(id) == d.Row(id) && (swept.HasFile(d.Row(id).value) <==> d.HasFile(d.Row(id).value))
  {
    var ids := ExpiredIds(d.index, now);
    SweepLeaves(host, d, now);
    ExpiredRows(d, now, id);
    FindWithout(d.index.records, ids, id);
    LivingTombstones(d.index.cancelled, now);
  }

  /**
   Beginning again with the same declaration, at any later time: the same receipt, and nothing changed beyond the
   sweep, exactly while the row has not expired and the sweep itself is not refused. After that it is another
   upload under the same id.
   */
  lemma BeginIsIdempotent(
    host: Host, d: Durable, scope: Scope, id: Uuid, media: Media, bytes: nat, digest: Digest, now: nat, later: nat)
    requires Sound(host, d) && Begun(host, d, scope, id, media, bytes, digest, now).0.Ok?
    ensures var (r, d') := Begun(host, d, scope, id, media, bytes, digest, now);
      var sweep := Reaped(host, d', later);
      var again := SweptBegin(host, d', scope, id, media, bytes, digest, later);
      && d'.Row(id).Some?
      && (again.0 == r <==> sweep.0.Pass? && !Expired(d'.index, d'.Row(id).value, later))
      && (again.0 == r ==> again.1 == sweep.1)
  {
    BegunRow(host, d, scope, id, media, bytes, digest, now);
    var d' := Begun(host, d, scope, id, media, bytes, digest, now).1;
    if Reaped(host, d', later).0.Pass? {
      SurvivesTheSweep(host, d', id, later);
    }
  }

  /** What a begin for this row's own declaration answers while there is no tombstone: the row as it is. */
  lemma BegunOverRow(host: Host, d: Durable, id: Uuid, now: nat)
    requires d.Row(id).Some? && FindTombstone(d.index.cancelled, id).None?
    ensures var row := d.Row(id).value;
      var (r, d') := Begun(host, d, row.scope, id, row.media, row.bytes, row.digest, now);
      && d'.index == d.index
      && (r == Ok(UploadReceipt(row)) <==> d.HasFile(row) || (row.received == 0 && row.phase.Uploading?))
  {
  }

  /** What a begin answers for an id without a row: nothing that an earlier upload was answered. */
  lemma BegunOverNothing(
    host: Host, d: Durable, scope: Scope, id: Uuid, media: Media, bytes: nat, digest: Digest, now: nat)
    requires d.Row(id).None?
    ensures var r := Begun(host, d, scope, id, media, bytes, digest, now).0;
      r.Ok? ==> r.value.expiresAt == now + UPLOAD_TTL_MS
  {
  }

  /** Beginning again over a row that has its own declaration. */
  lemma BeginOverLivingRow(host: Host, d: Durable, id: Uuid, later: nat)
    requires Sound(host, d) && LiveOrCancelled(d) && d.Row(id).Some?
    ensures var row, sweep := d.Row(id).value, Reaped(host, d, later);
      var again := SweptBegin(host, d, row.scope, id, row.media, row.bytes, row.digest, later);
      && (again.0 == Ok(UploadReceipt(row)) <==>
            && sweep.0.Pass? && !Expired(d.index, row, later)
            && (d.HasFile(row) || (row.received == 0 && row.phase.Uploading?)))
      && (again.0 == Ok(UploadReceipt(row)) ==> again.1.index == sweep.1.index)
  {
    var row, sweep := d.Row(id).value, Reaped(host, d, later);
    if sweep.0.Pass? {
      SurvivesTheSweep(host, d, id, later);
      if Expired(d.index, row, later) {
        BegunOverNothing(host, sweep.1, row.scope, id, row.media, row.bytes, row.digest, later);
      } else {
        BegunOverRow(host, sweep.1, id, later);
      }
    }
  }

  /**
   The same after anything else has happened: at any later state of a run in which the row is still there, beginning
   again answers the row as it is by then, of the same declaration and no less received, and changes nothing in the
   index beyond the sweep, if and only if the sweep passes, the row has not expired and its file is there or was never
   written to.
   */
  lemma BegunStaysBegun(
    host: Host, states: seq<Durable>, steps: seq<Step>, h: nat, i: nat, j: nat,
    scope: Scope, id: Uuid, media: Media, bytes: nat, digest: Digest, now: nat, later: nat)
    requires IsRun(host, states, steps) && h <= i <= j && Lives(states, id, i, j)
    requires Begun(host, states[h], scope, id, media, bytes, digest, now).0.Ok?
    requires states[i] == Begun(host, states[h], scope, id, media, bytes, digest, now).1
    ensures var r := Begun(host, states[h], scope, id, media, bytes, digest, now).0.value;
      var row, sweep := states[j].Row(id).value, Reaped(host, states[j], later);
      var again := SweptBegin(host, states[j], scope, id, media, bytes, digest, later);
      && r.uploadId == row.id && r.totalBytes == row.bytes && r.receivedBytes <= row.received
      && (again.0 == Ok(UploadReceipt(row)) <==>
            && sweep.0.Pass? && !Expired(states[j].index, row, later)
            && (states[j].HasFile(row) || (row.received == 0 && row.phase.Uploading?)))
      && (again.0 == Ok(UploadReceipt(row)) ==> again.1.index == sweep.1.index)
  {
    EveryStateIsSound(host, states, steps, h);
    EveryStateIsSound(host, states, steps, j);
    EveryIdIsLiveOrCancelled(host, states, steps, j);
    BegunRow(host, states[h], scope, id, media, bytes, digest, now);
    LivingRowMovesForward(host, states, steps, i, j, id);
    BeginOverLivingRow(host, states[j], id, later);
  }

  // ---- Cancelling -------------------------------------------------------------------------------

  /** The refusals of beginning a new upload are not the one for a cancelled id. */
  lemma NotTheCancelRefusal(rs: seq<Record>, target: Key, bytes: nat)
    ensures Quota(rs, target, bytes).Fail? ==> Quota(rs, target, bytes).reason != "attachment-upload-cancelled"
    ensures "attachment-index-quota" != "attachment-upload-cancelled"
  {
    assert |"attachment-upload-cancelled"| == 27;
    assert |"attachment-record-quota"| == 23 && |"attachment-disk-quota"| == 21 && |"attachment-upload-quota"| == 23;
    assert |"attachment-index-quota"| == 22;
  }

  /** After a first cancel the sweep keeps the tombstone exactly until it expires, and never brings the row back. */
  lemma SweepAfterCancel(host: Host, d: Durable, scope: Scope, id: Uuid, now: nat, later: nat)
    requires Cancelled(host, d, scope, id, now).0.Ok? && FindTombstone(d.index.cancelled, id).None?
    requires Reaped(host, Cancelled(host, d, scope, id, now).1, later).0.Pass?
    ensures var swept := Reaped(host, Cancelled(host, d, scope, id, now).1, later).1;
      && swept.Row(id).None?
      && (FindTombstone(swept.index.cancelled, id).Some? <==> later < now + UPLOAD_TTL_MS)
      && (FindTombstone(swept.index.cancelled, id).Some? ==>
            FindTombstone(swept.index.cancelled, id).value.scope == scope)
  {
    var d' := Cancelled(host, d, scope, id, now).1;
    CancelLeaves(host, d, scope, id, now);
    SweepLeaves(host, d', later);
    FindWithout(d'.index.records, ExpiredIds(d'.index, later), id);
    LivingTombstones(d'.index.cancelled, later);
    var t := Tombstone(id, scope, now + UPLOAD_TTL_MS);
    assert t in d'.index.cancelled;
    assert forall x :: x in d'.index.cancelled && x.id == id ==> x == t;
  }

  /**
   A cancelled upload stays cancelled exactly while its tombstone lives, at any later time: until then beginning is
   refused for that reason and cancelling again is a no-op, and from then on neither.
   */
  lemma CancelIsFinal(
    host: Host, d: Durable, scope: Scope, id: Uuid, now: nat, later: nat, media: Media, bytes: nat, digest: Digest)
    requires Cancelled(host, d, scope, id, now).0.Ok? && FindTombstone(d.index.cancelled, id).None?
    ensures var d' := Cancelled(host, d, scope, id, now).1;
      var sweep := Reaped(host, d', later);
      var begun := SweptBegin(host, d', scope, id, media, bytes, digest, later);
      var cancelled := SweptCancel(host, d', scope, id, later);
      var still := sweep.0.Pass? && later < now + UPLOAD_TTL_MS;
      && (begun == (Refused("attachment-upload-cancelled"), sweep.1) <==> still)
      && (cancelled == (Ok(id), sweep.1) <==> still)
  {
    var sweep := Reaped(host, Cancelled(host, d, scope, id, now).1, later);
    NotTheCancelRefusal(sweep.1.index.records, scope.target, bytes);
    if sweep.0.Pass? {
      SweepAfterCancel(host, d, scope, id, now, later);
    }
  }

  /** A tombstone that is there answers for its id exactly until it expires, and then nothing does. */
  lemma SweepOfTombstone(host: Host, d: Durable, t: Tombstone, later: nat)
    requires LiveOrCancelled(d) && t in d.index.cancelled && Reaped(host, d, later).0.Pass?
    ensures var swept := Reaped(host, d, later).1;
      && swept.Row(t.id).None?
      && FindTombstone(swept.index.cancelled, t.id) == if later < t.expiresAt then Some(t) else None
  {
    SweepLeaves(host, d, later);
    TombstoneMember(d.index.cancelled, t);
    FindLive(d.index.cancelled, later, t.id);
    FindWithout(d.index.records, ExpiredIds(d.index, later), t.id);
  }

  lemma TombstoneIsFinal(
    host: Host, d: Durable, t: Tombstone, later: nat, media: Media, bytes: nat, digest: Digest)
    requires LiveOrCancelled(d) && t in d.index.cancelled
    ensures var sweep := Reaped(host, d, later);
      var begun := SweptBegin(host, d, t.scope, t.id, media, bytes, digest, later);
      var cancelled := SweptCancel(host, d, t.scope, t.id, later);
      var still := sweep.0.Pass? && later < t.expiresAt;
      && (begun == (Refused("attachment-upload-cancelled"), sweep.1) <==> still)
      && (cancelled == (Ok(t.id), sweep.1) <==> still)
  {
    var sweep := Reaped(host, d, later);
    NotTheCancelRefusal(sweep.1.index.records, t.scope.target, bytes);
    if sweep.0.Pass? {
      SweepOfTombstone(host, d, t, later);
    }
  }

  /** An accepted cancel, the first or a repeated one, leaves one tombstone of its scope. */
  lemma CancelledTombstone(host: Host, d: Durable, scope: Scope, id: Uuid, now: nat)
    requires Cancelled(host, d, scope, id, now).0.Ok?
    ensures var found := FindTombstone(Cancelled(host, d, scope, id, now).1.index.cancelled, id);
      && found.Some? && found.value.scope == scope
      && (FindTombstone(d.index.cancelled, id).None? ==> found.value.expiresAt == now + UPLOAD_TTL_MS)
  {
    if FindTombstone(d.index.cancelled, id).None? {
      FindPushed(d.index.cancelled, Tombstone(id, scope, now + UPLOAD_TTL_MS), id);
    }
  }

  /**
   The same after anything else has happened: while no sweep of the run has come at or after its expiry, the tombstone
   a cancel left is there at every later state, and decides as `CancelIsFinal` says.
   */
  lemma CancelledStaysCancelled(
    host: Host, states: seq<Durable>, steps: seq<Step>, h: nat, i: nat, j: nat,
    scope: Scope, id: Uuid, now: nat, expiresAt: nat, later: nat, media: Media, bytes: nat, digest: Digest)
    requires IsRun(host, states, steps) && h <= i <= j < |states|
    requires Cancelled(host, states[h], scope, id, now).0.Ok?
    requires states[i] == Cancelled(host, states[h], scope, id, now).1
    requires var first := FindTombstone(states[h].index.cancelled, id);
      expiresAt == if first.Some? then first.value.expiresAt else now + UPLOAD_TTL_MS
    requires SweptBefore(steps, i, j, expiresAt)
    ensures var sweep := Reaped(host, states[j], later);
      var begun := SweptBegin(host, states[j], scope, id, media, bytes, digest, later);
      var cancelled := SweptCancel(host, states[j], scope, id, later);
      var still := sweep.0.Pass? && later < expiresAt;
      && (begun == (Refused("attachment-upload-cancelled"), sweep.1) <==> still)
      && (cancelled == (Ok(id), sweep.1) <==> still)
  {
    CancelledTombstone(host, states[h], scope, id, now);
    var t := FindTombstone(states[i].index.cancelled, id).value;
    TombstoneStays(host, states, steps, i, j, t);
    EveryIdIsLiveOrCancelled(host, states, steps, j);
    TombstoneIsFinal(host, states[j], t, later, media, bytes, digest);
  }

  // ---- After expiry -----------------------------------------------------------------------------

  /** Indexes of at most one row, no pin and this many tombstones fit their file. */
  ghost predicate SmallIndexesFit(host: Host, tombstones: nat) {
    forall store: Store :: |store.records| <= 1 && store.pins == [] && |store.cancelled| <= tombstones ==>
                             host.indexBytes(store) <= STORE_BYTES
  }

  /** A store with one row and its file. */
  function Alone(row: Record, content: Bytes): Durable {
    Durable(Store([row], [], []), map[PathOf(row) := content])
  }

  /** While its only row has not expired, a sweep changes nothing; once it has, nothing is left. */
  lemma SweepOfOne(host: Host, row: Record, content: Bytes, now: nat)
    requires !row.phase.Retained? && host.indexBytes(EMPTY) <= STORE_BYTES
    ensures Reaped(host, Alone(row, content), now)
         == (Pass, if row.expiresAt <= now then START else Alone(row, content))
  {
    var d := Alone(row, content);
    assert row in d.index.records;
    if row.expiresAt <= now {
      assert Expired(d.index, row, now) && row.id in ExpiredIds(d.index, now);
      assert Without([row], ExpiredIds(d.index, now)) == [];
      assert d.files - PathsOf(d.index.records, ExpiredIds(d.index, now)) == map[];
    } else {
      assert ExpiredIds(d.index, now) == {};
    }
  }

  /** A row as an upload begins it, and as it is once these bytes have arrived. */
  function UploadRow(
    scope: Scope, id: Uuid, media: Media, bytes: nat, digest: Digest, received: nat, expiresAt: nat): Record
  {
    Record(id, scope, media, bytes, digest, received, Uploading, expiresAt, None)
  }

  lemma BegunIntoEmpty(
    host: Host, scope: Scope, id: Uuid, media: Media, bytes: nat, digest: Digest, now: nat)
    requires SmallIndexesFit(host, 0) && bytes <= IMAGE_BYTES
    ensures var row := UploadRow(scope, id, media, bytes, digest, 0, now + UPLOAD_TTL_MS);
      SweptBegin(host, START, scope, id, media, bytes, digest, now) == (Ok(UploadReceipt(row)), Alone(row, []))
  {
    var row := UploadRow(scope, id, media, bytes, digest, 0, now + UPLOAD_TTL_MS);
    assert ExpiredIds(EMPTY, now) == {};
    assert Reaped(host, START, now) == (Pass, START);
    assert [] + [row] == [row];
  }

  /** The repeat that is not one: begun, left to expire, begun again, and answered with another receipt. */
  lemma ExpiredUploadIsBegunAnew(
    host: Host, scope: Scope, id: Uuid, media: Media, bytes: nat, digest: Digest, now: nat, later: nat)
    requires SmallIndexesFit(host, 0) && 0 < bytes <= IMAGE_BYTES && now + UPLOAD_TTL_MS <= later
    ensures var (r, d) := SweptBegin(host, START, scope, id, media, bytes, digest, now);
      && r == Ok(Receipt(id, 0, bytes, now + UPLOAD_TTL_MS, Uploading))
      && SweptBegin(host, d, scope, id, media, bytes, digest, later).0
         == Ok(Receipt(id, 0, bytes, later + UPLOAD_TTL_MS, Uploading))
  {
    var row := UploadRow(scope, id, media, bytes, digest, 0, now + UPLOAD_TTL_MS);
    BegunIntoEmpty(host, scope, id, media, bytes, digest, now);
    BeginOverExpired(host, row, [], scope, id, media, bytes, digest, later);
    BegunIntoEmpty(host, scope, id, media, bytes, digest, later);
  }

  /** A begin under an id whose only earlier upload has expired is one into an empty store. */
  lemma BeginOverExpired(
    host: Host, stale: Record, content: Bytes, scope: Scope, id: Uuid, media: Media, bytes: nat, digest: Digest,
    now: nat)
    requires !stale.phase.Retained? && stale.expiresAt <= now && SmallIndexesFit(host, 0)
    ensures SweptBegin(host, Alone(stale, content), scope, id, media, bytes, digest, now)
         == SweptBegin(host, START, scope, id, media, bytes, digest, now)
  {
    SweepOfOne(host, stale, content, now);
    assert ExpiredIds(EMPTY, now) == {};
  }

  /** A store of which only a tombstone is left. */
  function Buried(t: Tombstone): Durable {
    Durable(Store([], [], [t]), map[])
  }

  lemma CancelledAlone(host: Host, row: Record, now: nat)
    requires SmallIndexesFit(host, 1) && row.phase.Uploading? && now < row.expiresAt
    ensures SweptCancel(host, Alone(row, []), row.scope, row.id, now)
         == (Ok(row.id), Buried(Tombstone(row.id, row.scope, now + UPLOAD_TTL_MS)))
  {
    var d := Alone(row, []);
    SweepOfOne(host, row, [], now);
    assert Owner(d, row.scope, row.id) == Ok(row);
    assert Without([row], {row.id}) == [];
    assert d.files - {PathOf(row)} == map[];
    assert [] + [Tombstone(row.id, row.scope, now + UPLOAD_TTL_MS)]
        == [Tombstone(row.id, row.scope, now + UPLOAD_TTL_MS)];
  }

  lemma SweepOfBuried(host: Host, t: Tombstone, now: nat)
    requires SmallIndexesFit(host, 0) && t.expiresAt <= now
    ensures Reaped(host, Buried(t), now) == (Pass, START)
  {
    var d := Buried(t);
    assert LiveTombstones([t], now) == [] by {
      assert [t][1..] == [];
    }
    assert ExpiredIds(d.index, now) == {};
    assert d.files - PathsOf(d.index.records, {}) == map[];
  }

  /** The cancelled id that is begun again: once the tombstone has expired nothing remembers it. */
  lemma CancelledIdIsBegunAgain(
    host: Host, scope: Scope, id: Uuid, media: Media, bytes: nat, digest: Digest, now: nat, at: nat, later: nat)
    requires SmallIndexesFit(host, 1) && 0 < bytes <= IMAGE_BYTES
    requires now <= at < now + UPLOAD_TTL_MS && at + UPLOAD_TTL_MS <= later
    ensures var begun := SweptBegin(host, START, scope, id, media, bytes, digest, now).1;
      var (r, cancelled) := SweptCancel(host, begun, scope, id, at);
      && r == Ok(id)
      && SweptBegin(host, cancelled, scope, id, media, bytes, digest, later).0
         == Ok(Receipt(id, 0, bytes, later + UPLOAD_TTL_MS, Uploading))
  {
    var row := UploadRow(scope, id, media, bytes, digest, 0, now + UPLOAD_TTL_MS);
    BegunIntoEmpty(host, scope, id, media, bytes, digest, now);
    CancelledAlone(host, row, at);
    BeginOverBuried(host, Tombstone(id, scope, at + UPLOAD_TTL_MS), scope, id, media, bytes, digest, later);
  }

  lemma BeginOverBuried(
    host: Host, t: Tombstone, scope: Scope, id: Uuid, media: Media, bytes: nat, digest: Digest, now: nat)
    requires SmallIndexesFit(host, 0) && t.expiresAt <= now && bytes <= IMAGE_BYTES
    ensures SweptBegin(host, Buried(t), scope, id, media, bytes, digest, now).0
         == Ok(Receipt(id, 0, bytes, now + UPLOAD_TTL_MS, Uploading))
  {
    SweepOfBuried(host, t, now);
    BegunIntoEmpty(host, scope, id, media, bytes, digest, now);
    assert ExpiredIds(EMPTY, now) == {};
  }

  // ---- A digest that a commit does not vouch for ------------------------------------------------

  lemma AppendedAlone(
    host: Host, scope: Scope, id: Uuid, media: Media, digest: Digest, data: Bytes, now: nat, expiresAt: nat)
    requires 0 < |data| <= CHUNK_BYTES && now < expiresAt && SmallIndexesFit(host, 0)
    ensures SweptAppend(host, Alone(UploadRow(scope, id, media, |data|, digest, 0, expiresAt), []), scope, id, 0, data,
                        now).1
         == Alone(UploadRow(scope, id, media, |data|, digest, |data|, expiresAt), data)
  {
    var row := UploadRow(scope, id, media, |data|, digest, 0, expiresAt);
    var grown := UploadRow(scope, id, media, |data|, digest, |data|, expiresAt);
    var d := Alone(row, []);
    SweepOfOne(host, row, [], now);
    assert Owner(d, scope, id) == Ok(row);
    assert d.files[PathOf(row)][..0] + data == data;
    assert Put([row], grown) == [grown];
    assert d.files[PathOf(row) := data] == map[PathOf(grown) := data];
  }

  /** A whole upload in one chunk. */
  function Uploaded(
    host: Host, d: Durable, scope: Scope, id: Uuid, media: Media, digest: Digest, data: Bytes, now: nat): Durable
  {
    var begun := SweptBegin(host, d, scope, id, media, |data|, digest, now).1;
    SweptAppend(host, begun, scope, id, 0, data, now).1
  }

  lemma UploadedIntoEmpty(
    host: Host, scope: Scope, id: Uuid, media: Media, digest: Digest, data: Bytes, now: nat)
    requires 0 < |data| <= CHUNK_BYTES && SmallIndexesFit(host, 0)
    ensures Uploaded(host, START, scope, id, media, digest, data, now)
         == Alone(UploadRow(scope, id, media, |data|, digest, |data|, now + UPLOAD_TTL_MS), data)
  {
    BegunIntoEmpty(host, scope, id, media, |data|, digest, now);
    AppendedAlone(host, scope, id, media, digest, data, now, now + UPLOAD_TTL_MS);
  }

  /** The times of two uploads under one id, and what they carry. */
  datatype Reuse = Reuse(
    scope: Scope, id: Uuid, other: Digest, data: Bytes, image: Image, now: nat, read: nat, again: nat, commit: nat)
  {
    /** The reference the commit makes. */
    function Committed(): Reference {
      Reference(id, other, image.media, |data|, image.width, image.height)
    }

    /** Any image sent in one chunk; read before its row expires; begun again after that, and then committed. */
    predicate Ok() {
      && 0 < |data| <= CHUNK_BYTES && ReferenceOk(Committed())
      && now <= read < now + UPLOAD_TTL_MS <= again <= commit < again + UPLOAD_TTL_MS
    }

    function First(host: Host): Durable {
      Uploaded(host, START, scope, id, image.media, host.sha256(data), data, now)
    }

    function Second(host: Host, first: Durable): Durable {
      Uploaded(host, first, scope, id, image.media, other, data, again)
    }

    function FirstRow(host: Host): Record {
      UploadRow(scope, id, image.media, |data|, host.sha256(data), |data|, now + UPLOAD_TTL_MS)
    }

    function SecondRow(): Record {
      UploadRow(scope, id, image.media, |data|, other, |data|, again + UPLOAD_TTL_MS)
    }
  }

  lemma FirstUpload(host: Host, u: Reuse, first: Durable)
    requires u.Ok() && SmallIndexesFit(host, 0) && first == u.First(host)
    ensures first == Alone(u.FirstRow(host), u.data)
  {
    UploadedIntoEmpty(host, u.scope, u.id, u.image.media, host.sha256(u.data), u.data, u.now);
  }

  lemma SecondOverExpired(host: Host, u: Reuse)
    requires u.Ok() && SmallIndexesFit(host, 0)
    ensures u.Second(host, Alone(u.FirstRow(host), u.data)) == u.Second(host, START)
  {
    BeginOverExpired(host, u.FirstRow(host), u.data, u.scope, u.id, u.image.media, |u.data|, u.other, u.again);
  }

  lemma SecondIntoEmpty(host: Host, u: Reuse)
    requires u.Ok() && SmallIndexesFit(host, 0)
    ensures u.Second(host, START) == Alone(u.SecondRow(), u.data)
  {
    UploadedIntoEmpty(host, u.scope, u.id, u.image.media, u.other, u.data, u.again);
  }

  /** An upload under an id whose only earlier upload has expired is one into an empty store. */
  lemma SecondUpload(host: Host, u: Reuse, first: Durable, second: Durable)
    requires u.Ok() && SmallIndexesFit(host, 0) && first == Alone(u.FirstRow(host), u.data)
    requires second == u.Second(host, first)
    ensures second == Alone(u.SecondRow(), u.data)
  {
    SecondOverExpired(host, u);
    SecondIntoEmpty(host, u);
  }

  /** The state the first upload leaves is read for the decoder at any time before its row expires. */
  lemma FirstIsRead(host: Host, u: Reuse, first: Durable)
    requires u.Ok() && SmallIndexesFit(host, 0) && first == Alone(u.FirstRow(host), u.data)
    ensures FinalizeRead(host, Reaped(host, first, u.read).1, u.scope, u.id) == Ok(Decode(u.data))
  {
    SweepOfOne(host, u.FirstRow(host), u.data, u.read);
    assert Owner(first, u.scope, u.id) == Ok(u.FirstRow(host));
  }

  lemma SecondIsCommitted(host: Host, u: Reuse, second: Durable)
    requires u.Ok() && SmallIndexesFit(host, 0) && second == Alone(u.SecondRow(), u.data)
    ensures SweptCommit(host, second, u.scope, u.id, u.data, u.image, u.commit).0 == Ok(u.Committed())
  {
    SweepOfOne(host, u.SecondRow(), u.data, u.commit);
    assert Owner(second, u.scope, u.id) == Ok(u.SecondRow());
  }

  /**
   The commit compares bytes, not the digest. Take any image sent in one chunk, read for the decoder at any time before
   its row expires, however shortly. If the row expires while it is decoded, the id is begun again under any other
   digest and filled with the same bytes, then the commit of the first decode records that other digest.
   */
  lemma ReusedIdCommitsAnotherDigest(host: Host, u: Reuse, first: Durable, second: Durable)
    requires u.Ok() && SmallIndexesFit(host, 0) && first == u.First(host) && second == u.Second(host, first)
    ensures FinalizeRead(host, Reaped(host, first, u.read).1, u.scope, u.id) == Ok(Decode(u.data))
    ensures SweptCommit(host, second, u.scope, u.id, u.data, u.image, u.commit).0 == Ok(u.Committed())
  {
    FirstUpload(host, u, first);
    FirstIsRead(host, u, first);
    SecondUpload(host, u, first, second);
    SecondIsCommitted(host, u, second);
  }
}
