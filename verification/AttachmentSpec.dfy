/**
 What one uninterrupted transaction body answers and leaves behind, as functions of the durable state it
 started from. `Transaction` is proved against these; what they promise is proved in `AttachmentPromises`.
 */
module AttachmentSpec {
  import opened Prelude
  import opened AttachmentRecords
  import opened AttachmentMachine
  import Base64

  datatype Receipt = Receipt(uploadId: Uuid, receivedBytes: nat, totalBytes: nat, expiresAt: nat, phase: Phase)
  datatype Image = Image(media: Media, width: nat, height: nat)
  datatype Prepared = Already(reference: Reference) | Decode(bytes: Bytes)
  datatype Native = Native(reference: Reference, path: Path, bytes: Bytes)
  datatype ReadReceipt = ReadReceipt(reference: Reference, offset: nat, data: Bytes, nextOffset: nat, complete: bool)

  /** The session record a target names, as far as attachments look at it. */
  datatype Session = Session(registration: Option<Uuid>, native: bool, archived: bool)

  function AttachmentSession(found: Option<Session>, write: bool): Result<Uuid> {
    match found
    case None => Refused("IDENTITY_MISMATCH")
    case Some(session) =>
      if !session.native then Refused("unsupported-runtime")
      else if session.registration.None? then Refused("registration-required")
      else if write && session.archived then Refused("archived-target")
      else Ok(session.registration.value)
  }

  function UploadReceipt(row: Record): Receipt {
    Receipt(row.id, row.received, row.bytes, row.expiresAt, row.phase)
  }

  function FindTombstone(ts: seq<Tombstone>, id: Uuid): (t: Option<Tombstone>)
    ensures t.Some? ==> t.value in ts && t.value.id == id
    ensures t.None? ==> forall x :: x in ts ==> x.id != id
  {
    if ts == [] then None
    else if ts[0].id == id then Some(ts[0])
    else FindTombstone(ts[1..], id)
  }

  // ---- Shared pieces ----------------------------------------------------------------------------

  function Persisted(host: Host, d: Durable, store: Store): (Check, Durable) {
    if host.indexBytes(store) > STORE_BYTES then (Fail("attachment-index-quota"), d)
    else (Pass, d.(index := store))
  }

  /** The files of the rows these ids name. */
  function PathsOf(rs: seq<Record>, ids: set<Uuid>): set<Path> {
    set row | row in rs && row.id in ids :: PathOf(row)
  }

  function Reaped(host: Host, d: Durable, now: nat): (Check, Durable) {
    var ids := ExpiredIds(d.index, now);
    var cancelled := LiveTombstones(d.index.cancelled, now);
    if ids == {} && |cancelled| == |d.index.cancelled| then (Pass, d)
    else Persisted(host, d.(files := d.files - PathsOf(d.index.records, ids)),
                   Store(Without(d.index.records, ids), d.index.pins, cancelled))
  }

  /** A body's outcome, unless the sweep before it was refused. */
  function Swept<T>(reaped: (Check, Durable), body: (Result<T>, Durable)): (Result<T>, Durable) {
    if reaped.0.Fail? then (Refused(reaped.0.reason), reaped.1) else body
  }

  function Opened(d: Durable, row: Record): (Check, Durable) {
    if d.HasFile(row) then (Pass, d)
    else if row.received == 0 && row.phase.Uploading? then (Pass, d.(files := d.files[PathOf(row) := []]))
    else (Fail("attachment-bytes-missing"), d)
  }

  function Quota(rs: seq<Record>, target: Key, bytes: nat): Check {
    if |rs| >= RECORDS then Fail("attachment-record-quota")
    else if Reserved(rs) + bytes > HOST_BYTES then Fail("attachment-disk-quota")
    else if Uploads(rs) >= HOST_UPLOADS || UploadsTo(rs, target) >= TARGET_UPLOADS then Fail("attachment-upload-quota")
    else Pass
  }

  function Owner(d: Durable, scope: Scope, id: Uuid): Result<Record> {
    match d.Row(id)
    case None => Refused("attachment-scope")
    case Some(row) => if row.scope == scope then Ok(row) else Refused("attachment-scope")
  }

  function ReadPrivate(d: Durable, row: Record, limit: nat): Result<Bytes> {
    if !d.HasFile(row) then Refused("ENOENT")
    else if |d.files[PathOf(row)]| > limit then Refused("private-file-limit")
    else Ok(d.files[PathOf(row)])
  }

  function VerifiedReference(row: Record, ref: Option<Reference>): Result<Reference> {
    if row.phase.Uploading? || row.reference.None? then Refused("attachment-incomplete")
    else if ref.Some? && row.reference != ref then Refused("attachment-reference-changed")
    else Ok(row.reference.value)
  }

  predicate Inherited(pins: seq<Pin>, scope: Scope, ref: Reference) {
    exists pin :: pin in pins && pin.scope == scope && ref in pin.references
  }

  function Readable(d: Durable, pins: seq<Pin>, scope: Scope, ref: Reference): Result<Record> {
    match d.Row(ref.id)
    case None => Refused("attachment-scope")
    case Some(row) =>
      if !(row.scope == scope || Inherited(pins, scope, ref)) then Refused("attachment-scope")
      else
        var _ :- VerifiedReference(row, Some(ref));
        Ok(row)
  }

  function ExactBytes(host: Host, d: Durable, row: Record, ref: Reference): Result<Bytes> {
    var bytes :- ReadPrivate(d, row, IMAGE_BYTES);
    if |bytes| == ref.bytes && host.sha256(bytes) == ref.digest then Ok(bytes) else Refused("attachment-digest")
  }

  // ---- Upload -----------------------------------------------------------------------------------

  function Begun(host: Host, d: Durable, scope: Scope, id: Uuid, media: Media, bytes: nat, digest: Digest, now: nat)
    : (Result<Receipt>, Durable)
  {
    if FindTombstone(d.index.cancelled, id).Some? then (Refused("attachment-upload-cancelled"), d)
    else match d.Row(id)
      case Some(row) =>
        if row.scope != scope then (Refused("attachment-scope"), d)
        else if !(row.media == media && row.bytes == bytes && row.digest == digest) then
          (Refused("upload-idempotency-conflict"), d)
        else
          var (check, ready) := Opened(d, row);
          (if check.Pass? then Ok(UploadReceipt(row)) else Refused(check.reason), ready)
      case None =>
        var quota := Quota(d.index.records, scope.target, bytes);
        if quota.Fail? then (Refused(quota.reason), d)
        else
          var row := Record(id, scope, media, bytes, digest, 0, Uploading, now + UPLOAD_TTL_MS, None);
          var (check, reserved) := Persisted(host, d, d.index.(records := d.index.records + [row]));
          if check.Fail? then (Refused(check.reason), d)
          else (Ok(UploadReceipt(row)), Opened(reserved, row).1)
  }

  function Appended(host: Host, d: Durable, row: Record, offset: nat, data: Bytes): (Result<Receipt>, Durable) {
    var end := offset + |data|;
    if !(0 < |data| <= CHUNK_BYTES) then (Refused("attachment-chunk-encoding"), d)
    else if !(end <= row.bytes && offset <= row.received) then (Refused("attachment-chunk-order"), d)
    else
      var (check, ready) := Opened(d, row);
      if check.Fail? then (Refused(check.reason), d)
      else
        var file := ready.files[PathOf(row)];
        if !(row.received <= |file| <= row.bytes) then (Refused("attachment-byte-state"), ready)
        else if offset < row.received then
          if end > row.received then (Refused("attachment-chunk-overlap"), ready)
          else if file[offset..end] != data then (Refused("attachment-chunk-conflict"), ready)
          else (Ok(UploadReceipt(row)), ready)
        else if !row.phase.Uploading? then (Refused("attachment-immutable"), ready)
        else
          var written := ready.(files := ready.files[PathOf(row) := file[..row.received] + data]);
          var grown := row.(received := end);
          var (saved, acknowledged) :=
            Persisted(host, written, d.index.(records := Put(d.index.records, grown)));
          (if saved.Pass? then Ok(UploadReceipt(grown)) else Refused(saved.reason), acknowledged)
  }

  /** What the request schema asks of a chunk. */
  predicate ChunkOk(offset: nat, text: string) {
    offset <= IMAGE_BYTES && 4 <= |text| <= CHUNK_BYTES / 3 * 4 && Base64.WellShaped(text)
  }

  /** A chunk as it arrives, in text. */
  function Sent(host: Host, d: Durable, row: Record, offset: nat, text: string): (Result<Receipt>, Durable)
    requires Base64.WellShaped(text)
  {
    var data := Base64.Decode(text);
    if Base64.Encode(data) != text then (Refused("attachment-chunk-encoding"), d)
    else Appended(host, d, row, offset, data)
  }

  function Cancelled(host: Host, d: Durable, scope: Scope, id: Uuid, now: nat): (Result<Uuid>, Durable) {
    match FindTombstone(d.index.cancelled, id)
    case Some(t) => (if t.scope == scope then Ok(id) else Refused("attachment-cancel-scope"), d)
    case None =>
      var owner := Owner(d, scope, id);
      if owner.Refused? then (Refused(owner.reason), d)
      else if owner.value.phase.Retained? || Protected(d.index.pins, id) then (Refused("attachment-retained"), d)
      else if |d.index.cancelled| >= RECORDS then (Refused("attachment-cancellation-quota"), d)
      else
        var tombstone := Tombstone(id, owner.value.scope, now + UPLOAD_TTL_MS);
        var unlinked := d.(files := d.files - {PathOf(owner.value)});
        var (check, dropped) := Persisted(host, unlinked,
          Store(Without(d.index.records, {id}), d.index.pins, d.index.cancelled + [tombstone]));
        (if check.Pass? then Ok(id) else Refused(check.reason), dropped)
  }

  // ---- Finalize ---------------------------------------------------------------------------------

  function FinalizeRead(host: Host, d: Durable, scope: Scope, id: Uuid): Result<Prepared> {
    var row :- Owner(d, scope, id);
    if !row.phase.Uploading? then
      var ref :- VerifiedReference(row, None);
      Ok(Already(ref))
    else if row.received != row.bytes then Refused("attachment-incomplete")
    else
      var bytes :- ReadPrivate(d, row, IMAGE_BYTES);
      if |bytes| == row.bytes && host.sha256(bytes) == row.digest then Ok(Decode(bytes))
      else Refused("attachment-digest")
  }

  function FinalizeCommit(
    host: Host, d: Durable, scope: Scope, id: Uuid, prepared: Bytes, image: Image, aborted: bool, now: nat)
    : (Result<Reference>, Durable)
  {
    var owner := Owner(d, scope, id);
    if owner.Refused? then (Refused(owner.reason), d)
    else
      var row := owner.value;
      if !(row.phase.Uploading? && row.received == row.bytes) then (Refused("attachment-finalize-state"), d)
      else
        var current := ReadPrivate(d, row, IMAGE_BYTES);
        if current.Refused? then (Refused(current.reason), d)
        else if !(current.value == prepared && image.media == row.media) then
          (Refused("attachment-finalize-changed"), d)
        else if aborted then (Refused("aborted"), d)
        else
          var ref := Reference(row.id, row.digest, image.media, row.bytes, image.width, image.height);
          if !ReferenceOk(ref) then (Refused("reference-schema"), d)
          else
            var verified := row.(phase := Verified, expiresAt := now + UNRETAINED_TTL_MS, reference := Some(ref));
            var (check, saved) := Persisted(host, d, d.index.(records := Put(d.index.records, verified)));
            (if check.Pass? then Ok(ref) else Refused(check.reason), saved)
  }

  // ---- Pins -------------------------------------------------------------------------------------

  function ReadableAll(d: Durable, pins: seq<Pin>, scope: Scope, refs: seq<Reference>): Check {
    if refs == [] then Pass
    else
      var row := Readable(d, pins, scope, refs[0]);
      if row.Refused? then Fail(row.reason) else ReadableAll(d, pins, scope, refs[1..])
  }

  function ExactAll(host: Host, d: Durable, refs: seq<Reference>): Check {
    if refs == [] then Pass
    else if d.Row(refs[0].id).None? then Fail("attachment-scope")
    else
      var bytes := ExactBytes(host, d, d.Row(refs[0].id).value, refs[0]);
      if bytes.Refused? then Fail(bytes.reason) else ExactAll(host, d, refs[1..])
  }

  /**
   `accepted` is what comes after the pin is durable: the abort, or what the ledger callback answers. It may refuse
   the message, but the pin stays.
   */
  function Pinned(host: Host, d: Durable, scope: Scope, messageId: Uuid, refs: seq<Reference>, accepted: Result<Uuid>)
    : (Result<Uuid>, Durable)
  {
    match FindPin(d.index.pins, messageId, scope.target)
    case Some(prior) =>
      (if prior.scope == scope && prior.references == refs then accepted else Refused("attachment-pin-conflict"), d)
    case None =>
      if |d.index.pins| >= PINS then (Refused("attachment-pin-quota"), d)
      else
        var readable := ReadableAll(d, d.index.pins, scope, refs);
        var exact := ExactAll(host, d, refs);
        if readable.Fail? then (Refused(readable.reason), d)
        else if exact.Fail? then (Refused(exact.reason), d)
        else
          var (check, saved) := Persisted(host, d,
            d.index.(records := RetainAll(d.index.records, refs),
                     pins := d.index.pins + [Pin(messageId, scope, refs)]));
          (if check.Fail? then Refused(check.reason) else accepted, saved)
  }

  /** The pin a provider's input is resolved through: this message, this registration, this target. */
  function FindLivePin(pins: seq<Pin>, messageId: Uuid, target: Key, registration: Uuid): (pin: Option<Pin>)
    ensures pin.Some? ==> pin.value in pins && pin.value.messageId == messageId
    ensures pin.Some? ==> pin.value.scope.target == target && pin.value.scope.registration == registration
  {
    if pins == [] then None
    else if pins[0].messageId == messageId && pins[0].scope.registration == registration
         && pins[0].scope.target == target then Some(pins[0])
    else FindLivePin(pins[1..], messageId, target, registration)
  }

  function ResolveAll(host: Host, d: Durable, scope: Scope, refs: seq<Reference>): Result<seq<Native>> {
    if refs == [] then Ok([])
    else
      var row :- Readable(d, d.index.pins, scope, refs[0]);
      if !row.phase.Retained? then Refused("attachment-not-retained")
      else
        var bytes :- ExactBytes(host, d, row, refs[0]);
        var rest :- ResolveAll(host, d, scope, refs[1..]);
        Ok([Native(refs[0], PathOf(row), bytes)] + rest)
  }

  function Resolved(host: Host, d: Durable, target: Key, registration: Uuid, messageId: Uuid, refs: seq<Reference>)
    : Result<seq<Native>>
  {
    if refs == [] then Ok([])
    else match FindLivePin(d.index.pins, messageId, target, registration)
      case None => Refused("attachment-pin-required")
      case Some(pin) =>
        if pin.references != refs then Refused("attachment-pin-required")
        else ResolveAll(host, d, pin.scope, refs)
  }

  /** A fork's source or destination: the target and its live registration. */
  datatype Endpoint = Endpoint(target: Key, registration: Uuid)

  function PinsOf(pins: seq<Pin>, at: Endpoint): (out: seq<Pin>)
    ensures forall pin :: pin in out <==> pin in pins && pin.scope.target == at.target
                                          && pin.scope.registration == at.registration
  {
    if pins == [] then []
    else (if pins[0].scope.registration == at.registration && pins[0].scope.target == at.target
          then [pins[0]] else []) + PinsOf(pins[1..], at)
  }

  function RetainedCheck(d: Durable, pins: seq<Pin>, scope: Scope, refs: seq<Reference>): Check {
    if refs == [] then Pass
    else
      var row := Readable(d, pins, scope, refs[0]);
      if row.Refused? then Fail(row.reason)
      else if !row.value.phase.Retained? then Fail("fork-pin-not-retained")
      else RetainedCheck(d, pins, scope, refs[1..])
  }

  function ForkedPin(pin: Pin, destination: Endpoint): Pin {
    pin.(scope := Scope(destination.target, destination.registration, pin.scope.principal))
  }

  function InheritOne(d: Durable, pins: seq<Pin>, pin: Pin, destination: Endpoint): Result<seq<Pin>> {
    match FindPin(pins, pin.messageId, destination.target)
    case Some(existing) =>
      if existing.scope == ForkedPin(pin, destination).scope && existing.references == pin.references then Ok(pins)
      else Refused("fork-pin-conflict")
    case None =>
      if |pins| >= PINS then Refused("attachment-pin-quota")
      else
        var check := RetainedCheck(d, pins, pin.scope, pin.references);
        if check.Fail? then Refused(check.reason) else Ok(pins + [ForkedPin(pin, destination)])
  }

  function InheritAll(d: Durable, pins: seq<Pin>, original: seq<Pin>, destination: Endpoint): Result<seq<Pin>>
    decreases |original|
  {
    if original == [] then Ok(pins)
    else
      var next :- InheritOne(d, pins, original[0], destination);
      InheritAll(d, next, original[1..], destination)
  }

  function Forked(host: Host, d: Durable, source: Endpoint, destination: Endpoint, aborted: bool)
    : (Result<nat>, Durable)
  {
    var pins := InheritAll(d, d.index.pins, PinsOf(d.index.pins, source), destination);
    if pins.Refused? then (Refused(pins.reason), d)
    else if aborted then (Refused("aborted"), d)
    else
      var (check, saved) := Persisted(host, d, d.index.(pins := pins.value));
      (if check.Pass? then Ok(|pins.value|) else Refused(check.reason), saved)
  }

  // ---- Reading back -----------------------------------------------------------------------------

  /** What a preview answers when it hashes the file every time. */
  function Previewed(host: Host, file: Bytes, ref: Reference, offset: nat): Result<Bytes> {
    if !(|file| == ref.bytes && offset <= ref.bytes) then Refused("attachment-preview-size")
    else if host.sha256(file) != ref.digest then Refused("attachment-digest")
    else Ok(file[offset..Min(offset + CHUNK_BYTES, ref.bytes)])
  }

  function ReadChunk(host: Host, d: Durable, scope: Scope, ref: Reference, offset: nat): Result<ReadReceipt> {
    var row :- Readable(d, d.index.pins, scope, ref);
    var reference :- VerifiedReference(row, Some(ref));
    if offset > reference.bytes then Refused("attachment-read-offset")
    else if !d.HasFile(row) then Refused("ENOENT")
    else
      var data :- Previewed(host, d.files[PathOf(row)], reference, offset);
      var next := offset + |data|;
      Ok(ReadReceipt(reference, offset, data, next, next == reference.bytes))
  }
}
