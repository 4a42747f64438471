/** What the attachment operations promise their callers, over all states a run can reach. */
module AttachmentPromises {
  import opened Prelude
  import opened AttachmentRecords
  import opened AttachmentMachine
  import opened AttachmentInvariant
  import opened AttachmentSpec
  import opened AttachmentPinning
  import Base64

  // ---- Chunked upload is appending to a byte string ---------------------------------------------

  /** The acknowledged bytes of a row: what the caller has been told has arrived. */
  function Acked(d: Durable, row: Record): Bytes {
    if d.HasFile(row) && row.received <= |d.files[PathOf(row)]| then d.files[PathOf(row)][..row.received] else []
  }

  /** The file is there, or its creation was the only thing a crash prevented. */
  predicate Recoverable(d: Durable, row: Record) {
    d.HasFile(row) || row.received == 0
  }

  /** The whole acceptance rule of a chunk, in terms of the acknowledged bytes alone. */
  ghost predicate Accepts(host: Host, d: Durable, row: Record, offset: nat, data: Bytes) {
    && 0 < |data| <= CHUNK_BYTES
    && Recoverable(d, row)
    && (|| (offset == row.received && offset + |data| <= row.bytes
            && var grown := row.(received := offset + |data|);
            && host.indexBytes(d.index.(records := Put(d.index.records, grown))) <= STORE_BYTES)
        || (offset + |data| <= |Acked(d, row)| && Acked(d, row)[offset..offset + |data|] == data))
  }

  lemma SliceOfPrefix(s: Bytes, n: nat, i: nat, j: nat)
    requires i <= j <= n <= |s|
    ensures s[..n][i..j] == s[i..j]
  {
  }

  lemma AckedIsThePrefix(host: Host, d: Durable, row: Record)
    requires Sound(host, d) && d.Row(row.id) == Some(row) && Recoverable(d, row)
    ensures |Acked(d, row)| == row.received
    ensures d.HasFile(row) ==> row.received <= |d.files[PathOf(row)]| <= row.bytes
    ensures RecordOk(row)
  {
    if d.HasFile(row) {
      assert Owned(d, PathOf(row));
    }
  }

  /** A chunk is accepted exactly when it continues the acknowledged bytes or repeats a part of them. */
  lemma AppendAcceptsExactly(host: Host, d: Durable, row: Record, offset: nat, data: Bytes)
    requires Sound(host, d) && d.Row(row.id) == Some(row)
    ensures Appended(host, d, row, offset, data).0.Ok? <==> Accepts(host, d, row, offset, data)
  {
    if Recoverable(d, row) {
      AckedIsThePrefix(host, d, row);
      var end := offset + |data|;
      if d.HasFile(row) && end <= row.received {
        SliceOfPrefix(d.files[PathOf(row)], row.received, offset, end);
      }
    }
  }

  /** What a fresh chunk does to the file and the row. */
  lemma FreshChunkIsWritten(host: Host, d: Durable, row: Record, data: Bytes)
    requires Appended(host, d, row, row.received, data).0.Ok?
    ensures var (r, d') := Appended(host, d, row, row.received, data);
      var row' := row.(received := row.received + |data|);
      && r.value == UploadReceipt(row')
      && d'.index == d.index.(records := Put(d.index.records, row'))
      && Opened(d, row).1.HasFile(row) && d'.HasFile(row)
      && var file := Opened(d, row).1.files[PathOf(row)];
      && row.received <= |file| && d'.files[PathOf(row)] == file[..row.received] + data
  {
  }

  lemma FreshChunkExtends(host: Host, d: Durable, row: Record, data: Bytes)
    requires Sound(host, d) && d.Row(row.id) == Some(row)
    requires Appended(host, d, row, row.received, data).0.Ok?
    ensures var (r, d') := Appended(host, d, row, row.received, data);
      var row' := row.(received := row.received + |data|);
      && r.value == UploadReceipt(row')
      && d'.Row(row.id) == Some(row')
      && Acked(d', row') == Acked(d, row) + data
  {
    FreshChunkIsWritten(host, d, row, data);
    var file := Opened(d, row).1.files[PathOf(row)];
    var row' := row.(received := row.received + |data|);
    FindPut(d.index.records, row', row.id);
    var d' := Appended(host, d, row, row.received, data).1;
    assert d'.files[PathOf(row)][..row'.received] == file[..row.received] + data;
    assert Acked(d, row) == file[..row.received];
  }

  lemma OtherChunksChangeNothing(host: Host, d: Durable, row: Record, offset: nat, data: Bytes)
    requires Sound(host, d) && d.Row(row.id) == Some(row)
    requires Appended(host, d, row, offset, data).0.Refused? || offset != row.received
    ensures var (r, d') := Appended(host, d, row, offset, data);
      && d'.index == d.index
      && Acked(d', row) == Acked(d, row)
      && (r.Ok? ==> d' == d && r.value == UploadReceipt(row))
  {
    if Recoverable(d, row) {
      AckedIsThePrefix(host, d, row);
      var ready := Opened(d, row).1;
      var d' := Appended(host, d, row, offset, data).1;
      assert ready.files[PathOf(row)][..row.received] == Acked(d, row);
      if d' != d && d' != ready {
        var file := ready.files[PathOf(row)];
        assert d'.files[PathOf(row)] == file[..row.received] + data;
        assert d'.files[PathOf(row)][..row.received] == file[..row.received];
      }
    }
  }

  /** An accepted chunk extends the acknowledged bytes by itself, or changes nothing; a refused one neither. */
  lemma AppendIsAppend(host: Host, d: Durable, row: Record, offset: nat, data: Bytes)
    requires Sound(host, d) && d.Row(row.id) == Some(row)
    ensures var (r, d') := Appended(host, d, row, offset, data);
      && (r.Refused? ==> d'.index == d.index && Acked(d', row) == Acked(d, row))
      && (r.Ok? ==>
            var row' := row.(received := if offset == row.received then offset + |data| else row.received);
            && d'.Row(row.id) == Some(row')
            && r.value == UploadReceipt(row')
            && Acked(d', row') == Acked(d, row) + (if offset == row.received then data else [])
            && (offset != row.received ==> d' == d))
  {
    if Appended(host, d, row, offset, data).0.Ok? && offset == row.received {
      FreshChunkExtends(host, d, row, data);
    } else {
      OtherChunksChangeNothing(host, d, row, offset, data);
    }
  }

  // ---- Chunks as text ---------------------------------------------------------------------------

  /** Every chunk there can be has a text that the schema admits and that arrives as that chunk. */
  lemma EveryChunkCanBeSent(host: Host, d: Durable, row: Record, offset: nat, data: Bytes)
    requires 0 < |data| <= CHUNK_BYTES && offset <= IMAGE_BYTES
    ensures ChunkOk(offset, Base64.Encode(data))
    ensures Sent(host, d, row, offset, Base64.Encode(data)) == Appended(host, d, row, offset, data)
  {
    ChunkTextIsOk(offset, data);
    TextArrives(host, d, row, offset, data, Base64.Encode(data));
  }

  lemma ChunkTextIsOk(offset: nat, data: Bytes)
    requires 0 < |data| <= CHUNK_BYTES && offset <= IMAGE_BYTES
    ensures ChunkOk(offset, Base64.Encode(data))
  {
    ChunkTextLength(data);
    Base64.EncodeThenDecode(data);
  }

  lemma ChunkTextLength(data: Bytes)
    requires 0 < |data| <= CHUNK_BYTES
    ensures 4 <= |Base64.Encode(data)| <= CHUNK_BYTES / 3 * 4
  {
    Base64.EncodedLength(data);
    assert 1 <= (|data| + 2) / 3 <= CHUNK_BYTES / 3;
  }

  lemma TextArrives(host: Host, d: Durable, row: Record, offset: nat, data: Bytes, text: string)
    requires text == Base64.Encode(data)
    ensures Base64.WellShaped(text) && Sent(host, d, row, offset, text) == Appended(host, d, row, offset, data)
  {
    Base64.EncodeThenDecode(data);
  }

  /** Of a chunk the schema admits nothing but its spelling can be refused as its encoding. */
  lemma OnlyTheSpellingIsRefused(offset: nat, text: string)
    requires ChunkOk(offset, text)
    ensures var data := Base64.Decode(text);
      0 < |data| <= CHUNK_BYTES && (Base64.Encode(data) == text <==> Base64.Canonical(text))
  {
    Base64.DecodedLength(text);
    Base64.ReEncoded(text);
  }

  // ---- Cancelling -------------------------------------------------------------------------------

  /** A cancel leaves a tombstone of its scope; the first one takes the row and its file, and nothing else. */
  lemma CancelLeaves(host: Host, d: Durable, scope: Scope, id: Uuid, now: nat)
    requires Cancelled(host, d, scope, id, now).0.Ok?
    ensures var d' := Cancelled(host, d, scope, id, now).1;
      if FindTombstone(d.index.cancelled, id).Some? then
        d' == d && FindTombstone(d.index.cancelled, id).value.scope == scope
      else
        && d.Row(id).Some? && d'.Row(id).None? && d'.files == d.files - {PathOf(d.Row(id).value)}
        && (forall other: Uuid :: other != id ==> d'.Row(other) == d.Row(other))
        && d'.index.pins == d.index.pins
        && d'.index.cancelled == d.index.cancelled + [Tombstone(id, scope, now + UPLOAD_TTL_MS)]
  {
    if FindTombstone(d.index.cancelled, id).None? {
      forall other: Uuid ensures Find(Without(d.index.records, {id}), other)
                              == if other == id then None else Find(d.index.records, other) {
        FindWithout(d.index.records, {id}, other);
      }
    }
  }

  /** A refused pin leaves nothing but, when the abort or the callback came after it, the pin made durable before. */
  lemma RefusedPinsLeaveTheIndex(
    host: Host, d: Durable, scope: Scope, id: Uuid, refs: seq<Reference>, accepted: Result<Uuid>)
    ensures var (r, d') := Pinned(host, d, scope, id, refs, accepted);
      r.Refused? ==>
        || d' == d
        || (r == accepted && FindPin(d'.index.pins, id, scope.target) == Some(Pin(id, scope, refs)))
  {
    if FindPin(d.index.pins, id, scope.target).None? {
      PinPush(d.index.pins, Pin(id, scope, refs));
    }
  }

  // ---- Finalize ---------------------------------------------------------------------------------

  /** The row and the reference an accepted commit leaves. */
  lemma CommittedRow(
    host: Host, d: Durable, scope: Scope, id: Uuid, bytes: Bytes, image: Image, aborted: bool, now: nat)
    requires FinalizeCommit(host, d, scope, id, bytes, image, aborted, now).0.Ok?
    ensures var (r, d') := FinalizeCommit(host, d, scope, id, bytes, image, aborted, now);
      && d.Row(id).Some?
      && var row := d.Row(id).value;
      && row.id == id && row.scope == scope && row.received == row.bytes && image.media == row.media
      && d.HasFile(row) && d.files[PathOf(row)] == bytes && d'.files == d.files
      && r == Ok(Reference(id, row.digest, image.media, row.bytes, image.width, image.height))
      && d'.Row(id)
         == Some(row.(phase := Verified, expiresAt := now + UNRETAINED_TTL_MS, reference := Some(r.value)))
  {
    var row := d.Row(id).value;
    var r := FinalizeCommit(host, d, scope, id, bytes, image, aborted, now).0;
    FindPut(d.index.records,
            row.(phase := Verified, expiresAt := now + UNRETAINED_TTL_MS, reference := Some(r.value)), id);
  }

  /**
   Whatever ran between the read and the commit, a committed reference carries exactly the bytes that were
   decoded, and its digest is theirs if and only if the row still declares the digest it was read under.
   */
  lemma CommitDescribesTheDecodedBytes(
    host: Host, d0: Durable, d1: Durable, readScope: Scope, scope: Scope, id: Uuid, bytes: Bytes, image: Image,
    aborted: bool, now: nat)
    requires Sound(host, d0) && Sound(host, d1)
    requires FinalizeRead(host, d0, readScope, id) == Ok(Decode(bytes))
    requires FinalizeCommit(host, d1, scope, id, bytes, image, aborted, now).0.Ok?
    ensures var (r, d') := FinalizeCommit(host, d1, scope, id, bytes, image, aborted, now);
      var ref, row := r.value, d'.Row(id);
      && row.Some? && row.value.reference == Some(ref) && row.value.phase.Verified?
      && ref.id == id && ref.bytes == |bytes| && ref.media == image.media
      && ref.width == image.width && ref.height == image.height
      && d'.HasFile(row.value) && d'.files[PathOf(row.value)] == bytes
      && d'.files == d1.files
      && (ref.digest == host.sha256(bytes) <==> d1.Row(id).value.digest == d0.Row(id).value.digest)
  {
    CommittedRow(host, d1, scope, id, bytes, image, aborted, now);
    assert Owned(d1, PathOf(d1.Row(id).value));
  }

  /** So a row that lived through the decode is committed under the digest of what was decoded. */
  lemma CommitOfALivingRowIsCorrect(
    host: Host, states: seq<Durable>, steps: seq<Step>, i: nat, j: nat,
    scope: Scope, id: Uuid, bytes: Bytes, image: Image, aborted: bool, now: nat)
    requires IsRun(host, states, steps) && i <= j && Lives(states, id, i, j)
    requires FinalizeRead(host, states[i], scope, id) == Ok(Decode(bytes))
    requires FinalizeCommit(host, states[j], scope, id, bytes, image, aborted, now).0.Ok?
    ensures FinalizeCommit(host, states[j], scope, id, bytes, image, aborted, now).0.value.digest == host.sha256(bytes)
  {
    EveryStateIsSound(host, states, steps, i);
    EveryStateIsSound(host, states, steps, j);
    LivingRowMovesForward(host, states, steps, i, j, id);
    CommitDescribesTheDecodedBytes(host, states[i], states[j], scope, scope, id, bytes, image, aborted, now);
  }

  /** Finalizing again, at any later point of the row's life, answers the reference of the first time. */
  lemma FinalizeIsIdempotent(
    host: Host, states: seq<Durable>, steps: seq<Step>, i: nat, j: nat, scope: Scope, id: Uuid, ref: Reference)
    requires IsRun(host, states, steps) && i <= j && Lives(states, id, i, j)
    requires states[i].Row(id).value.scope == scope && states[i].Row(id).value.reference == Some(ref)
    ensures FinalizeRead(host, states[j], scope, id) == Ok(Already(ref))
  {
    EveryStateIsSound(host, states, steps, i);
    EveryStateIsSound(host, states, steps, j);
    LivingRowMovesForward(host, states, steps, i, j, id);
    assert RecordOk(states[i].Row(id).value) && RecordOk(states[j].Row(id).value);
  }

  // ---- Pins are permanent -----------------------------------------------------------------------

  lemma {:induction false} LivePinInExtension(
    pins: seq<Pin>, more: seq<Pin>, messageId: Uuid, target: Key, registration: Uuid)
    requires pins <= more && FindLivePin(pins, messageId, target, registration).Some?
    ensures FindLivePin(more, messageId, target, registration) == FindLivePin(pins, messageId, target, registration)
  {
    assert pins[0] == more[0] && pins[1..] <= more[1..];
    if !(pins[0].messageId == messageId && pins[0].scope.registration == registration
         && pins[0].scope.target == target) {
      LivePinInExtension(pins[1..], more[1..], messageId, target, registration);
    }
  }

  /** What a pinned message resolves to: every reference with the bytes of its file, in order. */
  function Images(d: Durable, refs: seq<Reference>): seq<Native>
    requires forall ref :: ref in refs ==> Path(ref.id, ref.media) in d.files
  {
    if refs == [] then []
    else [Native(refs[0], Path(refs[0].id, refs[0].media), d.files[Path(refs[0].id, refs[0].media)])]
         + Images(d, refs[1..])
  }

  lemma HeldReference(host: Host, d: Durable, ref: Reference)
    requires Sound(host, d) && Holds(host, d, ref)
    ensures PathOf(d.Row(ref.id).value) == Path(ref.id, ref.media)
    ensures Path(ref.id, ref.media) in d.files
    ensures ReferenceOk(ref)
  {
    var row := d.Row(ref.id).value;
    assert row in d.index.records && RecordOk(row);
  }

  lemma {:induction false} PinnedReferencesResolve(host: Host, d: Durable, pin: Pin, refs: seq<Reference>)
    requires Sound(host, d) && pin in d.index.pins
    requires forall ref :: ref in refs ==> ref in pin.references
    ensures forall ref :: ref in refs ==> Path(ref.id, ref.media) in d.files
    ensures ResolveAll(host, d, pin.scope, refs) == Ok(Images(d, refs))
  {
    forall ref | ref in refs ensures Path(ref.id, ref.media) in d.files {
      assert Holds(host, d, ref);
      HeldReference(host, d, ref);
    }
    if refs != [] {
      var ref := refs[0];
      assert Holds(host, d, ref);
      HeldReference(host, d, ref);
      assert Inherited(d.index.pins, pin.scope, ref);
      PinnedReferencesResolve(host, d, pin, refs[1..]);
    }
  }

  /**
   The central promise: once a message's pin is in the index, resolving that message under the same registration
   succeeds at that state and at every later state of every run, crash points included, with the same images.
   */
  lemma PinnedMessageResolvesForever(
    host: Host, states: seq<Durable>, steps: seq<Step>, i: nat, j: nat,
    messageId: Uuid, target: Key, registration: Uuid)
    requires IsRun(host, states, steps) && i <= j < |states|
    requires FindLivePin(states[i].index.pins, messageId, target, registration).Some?
    ensures var refs := FindLivePin(states[i].index.pins, messageId, target, registration).value.references;
      var first := Resolved(host, states[i], target, registration, messageId, refs);
      first.Ok? && Resolved(host, states[j], target, registration, messageId, refs) == first
  {
    var pin := FindLivePin(states[i].index.pins, messageId, target, registration).value;
    EveryStateIsSound(host, states, steps, i);
    EveryStateIsSound(host, states, steps, j);
    PinsOnlyGrow(host, states, steps, i, j);
    LivePinInExtension(states[i].index.pins, states[j].index.pins, messageId, target, registration);
    PinnedReferencesResolve(host, states[i], pin, pin.references);
    PinnedReferencesResolve(host, states[j], pin, pin.references);
    forall ref | ref in pin.references
      ensures states[j].files[Path(ref.id, ref.media)] == states[i].files[Path(ref.id, ref.media)] {
      assert Holds(host, states[i], ref);
      HeldForever(host, states, steps, i, j, ref);
    }
    SameImages(states[i], states[j], pin.references);
  }

  lemma {:induction false} SameImages(d: Durable, d': Durable, refs: seq<Reference>)
    requires forall ref :: ref in refs ==> Path(ref.id, ref.media) in d.files && Path(ref.id, ref.media) in d'.files
    requires forall ref :: ref in refs ==> d'.files[Path(ref.id, ref.media)] == d.files[Path(ref.id, ref.media)]
    ensures Images(d', refs) == Images(d, refs)
  {
    if refs != [] {
      SameImages(d, d', refs[1..]);
    }
  }

  /** Pinning makes the message resolvable, also when the abort or the callback refuses it after that. */
  lemma PinningMakesResolvable(
    host: Host, d: Durable, scope: Scope, messageId: Uuid, refs: seq<Reference>, accepted: Result<Uuid>)
    requires Sound(host, d) && ReferencesOk(refs)
    requires var (r, d') := Pinned(host, d, scope, messageId, refs, accepted); r.Ok? || d' != d
    ensures var d' := Pinned(host, d, scope, messageId, refs, accepted).1;
      Resolved(host, d', scope.target, scope.registration, messageId, refs).Ok?
  {
    var d' := Pinned(host, d, scope, messageId, refs, accepted).1;
    var pin := Pin(messageId, scope, refs);
    if FindPin(d.index.pins, messageId, scope.target).None? {
      PinPush(d.index.pins, pin);
    }
    FirstPinIsLive(d'.index.pins, messageId, scope.target);
    PinnedKeepsSound(host, d, scope, messageId, refs, accepted);
    PinnedReferencesResolve(host, d', pin, refs);
  }

  /** The first pin for a message and target is also the first under that pin's own registration. */
  lemma {:induction false} FirstPinIsLive(pins: seq<Pin>, messageId: Uuid, target: Key)
    requires FindPin(pins, messageId, target).Some?
    ensures var pin := FindPin(pins, messageId, target).value;
      FindLivePin(pins, messageId, target, pin.scope.registration) == Some(pin)
  {
    if !(pins[0].messageId == messageId && pins[0].scope.target == target) {
      FirstPinIsLive(pins[1..], messageId, target);
    }
  }

  // ---- Forks ------------------------------------------------------------------------------------

  lemma {:induction false} PinInExtension(pins: seq<Pin>, more: seq<Pin>, messageId: Uuid, target: Key)
    requires pins <= more && FindPin(pins, messageId, target).Some?
    ensures FindPin(more, messageId, target) == FindPin(pins, messageId, target)
  {
    assert pins[0] == more[0] && pins[1..] <= more[1..];
    if !(pins[0].messageId == messageId && pins[0].scope.target == target) {
      PinInExtension(pins[1..], more[1..], messageId, target);
    }
  }

  lemma {:induction false} InheritCoversAll(
    d: Durable, pins: seq<Pin>, original: seq<Pin>, destination: Endpoint, pin: Pin)
    requires InheritAll(d, pins, original, destination).Ok? && pin in original
    ensures pins <= InheritAll(d, pins, original, destination).value
    ensures FindPin(InheritAll(d, pins, original, destination).value, pin.messageId, destination.target)
            == Some(ForkedPin(pin, destination))
    decreases |original|
  {
    var next := InheritOne(d, pins, original[0], destination).value;
    var all := InheritAll(d, pins, original, destination).value;
    if FindPin(pins, original[0].messageId, destination.target).None? {
      PinPush(pins, ForkedPin(original[0], destination));
    }
    InheritExtends(d, next, original[1..], destination);
    if pin == original[0] {
      PinInExtension(next, all, pin.messageId, destination.target);
    } else {
      InheritCoversAll(d, next, original[1..], destination, pin);
    }
  }

  lemma {:induction false} InheritExtends(d: Durable, pins: seq<Pin>, original: seq<Pin>, destination: Endpoint)
    requires InheritAll(d, pins, original, destination).Ok?
    ensures pins <= InheritAll(d, pins, original, destination).value
    decreases |original|
  {
    if original != [] {
      InheritExtends(d, InheritOne(d, pins, original[0], destination).value, original[1..], destination);
    }
  }

  /** After a fork every message the source could resolve resolves at the destination to the same images. */
  lemma ForkExtendsReach(
    host: Host, d: Durable, source: Endpoint, destination: Endpoint, aborted: bool, messageId: Uuid)
    requires Forked(host, d, source, destination, aborted).0.Ok?
    requires Sound(host, d)
    requires FindLivePin(d.index.pins, messageId, source.target, source.registration).Some?
    ensures var refs := FindLivePin(d.index.pins, messageId, source.target, source.registration).value.references;
      var d' := Forked(host, d, source, destination, aborted).1;
      && Resolved(host, d', destination.target, destination.registration, messageId, refs).Ok?
      && Resolved(host, d', destination.target, destination.registration, messageId, refs)
         == Resolved(host, d, source.target, source.registration, messageId, refs)
      && Resolved(host, d', source.target, source.registration, messageId, refs)
         == Resolved(host, d, source.target, source.registration, messageId, refs)
  {
    var pin := FindLivePin(d.index.pins, messageId, source.target, source.registration).value;
    var d' := Forked(host, d, source, destination, aborted).1;
    InheritCoversAll(d, d.index.pins, PinsOf(d.index.pins, source), destination, pin);
    FirstPinIsLive(d'.index.pins, messageId, destination.target);
    LivePinInExtension(d.index.pins, d'.index.pins, messageId, source.target, source.registration);
    ForkedKeepsSound(host, d, source, destination, aborted);
    PinnedReferencesResolve(host, d, pin, pin.references);
    PinnedReferencesResolve(host, d', pin, pin.references);
    PinnedReferencesResolve(host, d', ForkedPin(pin, destination), pin.references);
    SameImages(d, d', pin.references);
  }
}
