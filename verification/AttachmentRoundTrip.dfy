/** Upload, finalize and read back, over runs: between any two calls others, crashes included, take any steps. */
module AttachmentRoundTrip {
  import opened Prelude
  import opened AttachmentRecords
  import opened AttachmentMachine
  import opened AttachmentInvariant
  import opened AttachmentSpec
  import opened AttachmentPromises

  // ---- Uploads ----------------------------------------------------------------------------------

  /** A chunk sent: the state its body started from, after the sweep, and the one it left. */
  datatype Turn = Turn(offset: nat, data: Bytes, start: nat, end: nat)

  /** The chunk is the part of `image` at its offset. */
  predicate PartOf(turn: Turn, image: Bytes) {
    turn.offset + |turn.data| <= |image| && image[turn.offset..turn.offset + |turn.data|] == turn.data
  }

  /** Nothing is acknowledged for the row: chunks that crashed before that, and any steps for anything else. */
  ghost predicate Quiet(steps: seq<Step>, id: Uuid, i: nat, j: nat) {
    forall k :: i <= k < j && k < |steps| ==> steps[k] != Acknowledge(id)
  }

  ghost predicate TurnTaken(host: Host, states: seq<Durable>, id: Uuid, turn: Turn) {
    && turn.start <= turn.end < |states|
    && states[turn.start].Row(id).Some?
    && states[turn.end]
       == Appended(host, states[turn.start], states[turn.start].Row(id).value, turn.offset, turn.data).1
  }

  /** The turns taken between two states of a run, accepted or not, and quiet before, between and after them. */
  ghost predicate Turns(
    host: Host, states: seq<Durable>, steps: seq<Step>, turns: seq<Turn>, id: Uuid, i: nat, j: nat)
    decreases |turns|
  {
    if turns == [] then Quiet(steps, id, i, j)
    else
      && i <= turns[0].start && turns[0].end <= j
      && Quiet(steps, id, i, turns[0].start)
      && TurnTaken(host, states, id, turns[0])
      && Turns(host, states, steps, turns[1..], id, turns[0].end, j)
  }

  lemma QuietStep(host: Host, d: Durable, s: Step, d': Durable, id: Uuid)
    requires StepOk(host, d, s, d') && s != Acknowledge(id)
    requires d.Row(id).Some? && d'.Row(id).Some?
    ensures d'.Row(id).value.received == d.Row(id).value.received
  {
    var rs := d.index.records;
    match s
    case Reserve(row) => FindPush(rs, row, id);
    case Acknowledge(other) =>
      var row := d.Row(other).value;
      FindPut(rs, row.(received := |d.files[PathOf(row)]|), id);
    case Verify(other, ref, expiresAt, _) =>
      var row := d.Row(other).value;
      FindPut(rs, row.(phase := Verified, expiresAt := expiresAt, reference := Some(ref)), id);
    case PinMessage(pin) => FindRetainAll(rs, pin.references, id);
    case DropExpired(now) => FindWithout(rs, ExpiredIds(d.index, now), id);
    case DropCancelled(t) => FindWithout(rs, {t.id}, id);
    case _ =>
  }

  lemma {:induction false} QuietKeepsTheCount(
    host: Host, states: seq<Durable>, steps: seq<Step>, id: Uuid, i: nat, j: nat)
    requires IsRun(host, states, steps) && i <= j && Lives(states, id, i, j) && Quiet(steps, id, i, j)
    ensures states[j].Row(id).value.received == states[i].Row(id).value.received
    decreases j
  {
    if i < j {
      QuietKeepsTheCount(host, states, steps, id, i, j - 1);
      assert StepOk(host, states[j - 1], steps[j - 1], states[j - 1 + 1]);
      QuietStep(host, states[j - 1], steps[j - 1], states[j], id);
    }
  }

  /** What is acknowledged is the beginning of the image. */
  ghost predicate Agrees(d: Durable, id: Uuid, image: Bytes) {
    d.Row(id).Some? && Acked(d, d.Row(id).value) <= image
  }

  /** A row that moved forward without a new count has the same acknowledged bytes, or has lost its file. */
  lemma SameCountSameBytes(d: Durable, d': Durable, id: Uuid)
    requires d.Row(id).Some? && d'.Row(id).Some? && Later(d, d', id)
    requires d'.Row(id).value.received == d.Row(id).value.received
    ensures Acked(d', d'.Row(id).value) == if d'.HasFile(d'.Row(id).value) then Acked(d, d.Row(id).value) else []
  {
    assert PathOf(d'.Row(id).value) == PathOf(d.Row(id).value);
  }

  /** Crash residue is harmless: a quiet stretch leaves the acknowledged bytes, unless the file itself is gone. */
  lemma QuietKeepsTheBytes(
    host: Host, states: seq<Durable>, steps: seq<Step>, id: Uuid, i: nat, j: nat)
    requires IsRun(host, states, steps) && i <= j && Lives(states, id, i, j) && Quiet(steps, id, i, j)
    ensures var row, row' := states[i].Row(id).value, states[j].Row(id).value;
      && row'.received == row.received
      && Acked(states[j], row') == if states[j].HasFile(row') then Acked(states[i], row) else []
  {
    QuietKeepsTheCount(host, states, steps, id, i, j);
    LivingRowMovesForward(host, states, steps, i, j, id);
    SameCountSameBytes(states[i], states[j], id);
  }

  /** Appending the part of the image that comes next. */
  lemma NextPart(acked: Bytes, data: Bytes, image: Bytes)
    requires acked <= image && |acked| + |data| <= |image| && image[|acked|..|acked| + |data|] == data
    ensures acked + data <= image
  {
    assert image[..|acked|] + data == image[..|acked| + |data|];
  }

  /** One turn carrying a part of the image leaves the acknowledged bytes a prefix of the image. */
  lemma TurnAgreesWithTheImage(host: Host, d: Durable, id: Uuid, turn: Turn, image: Bytes)
    requires Sound(host, d) && Agrees(d, id, image) && PartOf(turn, image)
    requires var d' := Appended(host, d, d.Row(id).value, turn.offset, turn.data).1; d'.Row(id).Some?
    ensures Agrees(Appended(host, d, d.Row(id).value, turn.offset, turn.data).1, id, image)
  {
    var row := d.Row(id).value;
    AppendIsAppend(host, d, row, turn.offset, turn.data);
    if Appended(host, d, row, turn.offset, turn.data).0.Ok? && turn.offset == row.received {
      AcceptedIsRecoverable(host, d, row, turn.offset, turn.data);
      AckedIsThePrefix(host, d, row);
      NextPart(Acked(d, row), turn.data, image);
    }
  }

  lemma AcceptedIsRecoverable(host: Host, d: Durable, row: Record, offset: nat, data: Bytes)
    requires Appended(host, d, row, offset, data).0.Ok?
    ensures Recoverable(d, row)
  {
  }

  /**
   In any order, with any repeats, refusals, losses and crashes, what is acknowledged is a prefix of the image sent.
   */
  lemma {:induction false} UploadsAgreeWithTheImage(
    host: Host, states: seq<Durable>, steps: seq<Step>, turns: seq<Turn>, id: Uuid, image: Bytes, i: nat, j: nat)
    requires IsRun(host, states, steps) && i <= j && Lives(states, id, i, j)
    requires Turns(host, states, steps, turns, id, i, j)
    requires forall turn :: turn in turns ==> PartOf(turn, image)
    requires Agrees(states[i], id, image)
    ensures Agrees(states[j], id, image)
    decreases |turns|
  {
    if turns == [] {
      QuietKeepsTheBytes(host, states, steps, id, i, j);
    } else {
      var turn := turns[0];
      QuietKeepsTheBytes(host, states, steps, id, i, turn.start);
      EveryStateIsSound(host, states, steps, turn.start);
      TurnAgreesWithTheImage(host, states[turn.start], id, turn, image);
      UploadsAgreeWithTheImage(host, states, steps, turns[1..], id, image, turn.end, j);
    }
  }

  // ---- Reading back -----------------------------------------------------------------------------

  /**
   What a client collects by following `nextOffset` from `offset` until `complete`. Every read is a transaction of
   its own: the one at `offset` finds the state `at(offset)`.
   */
  function ReadOn(host: Host, states: seq<Durable>, at: nat -> nat, scope: Scope, ref: Reference, offset: nat)
    : Result<Bytes>
    requires ReferenceOk(ref) && forall o :: at(o) < |states|
    decreases ref.bytes - offset
  {
    var receipt :- ReadChunk(host, states[at(offset)], scope, ref, offset);
    if receipt.complete then Ok(receipt.data)
    else
      var rest :- ReadOn(host, states, at, scope, ref, receipt.nextOffset);
      Ok(receipt.data + rest)
  }

  /** The image at this state: its file, if it is there, is `file`. */
  ghost predicate NothingElse(d: Durable, ref: Reference, file: Bytes) {
    d.Row(ref.id).Some? && d.HasFile(d.Row(ref.id).value) ==> d.files[PathOf(d.Row(ref.id).value)] == file
  }

  /** The image can be read at this state, and is `file`. */
  ghost predicate Serves(d: Durable, scope: Scope, ref: Reference, file: Bytes) {
    && Readable(d, d.index.pins, scope, ref).Ok?
    && d.HasFile(d.Row(ref.id).value)
    && d.files[PathOf(d.Row(ref.id).value)] == file
  }

  lemma ChunkOfTheFile(host: Host, d: Durable, scope: Scope, ref: Reference, file: Bytes, offset: nat)
    requires offset <= ref.bytes == |file| && host.sha256(file) == ref.digest && NothingElse(d, ref, file)
    ensures var chunk, next := ReadChunk(host, d, scope, ref, offset), Min(offset + CHUNK_BYTES, ref.bytes);
      && (chunk.Ok? ==> chunk.value == ReadReceipt(ref, offset, file[offset..next], next, next == ref.bytes))
      && (Serves(d, scope, ref, file) ==> chunk.Ok?)
  {
  }

  /** Read at any states at which the file is nothing else, what is collected is the rest of the file. */
  lemma {:induction false} ReadingReturnsTheFile(
    host: Host, states: seq<Durable>, at: nat -> nat, scope: Scope, ref: Reference, file: Bytes, offset: nat)
    requires ReferenceOk(ref) && offset <= ref.bytes == |file| && host.sha256(file) == ref.digest
    requires forall o :: at(o) < |states|
    requires forall o: nat :: NothingElse(states[at(o)], ref, file)
    ensures var all := ReadOn(host, states, at, scope, ref, offset);
      && (all.Ok? ==> all.value == file[offset..])
      && ((forall o: nat :: Serves(states[at(o)], scope, ref, file)) ==> all.Ok?)
    decreases ref.bytes - offset
  {
    var d := states[at(offset)];
    assert NothingElse(d, ref, file);
    assert (forall o: nat :: Serves(states[at(o)], scope, ref, file)) ==> Serves(d, scope, ref, file);
    ChunkOfTheFile(host, d, scope, ref, file, offset);
    var next := Min(offset + CHUNK_BYTES, ref.bytes);
    if next < ref.bytes {
      ReadingReturnsTheFile(host, states, at, scope, ref, file, next);
      RestOfTheFile(file, offset, next);
    } else {
      assert file[offset..next] == file[offset..];
    }
  }

  lemma RestOfTheFile(file: Bytes, offset: nat, next: nat)
    requires offset <= next <= |file|
    ensures file[offset..next] + file[next..] == file[offset..]
  {
  }

  /** The row is finished as this reference, and its file is there and is `file`. */
  ghost predicate FinishedAs(d: Durable, scope: Scope, ref: Reference, file: Bytes) {
    && d.Row(ref.id).Some?
    && var row := d.Row(ref.id).value;
    && row.scope == scope && row.phase.Verified? && row.reference == Some(ref)
    && d.HasFile(row) && d.files[PathOf(row)] == file
  }

  /** What a finished row was, it is as long as it lives; only its file may go. */
  lemma FinishedStays(d: Durable, d': Durable, scope: Scope, ref: Reference, file: Bytes)
    requires FinishedAs(d, scope, ref, file) && d'.Row(ref.id).Some? && Later(d, d', ref.id)
    requires RecordOk(d.Row(ref.id).value)
    ensures NothingElse(d', ref, file)
    ensures d'.HasFile(d'.Row(ref.id).value) ==> Serves(d', scope, ref, file)
  {
    var row, row' := d.Row(ref.id).value, d'.Row(ref.id).value;
    assert PathOf(row') == PathOf(row) && row'.reference == Some(ref) && !row'.phase.Uploading?;
    assert row.received == row.bytes && row.bytes > 0;
  }

  lemma CommittedIsFinished(
    host: Host, d: Durable, d': Durable, scope: Scope, id: Uuid, bytes: Bytes, image: Image, aborted: bool, now: nat)
    requires FinalizeCommit(host, d, scope, id, bytes, image, aborted, now).0.Ok?
    requires d' == FinalizeCommit(host, d, scope, id, bytes, image, aborted, now).1
    ensures var ref := FinalizeCommit(host, d, scope, id, bytes, image, aborted, now).0.value;
      ref.id == id && ReferenceOk(ref) && FinishedAs(d', scope, ref, bytes)
  {
    CommittedRow(host, d, scope, id, bytes, image, aborted, now);
  }

  /** From the state after an accepted commit on, while the row lives, its file is the decoded bytes or is gone. */
  lemma CommittedIsServed(
    host: Host, states: seq<Durable>, steps: seq<Step>, c: nat, k: nat, scope: Scope, id: Uuid, bytes: Bytes,
    image: Image, aborted: bool, now: nat)
    requires IsRun(host, states, steps) && c + 1 <= k && Lives(states, id, c + 1, k)
    requires FinalizeCommit(host, states[c], scope, id, bytes, image, aborted, now).0.Ok?
    requires states[c + 1] == FinalizeCommit(host, states[c], scope, id, bytes, image, aborted, now).1
    ensures var ref := FinalizeCommit(host, states[c], scope, id, bytes, image, aborted, now).0.value;
      && ref.id == id && ReferenceOk(ref)
      && NothingElse(states[k], ref, bytes)
      && (states[k].HasFile(states[k].Row(id).value) ==> Serves(states[k], scope, ref, bytes))
  {
    CommittedIsFinished(host, states[c], states[c + 1], scope, id, bytes, image, aborted, now);
    LivingRowMovesForward(host, states, steps, c + 1, k, id);
    RowIsOk(host, states, steps, c + 1, id);
    var ref := FinalizeCommit(host, states[c], scope, id, bytes, image, aborted, now).0.value;
    FinishedStays(states[c + 1], states[k], scope, ref, bytes);
  }

  /** A completely uploaded row that agrees with the image is read for the decoder as the image. */
  lemma CompleteUploadIsRead(host: Host, d: Durable, id: Uuid, sent: Bytes)
    requires Sound(host, d) && Agrees(d, id, sent)
    requires var row := d.Row(id).value;
      row.phase.Uploading? && row.received == row.bytes == |sent| && row.digest == host.sha256(sent)
    ensures var row := d.Row(id).value;
      FinalizeRead(host, d, row.scope, id) == if d.HasFile(row) then Ok(Decode(sent)) else Refused("ENOENT")
  {
    var row := d.Row(id).value;
    assert RecordOk(row);
    if d.HasFile(row) {
      assert Owned(d, PathOf(row));
      assert d.files[PathOf(row)] == Acked(d, row) == sent;
    }
  }

  /**
   The round trip. Take any run in which a row declared for an image lives, any turns for it that are parts of the
   image, and any commit of what finalize then reads. If all was acknowledged, finalize reads exactly the image; and
   reading from 0 at any states after the commit collects exactly the image, as long as its file is there.
   */
  lemma UploadThenReadIsIdentity(
    host: Host, states: seq<Durable>, steps: seq<Step>, turns: seq<Turn>, i: nat, j: nat, c: nat, at: nat -> nat,
    scope: Scope, id: Uuid, sent: Bytes, image: Image, aborted: bool, now: nat)
    requires IsRun(host, states, steps) && i <= j <= c && c + 1 < |states| && Lives(states, id, i, |states| - 1)
    requires Turns(host, states, steps, turns, id, i, j) && forall turn :: turn in turns ==> PartOf(turn, sent)
    requires var row := states[i].Row(id).value;
      row.scope == scope && row.received == 0 && row.bytes == |sent| && row.digest == host.sha256(sent)
    requires var row := states[j].Row(id).value; row.phase.Uploading? && row.received == row.bytes
    requires FinalizeCommit(host, states[c], scope, id, sent, image, aborted, now).0.Ok?
    requires states[c + 1] == FinalizeCommit(host, states[c], scope, id, sent, image, aborted, now).1
    requires forall o :: c < at(o) < |states|
    ensures FinalizeRead(host, states[j], scope, id)
         == if states[j].HasFile(states[j].Row(id).value) then Ok(Decode(sent)) else Refused("ENOENT")
    ensures var ref := FinalizeCommit(host, states[c], scope, id, sent, image, aborted, now).0.value;
      && ReferenceOk(ref)
      && var all := ReadOn(host, states, at, scope, ref, 0);
      && (all.Ok? ==> all.value == sent)
      && ((forall o: nat :: states[at(o)].HasFile(states[at(o)].Row(id).value)) ==> all == Ok(sent))
  {
    UploadsAgreeWithTheImage(host, states, steps, turns, id, sent, i, j);
    UploadIsRead(host, states, steps, i, j, id, sent);
    CommittedRow(host, states[c], scope, id, sent, image, aborted, now);
    LivingRowMovesForward(host, states, steps, i, c, id);
    var ref := FinalizeCommit(host, states[c], scope, id, sent, image, aborted, now).0.value;
    CommittedIsServed(host, states, steps, c, c + 1, scope, id, sent, image, aborted, now);
    forall o: nat
      ensures NothingElse(states[at(o)], ref, sent)
      ensures states[at(o)].HasFile(states[at(o)].Row(id).value) ==> Serves(states[at(o)], scope, ref, sent)
    {
      CommittedIsServed(host, states, steps, c, at(o), scope, id, sent, image, aborted, now);
    }
    ReadingReturnsTheFile(host, states, at, scope, ref, sent, 0);
    assert sent[0..] == sent;
  }

  lemma UploadIsRead(
    host: Host, states: seq<Durable>, steps: seq<Step>, i: nat, j: nat, id: Uuid, sent: Bytes)
    requires IsRun(host, states, steps) && i <= j && Lives(states, id, i, j) && Agrees(states[j], id, sent)
    requires states[i].Row(id).value.bytes == |sent| && states[i].Row(id).value.digest == host.sha256(sent)
    requires var row := states[j].Row(id).value; row.phase.Uploading? && row.received == row.bytes
    ensures var row := states[j].Row(id).value;
      && row.scope == states[i].Row(id).value.scope
      && FinalizeRead(host, states[j], row.scope, id)
         == if states[j].HasFile(row) then Ok(Decode(sent)) else Refused("ENOENT")
  {
    LivingRowMovesForward(host, states, steps, i, j, id);
    EveryStateIsSound(host, states, steps, j);
    CompleteUploadIsRead(host, states[j], id, sent);
  }

  /** An image that a message holds reads back at any later states as the file it had, whatever else happens. */
  lemma HeldImageReadsBack(
    host: Host, states: seq<Durable>, steps: seq<Step>, i: nat, at: nat -> nat, scope: Scope, ref: Reference)
    requires IsRun(host, states, steps) && i < |states| && Holds(host, states[i], ref)
    requires Readable(states[i], states[i].index.pins, scope, ref).Ok?
    requires forall o :: i <= at(o) < |states|
    ensures ReferenceOk(ref) && Path(ref.id, ref.media) in states[i].files
    ensures ReadOn(host, states, at, scope, ref, 0) == Ok(states[i].files[Path(ref.id, ref.media)])
  {
    EveryStateIsSound(host, states, steps, i);
    HeldReference(host, states[i], ref);
    var file := states[i].files[Path(ref.id, ref.media)];
    forall o: nat
      ensures NothingElse(states[at(o)], ref, file) && Serves(states[at(o)], scope, ref, file)
    {
      HeldIsServed(host, states, steps, i, at(o), scope, ref);
    }
    ReadingReturnsTheFile(host, states, at, scope, ref, file, 0);
    assert file[0..] == file;
  }

  lemma HeldIsServed(
    host: Host, states: seq<Durable>, steps: seq<Step>, i: nat, k: nat, scope: Scope, ref: Reference)
    requires IsRun(host, states, steps) && i <= k < |states| && Holds(host, states[i], ref)
    requires Readable(states[i], states[i].index.pins, scope, ref).Ok?
    ensures Path(ref.id, ref.media) in states[i].files
    ensures var file := states[i].files[Path(ref.id, ref.media)];
      NothingElse(states[k], ref, file) && Serves(states[k], scope, ref, file)
  {
    HeldForever(host, states, steps, i, k, ref);
    PinsOnlyGrow(host, states, steps, i, k);
    EveryStateIsSound(host, states, steps, i);
    EveryStateIsSound(host, states, steps, k);
    HeldReference(host, states[i], ref);
    HeldReference(host, states[k], ref);
    RetainedStays(host, states, steps, i, k, ref.id);
    assert forall pin :: pin in states[i].index.pins ==> pin in states[k].index.pins;
  }

  /** A retained row is left as it is. */
  ghost predicate KeepsRetained(d: Durable, d': Durable, id: Uuid) {
    d.Row(id).Some? && d.Row(id).value.phase.Retained? ==> d'.Row(id) == d.Row(id)
  }

  lemma RetainedStep(host: Host, states: seq<Durable>, steps: seq<Step>, k: nat, id: Uuid)
    requires IsRun(host, states, steps) && k < |steps|
    ensures KeepsRetained(states[k], states[k + 1], id)
  {
    EveryStateIsSound(host, states, steps, k);
    if states[k].Row(id).Some? && states[k].Row(id).value.phase.Retained? {
      StepFreezesRetained(host, states[k], steps[k], states[k + 1], id);
    }
  }

  lemma {:induction false} RetainedChains(states: seq<Durable>, i: nat, k: nat, id: Uuid)
    requires i <= k < |states| && forall m :: i <= m < k ==> KeepsRetained(states[m], states[m + 1], id)
    ensures KeepsRetained(states[i], states[k], id)
    decreases k
  {
    if i < k {
      RetainedChains(states, i, k - 1, id);
      assert KeepsRetained(states[k - 1], states[k - 1 + 1], id);
    }
  }

  /** A retained row is the same at every later state. */
  lemma RetainedStays(host: Host, states: seq<Durable>, steps: seq<Step>, i: nat, k: nat, id: Uuid)
    requires IsRun(host, states, steps) && i <= k < |states|
    ensures KeepsRetained(states[i], states[k], id)
  {
    forall m | i <= m < k
      ensures KeepsRetained(states[m], states[m + 1], id)
    {
      RetainedStep(host, states, steps, m, id);
    }
    RetainedChains(states, i, k, id);
  }
}
