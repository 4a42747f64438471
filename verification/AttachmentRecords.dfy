/** The attachment index: its rows, its limits, and what every list operation on the rows keeps. */
module AttachmentRecords {
  import opened Prelude

  // A UUID, a sha256 digest and a durable peer key are only ever compared for equality here.
  type Uuid = nat
  type Digest = nat
  type Key = nat

  const IMAGE_BYTES: nat := 8 * 1024 * 1024
  const MESSAGE_BYTES: nat := 16 * 1024 * 1024
  const IMAGES_PER_MESSAGE: nat := 4
  const CHUNK_BYTES: nat := 24 * 1024
  const DIMENSION: nat := 8192
  const PIXELS: nat := 16 * 1024 * 1024
  const UPLOAD_TTL_MS: nat := 30 * 60 * 1000
  const UNRETAINED_TTL_MS: nat := 24 * 60 * 60 * 1000
  const HOST_BYTES: nat := 256 * 1024 * 1024
  const HOST_UPLOADS: nat := 32
  const TARGET_UPLOADS: nat := 8
  const RECORDS: nat := 1024
  const PINS: nat := 4096
  const STORE_BYTES: nat := 4 * 1024 * 1024

  datatype Phase = Uploading | Verified | Retained
  datatype Media = Png | Jpeg

  datatype Reference = Reference(id: Uuid, digest: Digest, media: Media, bytes: nat, width: nat, height: nat)

  /** Who a row belongs to: an exact target, one registration of it, and the principal that uploads. */
  datatype Scope = Scope(target: Key, registration: Uuid, principal: Key)

  datatype Record = Record(
    id: Uuid, scope: Scope, media: Media, bytes: nat, digest: Digest,
    received: nat, phase: Phase, expiresAt: nat, reference: Option<Reference>)

  datatype Pin = Pin(messageId: Uuid, scope: Scope, references: seq<Reference>)
  datatype Tombstone = Tombstone(id: Uuid, scope: Scope, expiresAt: nat)
  datatype Store = Store(records: seq<Record>, pins: seq<Pin>, cancelled: seq<Tombstone>)
  datatype Path = Path(id: Uuid, media: Media)

  const EMPTY := Store([], [], [])

  function PathOf(row: Record): Path {
    Path(row.id, row.media)
  }

  // ---- Schema predicates ------------------------------------------------------------------------

  predicate ReferenceOk(ref: Reference) {
    && 0 < ref.bytes <= IMAGE_BYTES
    && 0 < ref.width <= DIMENSION
    && 0 < ref.height <= DIMENSION
    && ref.width * ref.height <= PIXELS
  }

  function ReferenceBytes(refs: seq<Reference>): nat {
    if refs == [] then 0 else refs[0].bytes + ReferenceBytes(refs[1..])
  }

  predicate ReferencesOk(refs: seq<Reference>) {
    && |refs| <= IMAGES_PER_MESSAGE
    && (forall ref :: ref in refs ==> ReferenceOk(ref))
    && ReferenceBytes(refs) <= MESSAGE_BYTES
  }

  predicate RecordOk(row: Record) {
    && 0 < row.bytes <= IMAGE_BYTES
    && row.received <= row.bytes
    && if row.phase.Uploading? then row.reference.None?
       else
         && row.received == row.bytes
         && row.reference.Some?
         && ReferenceOk(row.reference.value)
         && row.reference.value.id == row.id
         && row.reference.value.digest == row.digest
         && row.reference.value.bytes == row.bytes
         && row.reference.value.media == row.media
  }

  predicate StoreOk(store: Store) {
    && |store.records| <= RECORDS
    && (forall row :: row in store.records ==> RecordOk(row))
    && |store.pins| <= PINS
    && (forall pin :: pin in store.pins ==> ReferencesOk(pin.references))
    && |store.cancelled| <= RECORDS
  }

  // ---- Row lists --------------------------------------------------------------------------------

  /** The first row with this id. */
  function Find(rs: seq<Record>, id: Uuid): (row: Option<Record>)
    ensures row.Some? ==> row.value in rs && row.value.id == id
    ensures row.None? ==> forall r :: r in rs ==> r.id != id
  {
    if rs == [] then None
    else if rs[0].id == id then Some(rs[0])
    else Find(rs[1..], id)
  }

  /** The list after the row object with this id was changed in place. */
  function Put(rs: seq<Record>, row: Record): (out: seq<Record>)
    ensures |out| == |rs|
    ensures forall r :: r in out ==> r == row || r in rs
  {
    if rs == [] then []
    else if rs[0].id == row.id then [row] + rs[1..]
    else [rs[0]] + Put(rs[1..], row)
  }

  function Without(rs: seq<Record>, ids: set<Uuid>): (out: seq<Record>)
    ensures |out| <= |rs|
    ensures forall r :: r in out <==> r in rs && r.id !in ids
  {
    if rs == [] then []
    else if rs[0].id in ids then Without(rs[1..], ids)
    else [rs[0]] + Without(rs[1..], ids)
  }

  predicate Distinct(rs: seq<Record>) {
    rs == [] || (Find(rs[1..], rs[0].id).None? && Distinct(rs[1..]))
  }

  /** Bytes reserved by the rows, whether or not they have arrived. */
  function Reserved(rs: seq<Record>): nat {
    if rs == [] then 0 else rs[0].bytes + Reserved(rs[1..])
  }

  function Uploads(rs: seq<Record>): nat {
    if rs == [] then 0 else (if rs[0].phase.Uploading? then 1 else 0) + Uploads(rs[1..])
  }

  function UploadsTo(rs: seq<Record>, target: Key): nat {
    if rs == [] then 0
    else (if rs[0].phase.Uploading? && rs[0].scope.target == target then 1 else 0) + UploadsTo(rs[1..], target)
  }

  lemma {:induction false} FindPush(rs: seq<Record>, row: Record, id: Uuid)
    ensures Find(rs + [row], id) ==
            if Find(rs, id).Some? then Find(rs, id) else if row.id == id then Some(row) else None
  {
    if rs == [] {
      assert Find([row][1..], id).None?;
    } else {
      assert (rs + [row])[1..] == rs[1..] + [row];
      FindPush(rs[1..], row, id);
    }
  }

  lemma {:induction false} PushFigures(rs: seq<Record>, row: Record, target: Key)
    ensures Reserved(rs + [row]) == Reserved(rs) + row.bytes
    ensures Uploads(rs + [row]) == Uploads(rs) + if row.phase.Uploading? then 1 else 0
    ensures UploadsTo(rs + [row], target) ==
            UploadsTo(rs, target) + if row.phase.Uploading? && row.scope.target == target then 1 else 0
  {
    if rs == [] {
      assert ([row])[1..] == [];
    } else {
      assert (rs + [row])[1..] == rs[1..] + [row];
      PushFigures(rs[1..], row, target);
    }
  }

  lemma {:induction false} PushDistinct(rs: seq<Record>, row: Record)
    requires Distinct(rs) && Find(rs, row.id).None?
    ensures Distinct(rs + [row])
  {
    if rs != [] {
      assert (rs + [row])[1..] == rs[1..] + [row];
      FindPush(rs[1..], row, rs[0].id);
      PushDistinct(rs[1..], row);
    }
  }

  lemma {:induction false} FindPut(rs: seq<Record>, row: Record, id: Uuid)
    ensures Find(Put(rs, row), id) ==
            if id == row.id && Find(rs, id).Some? then Some(row) else Find(rs, id)
  {
    if rs != [] {
      if rs[0].id == row.id {
        assert Put(rs, row)[1..] == rs[1..];
      } else {
        assert Put(rs, row)[1..] == Put(rs[1..], row);
        FindPut(rs[1..], row, id);
      }
    }
  }

  lemma {:induction false} PutDistinct(rs: seq<Record>, row: Record)
    requires Distinct(rs)
    ensures Distinct(Put(rs, row))
  {
    if rs != [] {
      if rs[0].id == row.id {
        assert Put(rs, row)[1..] == rs[1..];
      } else {
        assert Put(rs, row)[1..] == Put(rs[1..], row);
        FindPut(rs[1..], row, rs[0].id);
        PutDistinct(rs[1..], row);
      }
    }
  }

  /** Changing a row without growing it, and never back to uploading, keeps every quota figure. */
  lemma {:induction false} PutNoHeavier(rs: seq<Record>, row: Record, target: Key)
    requires Find(rs, row.id).Some?
    requires Find(rs, row.id).value.bytes == row.bytes && Find(rs, row.id).value.scope == row.scope
    requires row.phase.Uploading? ==> Find(rs, row.id).value.phase.Uploading?
    ensures Reserved(Put(rs, row)) <= Reserved(rs)
    ensures Uploads(Put(rs, row)) <= Uploads(rs)
    ensures UploadsTo(Put(rs, row), target) <= UploadsTo(rs, target)
  {
    if rs[0].id == row.id {
      assert Put(rs, row)[1..] == rs[1..];
    } else {
      assert Put(rs, row)[1..] == Put(rs[1..], row);
      PutNoHeavier(rs[1..], row, target);
    }
  }

  lemma {:induction false} FindWithout(rs: seq<Record>, ids: set<Uuid>, id: Uuid)
    ensures Find(Without(rs, ids), id) == if id in ids then None else Find(rs, id)
  {
    if rs != [] {
      FindWithout(rs[1..], ids, id);
      if rs[0].id !in ids {
        assert Without(rs, ids)[1..] == Without(rs[1..], ids);
      }
    }
  }

  lemma {:induction false} WithoutDistinct(rs: seq<Record>, ids: set<Uuid>)
    requires Distinct(rs)
    ensures Distinct(Without(rs, ids))
  {
    if rs != [] {
      WithoutDistinct(rs[1..], ids);
      if rs[0].id !in ids {
        assert Without(rs, ids)[1..] == Without(rs[1..], ids);
        FindWithout(rs[1..], ids, rs[0].id);
      }
    }
  }

  lemma {:induction false} WithoutNoHeavier(rs: seq<Record>, ids: set<Uuid>, target: Key)
    ensures Reserved(Without(rs, ids)) <= Reserved(rs)
    ensures Uploads(Without(rs, ids)) <= Uploads(rs)
    ensures UploadsTo(Without(rs, ids), target) <= UploadsTo(rs, target)
  {
    if rs != [] {
      WithoutNoHeavier(rs[1..], ids, target);
      if rs[0].id !in ids {
        assert Without(rs, ids)[1..] == Without(rs[1..], ids);
      }
    }
  }

  /** A row that is in a list without repeated ids is the one `Find` answers. */
  lemma {:induction false} FindMember(rs: seq<Record>, row: Record)
    requires Distinct(rs) && row in rs
    ensures Find(rs, row.id) == Some(row)
  {
    if rs[0] != row {
      assert row in rs[1..];
      FindMember(rs[1..], row);
      assert Find(rs[1..], rs[0].id).None?;
    }
  }

  // ---- Retaining the rows a message cites -------------------------------------------------------

  /** `rows.forEach(row => row.phase = 'retained')` for the rows these references name. */
  function RetainAll(rs: seq<Record>, refs: seq<Reference>): (out: seq<Record>)
    decreases |refs|
  {
    if refs == [] then rs
    else match Find(rs, refs[0].id)
      case None => RetainAll(rs, refs[1..])
      case Some(row) => RetainAll(Put(rs, row.(phase := Retained)), refs[1..])
  }

  predicate CitesId(refs: seq<Reference>, id: Uuid) {
    exists ref :: ref in refs && ref.id == id
  }

  lemma {:induction false} FindRetainAll(rs: seq<Record>, refs: seq<Reference>, id: Uuid)
    ensures Find(RetainAll(rs, refs), id) ==
            if CitesId(refs, id) && Find(rs, id).Some? then Some(Find(rs, id).value.(phase := Retained))
            else Find(rs, id)
    decreases |refs|
  {
    if refs != [] {
      assert refs == [refs[0]] + refs[1..];
      assert CitesId(refs, id) <==> refs[0].id == id || CitesId(refs[1..], id);
      match Find(rs, refs[0].id)
      case None => FindRetainAll(rs, refs[1..], id);
      case Some(row) =>
        var next := row.(phase := Retained);
        FindPut(rs, next, id);
        FindRetainAll(Put(rs, next), refs[1..], id);
    }
  }

  lemma {:induction false} RetainAllKeeps(rs: seq<Record>, refs: seq<Reference>, target: Key)
    requires Distinct(rs)
    ensures Distinct(RetainAll(rs, refs))
    ensures |RetainAll(rs, refs)| == |rs|
    ensures Reserved(RetainAll(rs, refs)) <= Reserved(rs)
    ensures Uploads(RetainAll(rs, refs)) <= Uploads(rs)
    ensures UploadsTo(RetainAll(rs, refs), target) <= UploadsTo(rs, target)
    decreases |refs|
  {
    if refs != [] {
      match Find(rs, refs[0].id)
      case None => RetainAllKeeps(rs, refs[1..], target);
      case Some(row) =>
        var next := row.(phase := Retained);
        PutDistinct(rs, next);
        PutNoHeavier(rs, next, target);
        RetainAllKeeps(Put(rs, next), refs[1..], target);
    }
  }
}
