/** Serving bounded ranges of a verified image without hashing it again while its file has not changed. */
module AttachmentPreview {
  import opened Prelude
  import opened AttachmentRecords
  import opened AttachmentMachine
  import opened AttachmentSpec

  const MAX_VERIFIED_FILES: nat := 64

  // The device, inode, size and times of an open file, only ever compared for equality.
  type Stamp = nat

  /** Everything an open file ever shows: its stamp and its content at each instant. */
  datatype History = History(stampAt: nat -> Stamp, contentAt: nat -> Bytes) {
    /** Equal stamps mean that nothing changed in between. */
    ghost predicate Faithful() {
      forall i, j, k :: i <= j <= k && stampAt(i) == stampAt(k) ==> contentAt(j) == contentAt(i)
    }

    ghost predicate Steady(start: nat, end: nat) {
      forall t :: start <= t <= end ==> contentAt(t) == contentAt(end)
    }
  }

  datatype Entry = Entry(path: Path, stamp: Stamp, digest: Digest)

  function Get(entries: seq<Entry>, path: Path): (e: Option<Entry>)
    ensures e.Some? ==> e.value in entries && e.value.path == path
  {
    if entries == [] then None
    else if entries[0].path == path then Some(entries[0])
    else Get(entries[1..], path)
  }

  function Delete(entries: seq<Entry>, path: Path): (out: seq<Entry>)
    ensures |out| <= |entries|
    ensures forall e :: e in out <==> e in entries && e.path != path
  {
    if entries == [] then []
    else (if entries[0].path == path then [] else [entries[0]]) + Delete(entries[1..], path)
  }

  /** The module-level map, in insertion order, beside the file system it watches. */
  class Cache {
    const host: Host
    const world: Path -> History
    var entries: seq<Entry>
    var clock: nat

    ghost predicate Honest(e: Entry)
      reads this`clock
    {
      forall t :: clock <= t && world(e.path).stampAt(t) == e.stamp ==>
        host.sha256(world(e.path).contentAt(t)) == e.digest
    }

    ghost predicate Valid()
      reads this
    {
      && |entries| <= MAX_VERIFIED_FILES
      && (forall path :: world(path).Faithful())
      && (forall e :: e in entries ==> Honest(e))
    }

    /** Any amount of time passes, and the file may have changed. */
    method Tick()
      modifies `clock
      ensures old(clock) <= clock
    {
      var next: nat :| clock <= next;
      clock := next;
    }

    method Stamp(path: Path) returns (stamp: Stamp)
      modifies `clock
      ensures old(clock) <= clock && stamp == world(path).stampAt(clock)
    {
      Tick();
      stamp := world(path).stampAt(clock);
    }

    /** `readSync` in a loop: short reads are continued, an early end of file is refused. */
    method ExactRead(path: Path, offset: nat, length: nat) returns (r: Result<Bytes>)
      modifies `clock
      ensures old(clock) <= clock
      ensures r.Ok? ==> |r.value| == length
      ensures var h := world(path);
        h.Steady(old(clock), clock) ==>
          r == if offset + length <= |h.contentAt(clock)| || length == 0
               then Ok(if length == 0 then [] else h.contentAt(clock)[offset..offset + length])
               else Refused("attachment-short-read")
    {
      var h := world(path);
      var bytes: Bytes := [];
      while |bytes| < length
        invariant |bytes| <= length && old(clock) <= clock
        invariant h.Steady(old(clock), clock) && bytes != [] ==>
                    offset + |bytes| <= |h.contentAt(clock)| && bytes == h.contentAt(clock)[offset..offset + |bytes|]
        decreases length - |bytes|
      {
        ghost var earlier := clock;
        Tick();
        var content := h.contentAt(clock);
        assert h.Steady(old(clock), clock) ==> h.contentAt(earlier) == content && h.Steady(old(clock), earlier);
        var at := offset + |bytes|;
        if at >= |content| {
          return Refused("attachment-short-read");
        }
        var count: nat :| 0 < count <= length - |bytes| && count <= |content| - at;
        assert at <= at + count <= |content|;
        assert bytes != [] ==> content[offset..at] + content[at..at + count] == content[offset..at + count];
        bytes := bytes + content[at..at + count];
      }
      return Ok(bytes);
    }

    /** Feeds the file to the digest chunk by chunk. */
    method Rehash(path: Path, length: nat) returns (r: Result<Digest>)
      modifies `clock
      ensures old(clock) <= clock
      ensures world(path).Steady(old(clock), clock) && |world(path).contentAt(clock)| == length ==>
        r == Ok(host.sha256(world(path).contentAt(clock)))
    {
      var h := world(path);
      var hashed: Bytes := [];
      while |hashed| < length
        invariant |hashed| <= length && old(clock) <= clock
        invariant h.Steady(old(clock), clock) && |h.contentAt(clock)| == length ==>
                    hashed == h.contentAt(clock)[..|hashed|]
        decreases length - |hashed|
      {
        ghost var earlier := clock;
        var piece := ExactRead(path, |hashed|, Min(CHUNK_BYTES, length - |hashed|));
        assert h.Steady(old(clock), clock) ==>
          h.contentAt(earlier) == h.contentAt(clock) && h.Steady(old(clock), earlier) && h.Steady(earlier, clock);
        if piece.Refused? {
          return Refused(piece.reason);
        }
        assert h.Steady(old(clock), clock) && |h.contentAt(clock)| == length ==>
          h.contentAt(clock)[..|hashed|] + piece.value == h.contentAt(clock)[..|hashed| + |piece.value|];
        hashed := hashed + piece.value;
      }
      assert |h.contentAt(clock)| == length ==> h.contentAt(clock)[..length] == h.contentAt(clock);
      return Ok(host.sha256(hashed));
    }

    /** Remembers a file as verified: the newest entry, in place of its own or of the oldest one. */
    method Remember(e: Entry)
      requires Valid() && Honest(e)
      modifies `entries
      ensures Valid() && Get(entries, e.path) == Some(e)
    {
      entries := Delete(entries, e.path);
      if |entries| >= MAX_VERIFIED_FILES {
        entries := entries[1..];
      }
      GetPush(entries, e);
      entries := entries + [e];
    }

    /** Equal stamps at both ends pin down everything in between. */
    lemma Unchanged(path: Path, start: nat, end: nat)
      requires Valid() && start <= end && world(path).stampAt(start) == world(path).stampAt(end)
      ensures forall t :: start <= t <= end ==> world(path).contentAt(t) == world(path).contentAt(start)
      ensures forall i, j :: start <= i <= j <= end ==> world(path).Steady(i, j)
    {
      var h := world(path);
      assert h.Faithful();
      assert forall t :: start <= t <= end ==> h.contentAt(t) == h.contentAt(start);
    }

    predicate HonestAt(e: Entry, at: nat) {
      world(e.path).stampAt(at) == e.stamp ==> host.sha256(world(e.path).contentAt(at)) == e.digest
    }

    /** Neither content nor stamp of the file changes in this time. */
    ghost predicate Still(path: Path, start: nat, end: nat) {
      forall t :: start <= t <= end ==>
        world(path).contentAt(t) == world(path).contentAt(start) && world(path).stampAt(t) == world(path).stampAt(start)
    }

    /**
     Makes sure that what the file showed at `start` hashes to the reference: it was hashed before under the same
     stamp, or it is hashed now. A file that does not change is refused only when it does not hash to it.
     */
    method EnsureVerified(path: Path, ref: Reference, stamp: Stamp, ghost start: nat, ghost sized: nat)
      returns (check: Check)
      requires Valid() && start <= sized <= clock && stamp == world(path).stampAt(start)
      requires |world(path).contentAt(sized)| == ref.bytes
      requires forall e :: e in entries ==> HonestAt(e, start)
      modifies this
      ensures Valid() && old(clock) <= clock
      ensures check.Pass? ==> host.sha256(world(path).contentAt(start)) == ref.digest
      ensures Still(path, start, clock) ==>
        check == if host.sha256(world(path).contentAt(start)) == ref.digest then Pass else Fail("attachment-digest")
    {
      var cached := Get(entries, path);
      if cached.Some? && cached.value.stamp == stamp && cached.value.digest == ref.digest {
        assert HonestAt(cached.value, start);
        return Pass;
      }
      ghost var began := clock;
      var digest := Rehash(path, ref.bytes);
      ghost var hashed := clock;
      assert Still(path, start, hashed) ==> world(path).Steady(began, hashed);
      if digest.Refused? {
        return Fail(digest.reason);
      }
      var after := Stamp(path);
      if !(digest.value == ref.digest && stamp == after) {
        return Fail("attachment-digest");
      }
      Unchanged(path, start, clock);
      assert world(path).Steady(began, hashed);
      Remember(Entry(path, stamp, ref.digest));
      return Pass;
    }

    /** Reads the range and serves it only if the file still shows the stamp it was verified under. */
    method ReadVerified(
      path: Path, ref: Reference, stamp: Stamp, offset: nat, ghost start: nat, ghost sized: nat)
      returns (r: Result<Bytes>)
      requires Valid() && start <= sized <= clock && stamp == world(path).stampAt(start)
      requires offset <= ref.bytes == |world(path).contentAt(sized)|
      requires host.sha256(world(path).contentAt(start)) == ref.digest
      modifies `clock
      ensures Valid() && old(clock) <= clock
      ensures r.Ok? ==> r == Previewed(host, world(path).contentAt(clock), ref, offset)
      ensures Still(path, start, clock) ==> r == Previewed(host, world(path).contentAt(clock), ref, offset)
    {
      ghost var reading := clock;
      var bytes := ExactRead(path, offset, Min(CHUNK_BYTES, ref.bytes - offset));
      ghost var read := clock;
      assert Still(path, start, read) ==> world(path).Steady(reading, read);
      if bytes.Refused? {
        return Refused(bytes.reason);
      }
      var after := Stamp(path);
      if stamp != after {
        return Refused("attachment-preview-changed");
      }
      Unchanged(path, start, clock);
      assert world(path).Steady(reading, read);
      ghost var file := world(path).contentAt(clock);
      assert file == world(path).contentAt(read) == world(path).contentAt(sized);
      assert bytes.value == file[offset..Min(offset + CHUNK_BYTES, ref.bytes)];
      return Ok(bytes.value);
    }

    /**
     A range is only ever served from content that hashes to the reference; and while the file does not change
     during the call, the answer is the one hashing every time would give.
     */
    method PreviewBytes(path: Path, ref: Reference, offset: nat) returns (r: Result<Bytes>)
      requires Valid()
      modifies this
      ensures Valid() && old(clock) <= clock
      ensures r.Ok? ==> r == Previewed(host, world(path).contentAt(clock), ref, offset)
      ensures Still(path, old(clock), clock) ==> r == Previewed(host, world(path).contentAt(clock), ref, offset)
    {
      var before := Stamp(path);
      ghost var start := clock;
      assert forall e :: e in entries ==> HonestAt(e, start);
      Tick();
      ghost var sized := clock;
      if !(|world(path).contentAt(clock)| == ref.bytes && offset <= ref.bytes) {
        return Refused("attachment-preview-size");
      }
      var verified := EnsureVerified(path, ref, before, start, sized);
      if verified.Fail? {
        return Refused(verified.reason);
      }
      r := ReadVerified(path, ref, before, offset, start, sized);
    }
  }

  lemma {:induction false} GetPush(entries: seq<Entry>, e: Entry)
    requires forall x :: x in entries ==> x.path != e.path
    ensures Get(entries + [e], e.path) == Some(e)
  {
    if entries != [] {
      assert (entries + [e])[1..] == entries[1..] + [e];
      GetPush(entries[1..], e);
    }
  }
}
