/** Pinning and forking as steps of the machine: what they add is exact, copied, and keeps the store sound. */
module AttachmentPinning {
  import opened Prelude
  import opened AttachmentRecords
  import opened AttachmentMachine
  import opened AttachmentInvariant
  import opened AttachmentSpec

  /** What a fork adds are copies of pins the source already had, within the pin limit. */
  lemma {:induction false} CopiesOfOriginals(
    d: Durable, start: seq<Pin>, pins: seq<Pin>, original: seq<Pin>, destination: Endpoint)
    requires InheritAll(d, pins, original, destination).Ok?
    requires start <= pins && |pins| <= PINS
    requires forall pin :: pin in original ==> pin in start
    requires forall p :: p in pins[|start|..] ==>
      exists q :: q in start && q.messageId == p.messageId && q.references == p.references
    ensures var all := InheritAll(d, pins, original, destination).value;
      && start <= all && |all| <= PINS
      && forall p :: p in all[|start|..] ==>
           exists q :: q in start && q.messageId == p.messageId && q.references == p.references
    decreases |original|
  {
    if original != [] {
      var next := InheritOne(d, pins, original[0], destination).value;
      if next != pins {
        assert next[|start|..] == pins[|start|..] + [ForkedPin(original[0], destination)];
        assert original[0] in start;
      }
      CopiesOfOriginals(d, start, next, original[1..], destination);
    }
  }

  /** Marking other rows retained does not change which file a reference is read from. */
  lemma SameRowToRead(host: Host, d: Durable, refs: seq<Reference>, ref: Reference)
    requires d.Row(ref.id).Some?
    ensures Find(RetainAll(d.index.records, refs), ref.id).Some?
    ensures ExactBytes(host, d, Find(RetainAll(d.index.records, refs), ref.id).value, ref)
            == ExactBytes(host, d, d.Row(ref.id).value, ref)
  {
    FindRetainAll(d.index.records, refs, ref.id);
  }

  lemma {:induction false} ExactRows(host: Host, d: Durable, scope: Scope, refs: seq<Reference>)
    requires ReadableAll(d, d.index.pins, scope, refs).Pass? && ExactAll(host, d, refs).Pass?
    ensures forall ref :: ref in refs ==> Exact(host, d, ref)
  {
    if refs != [] {
      ExactRows(host, d, scope, refs[1..]);
    }
  }

  lemma {:induction false} RetainAllSnoc(rs: seq<Record>, refs: seq<Reference>, ref: Reference)
    ensures RetainAll(rs, refs + [ref]) ==
            match Find(RetainAll(rs, refs), ref.id)
            case None => RetainAll(rs, refs)
            case Some(row) => Put(RetainAll(rs, refs), row.(phase := Retained))
    decreases |refs|
  {
    if refs == [] {
      assert ([] + [ref])[1..] == [];
    } else {
      assert (refs + [ref])[1..] == refs[1..] + [ref];
      match Find(rs, refs[0].id)
      case None => RetainAllSnoc(rs, refs[1..], ref);
      case Some(row) => RetainAllSnoc(Put(rs, row.(phase := Retained)), refs[1..], ref);
    }
  }

  lemma {:induction false} ReadableRows(d: Durable, pins: seq<Pin>, scope: Scope, refs: seq<Reference>)
    requires ReadableAll(d, pins, scope, refs).Pass?
    ensures forall ref :: ref in refs ==> Readable(d, pins, scope, ref).Ok?
  {
    if refs != [] {
      ReadableRows(d, pins, scope, refs[1..]);
    }
  }

  lemma {:induction false} PinPush(pins: seq<Pin>, pin: Pin)
    requires FindPin(pins, pin.messageId, pin.scope.target).None?
    ensures FindPin(pins + [pin], pin.messageId, pin.scope.target) == Some(pin)
  {
    if pins != [] {
      assert (pins + [pin])[1..] == pins[1..] + [pin];
      PinPush(pins[1..], pin);
    }
  }

  /** A pin is a legal step, so the store it leaves is sound: every image it cites is retained and held. */
  lemma PinnedKeepsSound(
    host: Host, d: Durable, scope: Scope, messageId: Uuid, refs: seq<Reference>, accepted: Result<Uuid>)
    requires Sound(host, d) && ReferencesOk(refs)
    ensures Sound(host, Pinned(host, d, scope, messageId, refs, accepted).1)
  {
    var d' := Pinned(host, d, scope, messageId, refs, accepted).1;
    if d' != d {
      ExactRows(host, d, scope, refs);
      assert PinMessageStep(host, d, Pin(messageId, scope, refs), d');
      PinMessageKeeps(host, d, Pin(messageId, scope, refs), d');
    }
  }

  /** A fork is a legal step: it cites nothing the source did not hold. */
  lemma ForkedKeepsSound(host: Host, d: Durable, source: Endpoint, destination: Endpoint, aborted: bool)
    requires Sound(host, d)
    ensures Sound(host, Forked(host, d, source, destination, aborted).1)
  {
    var d' := Forked(host, d, source, destination, aborted).1;
    if d' != d {
      var start, original := d.index.pins, PinsOf(d.index.pins, source);
      CopiesOfOriginals(d, start, start, original, destination);
      var all := InheritAll(d, start, original, destination).value;
      assert all == start + all[|start|..];
      assert InheritStep(d, all[|start|..], d');
      InheritKeeps(host, d, all[|start|..], d');
    }
  }
}
