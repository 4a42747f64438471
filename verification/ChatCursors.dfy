/** The delivery and read cursors: one file, read, changed and replaced under a lock by two writers. */
module ChatCursors {
  import opened Prelude
  import opened ChatIdentity
  import opened ChatLetters

  type Key = string
  type Positions = map<Key, nat>

  datatype Pickup = Pickup(messageId: MessageId, ledgerIndex: Option<nat>, conditional: bool)

  /** `read` moves forward from both sides; every other field is the daemon's. */
  datatype Cursors =
    Cursors(read: Positions, delivered: Positions, pickups: map<Key, Pickup>, telegram: Option<nat>)

  datatype Content = Missing | Unreadable | Holding(cursors: Cursors)

  function At(positions: Positions, key: Key): nat {
    if key in positions then positions[key] else 0
  }

  // ---- The merge, as a join ---------------------------------------------------------------------

  function Join(a: Positions, b: Positions): Positions {
    map key | key in a.Keys + b.Keys :: Max(At(a, key), At(b, key))
  }

  predicate Behind(a: Positions, b: Positions) {
    a.Keys <= b.Keys && forall key :: key in a ==> a[key] <= b[key]
  }

  /** Copies `a`, then goes over the entries of `b` in whatever order they come. */
  method Furthest(a: Positions, b: Positions) returns (out: Positions)
    ensures out == Join(a, b)
  {
    out := a;
    var todo := b.Keys;
    while todo != {}
      invariant todo <= b.Keys
      invariant out.Keys == a.Keys + (b.Keys - todo)
      invariant forall key :: key in out ==>
                  out[key] == if key in b && key !in todo then Max(At(a, key), b[key]) else a[key]
      decreases todo
    {
      var key :| key in todo;
      out := out[key := Max(At(out, key), b[key])];
      todo := todo - {key};
    }
  }

  /** The merge is the least position map that neither side is ahead of. */
  lemma JoinIsLeast(a: Positions, b: Positions, c: Positions)
    ensures Behind(Join(a, b), c) <==> Behind(a, c) && Behind(b, c)
  {
    var j := Join(a, b);
    assert forall key :: key in a ==> key in j && a[key] <= j[key];
    assert forall key :: key in b ==> key in j && b[key] <= j[key];
  }

  lemma JoinAt(a: Positions, b: Positions, key: Key)
    ensures key in Join(a, b) <==> key in a || key in b
    ensures At(Join(a, b), key) == Max(At(a, key), At(b, key))
  {
  }

  lemma SamePositions(a: Positions, b: Positions)
    requires forall key :: (key in a <==> key in b) && At(a, key) == At(b, key)
    ensures a == b
  {
    assert forall key :: key in a ==> At(a, key) == a[key] && At(b, key) == b[key];
  }

  lemma JoinIsIdempotent(a: Positions)
    ensures Join(a, a) == a
  {
    forall key ensures (key in Join(a, a) <==> key in a) && At(Join(a, a), key) == At(a, key) {
      JoinAt(a, a, key);
    }
    SamePositions(Join(a, a), a);
  }

  lemma JoinCommutes(a: Positions, b: Positions)
    ensures Join(a, b) == Join(b, a)
  {
    forall key ensures (key in Join(a, b) <==> key in Join(b, a)) && At(Join(a, b), key) == At(Join(b, a), key) {
      JoinAt(a, b, key);
      JoinAt(b, a, key);
    }
    SamePositions(Join(a, b), Join(b, a));
  }

  lemma JoinsAssociate(a: Positions, b: Positions, c: Positions)
    ensures Join(Join(a, b), c) == Join(a, Join(b, c))
  {
    var ab, bc := Join(a, b), Join(b, c);
    var left, right := Join(ab, c), Join(a, bc);
    forall key
      ensures (key in left <==> key in right) && At(left, key) == At(right, key)
    {
      JoinAt(a, b, key);
      JoinAt(ab, c, key);
      JoinAt(b, c, key);
      JoinAt(a, bc, key);
    }
    SamePositions(left, right);
  }

  /** The merge is a join: idempotent, commutative, associative. */
  lemma JoinLaws(a: Positions, b: Positions, c: Positions)
    ensures Join(a, a) == a && Join(a, b) == Join(b, a) && Join(Join(a, b), c) == Join(a, Join(b, c))
  {
    JoinIsIdempotent(a);
    JoinCommutes(a, b);
    JoinsAssociate(a, b, c);
  }

  // ---- Arming at the present --------------------------------------------------------------------

  function ManagedKeys(ledger: seq<Slot>): set<Key> {
    set slot | slot in ledger && slot.Some? && slot.value.to.ToManaged? :: ManagedPeerKey(slot.value.to.peer)
  }

  function Armed(ledger: seq<Slot>): Positions {
    map key | key in ManagedKeys(ledger) :: |ledger|
  }

  lemma NextManagedKey(ledger: seq<Slot>, i: nat)
    requires i < |ledger|
    ensures ManagedKeys(ledger[..i + 1])
         == ManagedKeys(ledger[..i])
            + if ledger[i].Some? && ledger[i].value.to.ToManaged? then {ManagedPeerKey(ledger[i].value.to.peer)} else {}
  {
    assert ledger[..i + 1] == ledger[..i] + [ledger[i]];
  }

  method ArmedCursors(ledger: seq<Slot>) returns (c: Cursors)
    ensures c == Cursors(Armed(ledger), Armed(ledger), map[], None)
  {
    var at: Positions := map[];
    for i := 0 to |ledger|
      invariant at == map key | key in ManagedKeys(ledger[..i]) :: |ledger|
    {
      NextManagedKey(ledger, i);
      var slot := ledger[i];
      if slot.Some? && slot.value.to.ToManaged? {
        at := at[ManagedPeerKey(slot.value.to.peer) := |ledger|];
      }
    }
    assert ledger[..|ledger|] == ledger;
    c := Cursors(at, at, map[], None);
  }

  /**
   What arming settles: of everything already written, exactly the letters to managed sessions count as
   delivered. A letter to an App thread stays pending and would be pushed again.
   */
  lemma ArmingSettlesManagedMail(ledger: seq<Slot>, index: nat)
    requires index < |ledger| && ledger[index].Some?
    requires LedgerOk(ledger)
    ensures At(Armed(ledger), TargetKey(ledger[index].value.to)) > index <==> ledger[index].value.to.ToManaged?
  {
    var target := ledger[index].value.to;
    assert ledger[index] in ledger;
    if target.ToManaged? {
      assert TargetKey(target) in ManagedKeys(ledger);
    } else if TargetKey(target) in Armed(ledger) {
      var slot :| slot in ledger && slot.Some? && slot.value.to.ToManaged?
                  && ManagedPeerKey(slot.value.to.peer) == TargetKey(target);
      TargetKeysAreDestinations(slot.value.to, target);
    }
  }

  // ---- The file ---------------------------------------------------------------------------------

  function Loaded(content: Content, ledger: seq<Slot>): Result<Cursors> {
    match content
    case Missing => Ok(Cursors(Armed(ledger), Armed(ledger), map[], None))
    case Unreadable => Refused("cursors-unreadable")
    case Holding(c) => Ok(c)
  }

  /** What one locked write leaves: the file as it is now, changed; or, unreadable, as it was. */
  function Committed(content: Content, ledger: seq<Slot>, change: Cursors -> Cursors): Content {
    var latest := Loaded(content, ledger);
    if latest.Ok? then Holding(change(latest.value)) else content
  }

  class CursorFile {
    var content: Content

    /** A missing file is armed at the present and written; an unreadable one stops delivery. */
    method Load(ledger: seq<Slot>) returns (r: Result<Cursors>)
      modifies this
      ensures r == Loaded(old(content), ledger)
      ensures content == if r.Ok? then Holding(r.value) else old(content)
    {
      match content {
        case Missing =>
          var armed := ArmedCursors(ledger);
          content := Holding(armed);
          return Ok(armed);
        case Unreadable =>
          return Refused("cursors-unreadable");
        case Holding(c) =>
          return Ok(c);
      }
    }

    method SaveCursors(ledger: seq<Slot>, local: Cursors) returns (saved: bool)
      modifies this
      ensures saved == Loaded(old(content), ledger).Ok?
      ensures content == Committed(old(content), ledger, latest => Saved(latest, local))
    {
      var latest := Load(ledger);
      if latest.Refused? {
        return false;
      }
      var read := Furthest(latest.value.read, local.read);
      content := Holding(local.(read := read));
      return true;
    }

    method MarkRead(ledger: seq<Slot>, recipient: ManagedPeer, upTo: nat) returns (marked: bool)
      modifies this
      ensures marked == Loaded(old(content), ledger).Ok?
      ensures content == Committed(old(content), ledger, latest => Marked(latest, recipient, upTo))
    {
      var latest := Load(ledger);
      if latest.Refused? {
        return false;
      }
      var read := Furthest(latest.value.read, map[ManagedPeerKey(recipient) := upTo]);
      content := Holding(latest.value.(read := read));
      return true;
    }
  }

  // ---- Every interleaving of a daemon pass with inbox marks -------------------------------------

  function Saved(latest: Cursors, local: Cursors): Cursors {
    local.(read := Join(latest.read, local.read))
  }

  function Marked(latest: Cursors, recipient: ManagedPeer, upTo: nat): Cursors {
    latest.(read := Join(latest.read, map[ManagedPeerKey(recipient) := upTo]))
  }

  /** A locked write: an inbox mark, or the end of a pass that loaded some time ago and changed its copy. */
  datatype Write = Mark(recipient: ManagedPeer, upTo: nat) | Save(local: Cursors) {
    /** The read positions this write claims. */
    function Claims(): Positions {
      match this
      case Mark(recipient, upTo) => map[ManagedPeerKey(recipient) := upTo]
      case Save(local) => local.read
    }

    function Apply(c: Cursors): Cursors {
      match this
      case Mark(recipient, upTo) => Marked(c, recipient, upTo)
      case Save(local) => Saved(c, local)
    }
  }

  function After(c: Cursors, writes: seq<Write>): Cursors
    decreases |writes|
  {
    if writes == [] then c else After(writes[0].Apply(c), writes[1..])
  }

  /** The newest saved copy, whose fields the daemon's fields are. */
  function Newest(c: Cursors, writes: seq<Write>): Cursors {
    if writes == [] then c
    else if writes[|writes| - 1].Save? then writes[|writes| - 1].local
    else Newest(c, writes[..|writes| - 1])
  }

  lemma {:induction false} AfterLast(c: Cursors, writes: seq<Write>, last: Write)
    ensures After(c, writes + [last]) == last.Apply(After(c, writes))
    decreases |writes|
  {
    if writes == [] {
      assert (writes + [last])[1..] == [];
    } else {
      assert (writes + [last])[1..] == writes[1..] + [last];
      AfterLast(writes[0].Apply(c), writes[1..], last);
    }
  }

  /** Whatever the interleaving: positions end as the maximum of all claims, the other fields as last saved. */
  lemma {:induction false} ReadEndsAsTheMaximum(c: Cursors, writes: seq<Write>, key: Key)
    ensures At(c.read, key) <= At(After(c, writes).read, key)
    ensures forall w :: w in writes ==> At(w.Claims(), key) <= At(After(c, writes).read, key)
    ensures || At(After(c, writes).read, key) == At(c.read, key)
            || exists w :: w in writes && At(After(c, writes).read, key) == At(w.Claims(), key)
    ensures After(c, writes).(read := map[]) == Newest(c, writes).(read := map[])
    decreases |writes|
  {
    if writes != [] {
      var earlier, last := writes[..|writes| - 1], writes[|writes| - 1];
      assert writes == earlier + [last];
      AfterLast(c, earlier, last);
      ReadEndsAsTheMaximum(c, earlier, key);
      assert last in writes;
      assert After(c, writes).read == Join(After(c, earlier).read, last.Claims());
    }
  }

  /** No write moves anybody's read position back. */
  lemma ReadNeverDecreases(c: Cursors, writes: seq<Write>, i: nat, j: nat, key: Key)
    requires i <= j <= |writes|
    ensures At(After(c, writes[..i]).read, key) <= At(After(c, writes[..j]).read, key)
  {
    AfterSplit(c, writes[..i], writes[i..j]);
    assert writes[..j] == writes[..i] + writes[i..j];
    ReadEndsAsTheMaximum(After(c, writes[..i]), writes[i..j], key);
  }

  lemma {:induction false} AfterSplit(c: Cursors, first: seq<Write>, second: seq<Write>)
    ensures After(c, first + second) == After(After(c, first), second)
    decreases |first|
  {
    if first == [] {
      assert first + second == second;
    } else {
      assert (first + second)[1..] == first[1..] + second;
      AfterSplit(first[0].Apply(c), first[1..], second);
    }
  }

  /** A mark made at any moment of the daemon's work has the effect of one made after it. */
  lemma {:induction false} AMarkMayComeAnyTime(c: Cursors, mark: Write, rest: seq<Write>)
    requires mark.Mark?
    ensures After(c, [mark] + rest) == After(c, rest + [mark])
    decreases |rest|
  {
    AfterLast(c, rest, mark);
    assert ([mark] + rest)[1..] == rest;
    if rest != [] {
      var here := mark.Apply(c);
      JoinLaws(c.read, mark.Claims(), rest[0].Claims());
      JoinLaws(c.read, rest[0].Claims(), mark.Claims());
      JoinLaws(mark.Claims(), rest[0].Claims(), c.read);
      assert rest[0].Apply(here) == mark.Apply(rest[0].Apply(c));
      AMarkMayComeAnyTime(rest[0].Apply(c), mark, rest[1..]);
      AfterLast(rest[0].Apply(c), rest[1..], mark);
      assert ([mark] + rest[1..])[1..] == rest[1..];
      assert After(c, [mark] + rest) == After(here, rest);
    }
  }
}
