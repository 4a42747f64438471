/** The bounded batch: several waiting letters arrive as one turn, and none of them waits for ever. */
module ChatCoalesce {
  import opened Prelude
  import opened ChatIdentity
  import opened ChatLetters
  import opened ChatCursors
  import opened ChatSettlement

  const MAX_BATCH: nat := 8
  const MAX_BATCH_BYTES: nat := 16_000

  // ---- What the loops compute -------------------------------------------------------------------

  /** Deliverable to a managed recipient at its boundary now. */
  predicate WaitsFor(slot: Slot, key: Key, acked: set<MessageId>, now: int) {
    && slot.Some? && slot.value.to.ToManaged? && ManagedPeerKey(slot.value.to.peer) == key
    && IsConditional(slot.value) && slot.value.id !in acked && IsDue(slot.value, now)
  }

  function Waiting(ledger: seq<Slot>, key: Key, acked: set<MessageId>, now: int): seq<Letter> {
    if ledger == [] then []
    else
      var last := ledger[|ledger| - 1];
      Waiting(ledger[..|ledger| - 1], key, acked, now)
      + if WaitsFor(last, key, acked, now) then [last.value] else []
  }

  /** The letters a person is said to have written, or those of everybody else. */
  function Class(ms: seq<Letter>, human: bool): seq<Letter> {
    if ms == [] then [] else (if ms[0].human == human then [ms[0]] else []) + Class(ms[1..], human)
  }

  function People(ms: seq<Letter>): seq<Letter> {
    Class(ms, true)
  }

  function Agents(ms: seq<Letter>): seq<Letter> {
    Class(ms, false)
  }

  /** The letters whose ids are named, in their order. */
  function Only(ms: seq<Letter>, ids: set<MessageId>): seq<Letter> {
    if ms == [] then [] else (if ms[0].id in ids then [ms[0]] else []) + Only(ms[1..], ids)
  }

  function Ids(ms: seq<Letter>): set<MessageId> {
    set m | m in ms :: m.id
  }

  function TotalBytes(ms: seq<Letter>): nat {
    if ms == [] then 0 else Utf8Length(ms[0].body) + TotalBytes(ms[1..])
  }

  predicate DistinctIds(ms: seq<Letter>) {
    forall i, j :: 0 <= i < j < |ms| ==> ms[i].id != ms[j].id
  }

  /** Who may be selected, first to last: the oldest whoever wrote it, then people, then agents. */
  function Order(waiting: seq<Letter>): seq<Letter>
    requires waiting != []
  {
    [waiting[0]] + People(waiting[1..]) + Agents(waiting[1..])
  }

  /** Where the bounds stop the selection. */
  ghost predicate StopsAt(order: seq<Letter>, count: nat) {
    && 1 <= count <= |order| && |Ids(order[..count])| <= MAX_BATCH
    && (count == 1 || TotalBytes(order[..count]) <= MAX_BATCH_BYTES)
    && (|| count == |order|
        || |Ids(order[..count])| == MAX_BATCH
        || TotalBytes(order[..count + 1]) > MAX_BATCH_BYTES)
  }

  lemma {:induction false} TotalOfConcat(a: seq<Letter>, b: seq<Letter>)
    ensures TotalBytes(a + b) == TotalBytes(a) + TotalBytes(b)
  {
    if a == [] {
      assert a + b == b;
    } else {
      assert (a + b)[1..] == a[1..] + b;
      TotalOfConcat(a[1..], b);
    }
  }

  lemma TotalGrows(ms: seq<Letter>, i: nat, j: nat)
    requires i <= j <= |ms|
    ensures TotalBytes(ms[..i]) <= TotalBytes(ms[..j])
    ensures j == i + 1 ==> TotalBytes(ms[..j]) == TotalBytes(ms[..i]) + Utf8Length(ms[i].body)
  {
    assert ms[..i] + ms[i..j] == ms[..j];
    TotalOfConcat(ms[..i], ms[i..j]);
  }

  ghost predicate IsBatch(waiting: seq<Letter>, batch: seq<Letter>) {
    if waiting == [] then batch == []
    else exists count: nat | count <= |Order(waiting)| ::
           StopsAt(Order(waiting), count) && batch == Only(waiting, Ids(Order(waiting)[..count]))
  }

  lemma IdsSnoc(order: seq<Letter>, count: nat)
    requires count < |order|
    ensures Ids(order[..count + 1]) == Ids(order[..count]) + {order[count].id}
  {
    assert order[..count + 1] == order[..count] + [order[count]];
  }

  /** The first `at` candidates have been taken within the bounds. */
  ghost predicate Taken(order: seq<Letter>, at: nat, selected: set<MessageId>, bytes: nat) {
    && at <= |order| && selected == Ids(order[..at]) && bytes == TotalBytes(order[..at])
    && |selected| <= MAX_BATCH && (at > 0 ==> order[0].id in selected) && (at <= 1 || bytes <= MAX_BATCH_BYTES)
  }

  lemma TakeOne(order: seq<Letter>, at: nat, selected: set<MessageId>, bytes: nat)
    requires Taken(order, at, selected, bytes) && at < |order| && |selected| < MAX_BATCH
    requires at > 0 ==> bytes + Utf8Length(order[at].body) <= MAX_BATCH_BYTES
    ensures Taken(order, at + 1, selected + {order[at].id}, bytes + Utf8Length(order[at].body))
  {
    IdsSnoc(order, at);
    TotalGrows(order, at, at + 1);
  }

  lemma TakeNoMore(order: seq<Letter>, at: nat, selected: set<MessageId>, bytes: nat)
    requires Taken(order, at, selected, bytes) && order != []
    requires at < |order| ==>
               || |selected| >= MAX_BATCH
               || (at > 0 && bytes + Utf8Length(order[at].body) > MAX_BATCH_BYTES)
    ensures StopsAt(order, at)
  {
    if at < |order| {
      TotalGrows(order, at, at + 1);
    }
  }

  /** The greedy loop: adds candidates until a bound would break, the first one always. */
  method Select(order: seq<Letter>) returns (selected: set<MessageId>)
    requires order != []
    ensures exists count: nat | count <= |order| :: StopsAt(order, count) && selected == Ids(order[..count])
  {
    selected := {};
    var bytes: nat := 0;
    var at: nat := 0;
    while at < |order|
      invariant Taken(order, at, selected, bytes)
    {
      ghost var earlier := bytes;
      bytes := bytes + Utf8Length(order[at].body);
      if |selected| >= MAX_BATCH || (|selected| > 0 && bytes > MAX_BATCH_BYTES) {
        TakeNoMore(order, at, selected, earlier);
        return;
      }
      TakeOne(order, at, selected, earlier);
      selected := selected + {order[at].id};
      at := at + 1;
    }
    TakeNoMore(order, at, selected, bytes);
  }

  method Coalesce(ledger: seq<Slot>, key: Key, acked: set<MessageId>, now: int) returns (batch: seq<Letter>)
    ensures IsBatch(Waiting(ledger, key, acked, now), batch)
  {
    var waiting: seq<Letter> := [];
    for i := 0 to |ledger|
      invariant waiting == Waiting(ledger[..i], key, acked, now)
    {
      assert ledger[..i + 1][..i] == ledger[..i];
      if WaitsFor(ledger[i], key, acked, now) {
        waiting := waiting + [ledger[i].value];
      }
    }
    assert ledger[..|ledger|] == ledger;
    if waiting == [] {
      return [];
    }
    var selected := Select(Order(waiting));
    return Only(waiting, selected);
  }

  // ---- The specification of a batch -------------------------------------------------------------

  /** The next candidate that was not selected. */
  function Next(waiting: seq<Letter>, batch: seq<Letter>): Letter
    requires waiting != [] && batch != []
    requires People(batch[1..]) <= People(waiting[1..]) && Agents(batch[1..]) <= Agents(waiting[1..])
    requires People(batch[1..]) != People(waiting[1..]) || Agents(batch[1..]) != Agents(waiting[1..])
  {
    if People(batch[1..]) != People(waiting[1..]) then People(waiting[1..])[|People(batch[1..])|]
    else Agents(waiting[1..])[|Agents(batch[1..])|]
  }

  /** The part of the promises that says who is in the batch. */
  ghost predicate TakesInOrder(waiting: seq<Letter>, batch: seq<Letter>)
    requires waiting != []
  {
    && batch != [] && batch[0] == waiting[0]
    && People(batch[1..]) <= People(waiting[1..]) && Agents(batch[1..]) <= Agents(waiting[1..])
    && (Agents(batch[1..]) != [] ==> People(batch[1..]) == People(waiting[1..]))
  }

  /** Everything a batch promises, without saying how it was found. */
  ghost predicate MeetsPromises(waiting: seq<Letter>, batch: seq<Letter>)
    requires waiting != []
  {
    // In the order written.
    && batch == Only(waiting, Ids(batch))
    // Bounded, except that the oldest travels however long it is.
    && |batch| <= MAX_BATCH && (|batch| == 1 || TotalBytes(batch) <= MAX_BATCH_BYTES)
    // The oldest first, then people by age; an agent's only when no person's is left waiting.
    && TakesInOrder(waiting, batch)
    // Nothing is held back that would still fit.
    && (|| (People(batch[1..]) == People(waiting[1..]) && Agents(batch[1..]) == Agents(waiting[1..]))
        || |batch| == MAX_BATCH
        || TotalBytes(batch) + Utf8Length(Next(waiting, batch).body) > MAX_BATCH_BYTES)
  }

  lemma {:induction false} ClassMembers(ms: seq<Letter>, human: bool)
    ensures forall m :: m in Class(ms, human) <==> m in ms && m.human == human
  {
    if ms != [] {
      ClassMembers(ms[1..], human);
      assert ms == [ms[0]] + ms[1..];
    }
  }

  lemma {:induction false} ClassTotals(ms: seq<Letter>)
    ensures |ms| == |People(ms)| + |Agents(ms)|
    ensures TotalBytes(ms) == TotalBytes(People(ms)) + TotalBytes(Agents(ms))
  {
    if ms != [] {
      ClassTotals(ms[1..]);
      var human := ms[0].human;
      assert Class(ms, human)[1..] == Class(ms[1..], human);
      assert Class(ms, !human) == Class(ms[1..], !human);
    }
  }

  lemma {:induction false} OnlyMembers(ms: seq<Letter>, ids: set<MessageId>)
    ensures forall m :: m in Only(ms, ids) <==> m in ms && m.id in ids
  {
    if ms != [] {
      OnlyMembers(ms[1..], ids);
      assert ms == [ms[0]] + ms[1..];
    }
  }

  lemma {:induction false} OnlyOfClass(ms: seq<Letter>, human: bool, ids: set<MessageId>)
    ensures Class(Only(ms, ids), human) == Only(Class(ms, human), ids)
  {
    if ms != [] {
      OnlyOfClass(ms[1..], human, ids);
      var first, rest := ms[0], ms[1..];
      var kept, same := Only(ms, ids), Class(ms, human);
      assert first.id in ids ==> kept[0] == first && kept[1..] == Only(rest, ids);
      assert first.human == human ==> same[0] == first && same[1..] == Class(rest, human);
      assert first.id !in ids ==> kept == Only(rest, ids);
      assert first.human != human ==> same == Class(rest, human);
    }
  }

  lemma {:induction false} OnlyAPrefix(ms: seq<Letter>, ids: set<MessageId>, n: nat)
    requires n <= |ms| && forall i :: 0 <= i < |ms| ==> (ms[i].id in ids <==> i < n)
    ensures Only(ms, ids) == ms[..n]
  {
    if ms != [] {
      OnlyAPrefix(ms[1..], ids, if n == 0 then 0 else n - 1);
      assert n > 0 ==> ms[..n] == [ms[0]] + ms[1..][..n - 1];
    }
  }

  lemma DistinctConcat(a: seq<Letter>, b: seq<Letter>)
    requires DistinctIds(a) && DistinctIds(b)
    requires forall x, y :: x in a && y in b ==> x.id != y.id
    ensures DistinctIds(a + b)
  {
    assert forall i :: 0 <= i < |a| ==> a[i] in a;
    assert forall i :: 0 <= i < |b| ==> b[i] in b;
  }

  lemma DistinctTail(ms: seq<Letter>)
    requires ms != [] && DistinctIds(ms)
    ensures DistinctIds(ms[1..]) && forall m :: m in ms[1..] ==> m.id != ms[0].id
  {
    forall m | m in ms[1..]
      ensures m.id != ms[0].id
    {
      var i :| 0 <= i < |ms[1..]| && ms[1..][i] == m;
      assert ms[i + 1] == m;
    }
  }

  lemma {:induction false} ClassIsDistinct(ms: seq<Letter>, human: bool)
    requires DistinctIds(ms)
    ensures DistinctIds(Class(ms, human))
  {
    if ms != [] {
      DistinctTail(ms);
      ClassIsDistinct(ms[1..], human);
      if ms[0].human == human {
        ClassMembers(ms[1..], human);
        DistinctConcat([ms[0]], Class(ms[1..], human));
      }
    }
  }

  lemma OrderIsDistinct(waiting: seq<Letter>)
    requires waiting != [] && DistinctIds(waiting)
    ensures DistinctIds(Order(waiting))
  {
    var rest := waiting[1..];
    DistinctTail(waiting);
    ClassMembers(rest, true);
    ClassMembers(rest, false);
    ClassIsDistinct(rest, true);
    ClassIsDistinct(rest, false);
    DistinctConcat([waiting[0]], People(rest));
    forall x, y | x in [waiting[0]] + People(rest) && y in Agents(rest)
      ensures x.id != y.id
    {
      SameIdSameLetter(waiting, x, y);
    }
    DistinctConcat([waiting[0]] + People(rest), Agents(rest));
  }

  lemma SameIdSameLetter(ms: seq<Letter>, x: Letter, y: Letter)
    requires DistinctIds(ms) && x in ms && y in ms
    ensures x.id == y.id ==> x == y
  {
    var i :| 0 <= i < |ms| && ms[i] == x;
    var j :| 0 <= j < |ms| && ms[j] == y;
  }

  lemma {:induction false} DistinctCount(ms: seq<Letter>)
    requires DistinctIds(ms)
    ensures |Ids(ms)| == |ms|
  {
    if ms != [] {
      DistinctCount(ms[1..]);
      assert Ids(ms) == {ms[0].id} + Ids(ms[1..]);
      assert forall m :: m in ms[1..] ==> m.id != ms[0].id;
    }
  }

  lemma PrefixIds(ms: seq<Letter>, count: nat)
    requires DistinctIds(ms) && count <= |ms|
    ensures forall i :: 0 <= i < |ms| ==> (ms[i].id in Ids(ms[..count]) <==> i < count)
  {
    assert forall i :: 0 <= i < count ==> ms[i] == ms[..count][i] && ms[i] in ms[..count];
  }

  /** How many people, beside the oldest letter, are among the first `count` candidates. */
  function PeopleTaken(waiting: seq<Letter>, count: nat): nat
    requires waiting != [] && 1 <= count
  {
    Min(count - 1, |People(waiting[1..])|)
  }

  lemma PrefixOfThree(x: Letter, p: seq<Letter>, a: seq<Letter>, count: nat)
    requires 1 <= count <= 1 + |p| + |a|
    ensures var n := Min(count - 1, |p|);
      ([x] + p + a)[..count] == [x] + p[..n] + a[..count - 1 - n]
  {
    var n := Min(count - 1, |p|);
    if n < |p| {
      assert ([x] + p + a)[..count] == [x] + p[..n];
      assert a[..count - 1 - n] == [];
    } else {
      assert p[..n] == p;
    }
  }

  lemma OrderSplits(waiting: seq<Letter>, count: nat)
    requires waiting != [] && 1 <= count <= |Order(waiting)|
    ensures var a := PeopleTaken(waiting, count);
      && 0 <= count - 1 - a <= |Agents(waiting[1..])|
      && Order(waiting)[..count] == [waiting[0]] + People(waiting[1..])[..a] + Agents(waiting[1..])[..count - 1 - a]
  {
    PrefixOfThree(waiting[0], People(waiting[1..]), Agents(waiting[1..]), count);
  }

  lemma OrderOfPerson(waiting: seq<Letter>, i: nat)
    requires waiting != [] && i < |People(waiting[1..])|
    ensures 1 + i < |Order(waiting)| && Order(waiting)[1 + i] == People(waiting[1..])[i]
  {
  }

  lemma OrderOfAgent(waiting: seq<Letter>, i: nat)
    requires waiting != [] && i < |Agents(waiting[1..])|
    ensures var at := 1 + |People(waiting[1..])| + i;
      at < |Order(waiting)| && Order(waiting)[at] == Agents(waiting[1..])[i]
  {
  }

  lemma SelectedPeople(waiting: seq<Letter>, count: nat)
    requires waiting != [] && DistinctIds(Order(waiting)) && 1 <= count <= |Order(waiting)|
    ensures Only(People(waiting[1..]), Ids(Order(waiting)[..count]))
         == People(waiting[1..])[..PeopleTaken(waiting, count)]
  {
    PrefixIds(Order(waiting), count);
    var P := People(waiting[1..]);
    forall i | 0 <= i < |P|
      ensures P[i].id in Ids(Order(waiting)[..count]) <==> i < PeopleTaken(waiting, count)
    {
      OrderOfPerson(waiting, i);
    }
    OnlyAPrefix(P, Ids(Order(waiting)[..count]), PeopleTaken(waiting, count));
  }

  lemma SelectedAgents(waiting: seq<Letter>, count: nat)
    requires waiting != [] && DistinctIds(Order(waiting)) && 1 <= count <= |Order(waiting)|
    ensures var b := count - 1 - PeopleTaken(waiting, count);
      && 0 <= b <= |Agents(waiting[1..])|
      && Only(Agents(waiting[1..]), Ids(Order(waiting)[..count])) == Agents(waiting[1..])[..b]
  {
    PrefixIds(Order(waiting), count);
    var A := Agents(waiting[1..]);
    var b := count - 1 - PeopleTaken(waiting, count);
    forall i | 0 <= i < |A|
      ensures A[i].id in Ids(Order(waiting)[..count]) <==> i < b
    {
      OrderOfAgent(waiting, i);
    }
    OnlyAPrefix(A, Ids(Order(waiting)[..count]), b);
  }

  /** What selecting `count` candidates takes from each class. */
  lemma SelectedClasses(waiting: seq<Letter>, count: nat)
    requires waiting != [] && DistinctIds(waiting) && 1 <= count <= |Order(waiting)|
    ensures var a := PeopleTaken(waiting, count);
      var batch := Only(waiting, Ids(Order(waiting)[..count]));
      && batch != [] && batch[0] == waiting[0]
      && 0 <= count - 1 - a <= |Agents(waiting[1..])|
      && People(batch[1..]) == People(waiting[1..])[..a]
      && Agents(batch[1..]) == Agents(waiting[1..])[..count - 1 - a]
  {
    var ids := Ids(Order(waiting)[..count]);
    var rest := waiting[1..];
    assert Order(waiting)[..count][0] == waiting[0];
    assert waiting[0].id in ids;
    assert Only(waiting, ids)[1..] == Only(rest, ids);
    OnlyOfClass(rest, true, ids);
    OnlyOfClass(rest, false, ids);
    OrderIsDistinct(waiting);
    SelectedPeople(waiting, count);
    SelectedAgents(waiting, count);
  }

  lemma TotalOfThree(x: Letter, p: seq<Letter>, a: seq<Letter>)
    ensures TotalBytes([x] + p + a) == Utf8Length(x.body) + TotalBytes(p) + TotalBytes(a)
  {
    TotalOfConcat([x], p);
    TotalOfConcat([x] + p, a);
  }

  lemma SelectedTotals(waiting: seq<Letter>, count: nat)
    requires waiting != [] && DistinctIds(waiting) && 1 <= count <= |Order(waiting)|
    ensures var batch := Only(waiting, Ids(Order(waiting)[..count]));
      |batch| == count && TotalBytes(batch) == TotalBytes(Order(waiting)[..count])
  {
    var a := PeopleTaken(waiting, count);
    var batch := Only(waiting, Ids(Order(waiting)[..count]));
    SelectedClasses(waiting, count);
    OrderSplits(waiting, count);
    ClassTotals(batch[1..]);
    TotalOfThree(waiting[0], People(waiting[1..])[..a], Agents(waiting[1..])[..count - 1 - a]);
  }

  /** Selecting by id names exactly the selected candidates. */
  lemma SelectedIds(waiting: seq<Letter>, count: nat)
    requires waiting != [] && 1 <= count <= |Order(waiting)|
    ensures Ids(Only(waiting, Ids(Order(waiting)[..count]))) == Ids(Order(waiting)[..count])
  {
    var ids := Ids(Order(waiting)[..count]);
    OnlyMembers(waiting, ids);
    ClassMembers(waiting[1..], true);
    ClassMembers(waiting[1..], false);
    assert waiting == [waiting[0]] + waiting[1..];
    forall id | id in ids
      ensures id in Ids(Only(waiting, ids))
    {
      var m :| m in Order(waiting)[..count] && m.id == id;
      assert m in Order(waiting);
      assert m in Only(waiting, ids);
    }
  }

  lemma NextIsTheNextCandidate(waiting: seq<Letter>, count: nat)
    requires waiting != [] && DistinctIds(waiting) && 1 <= count < |Order(waiting)|
    ensures var batch := Only(waiting, Ids(Order(waiting)[..count]));
      && batch != []
      && People(batch[1..]) <= People(waiting[1..]) && Agents(batch[1..]) <= Agents(waiting[1..])
      && (People(batch[1..]) != People(waiting[1..]) || Agents(batch[1..]) != Agents(waiting[1..]))
      && Next(waiting, batch) == Order(waiting)[count]
  {
    SelectedClasses(waiting, count);
    var P := People(waiting[1..]);
    if count - 1 < |P| {
      OrderOfPerson(waiting, count - 1);
    } else {
      OrderOfAgent(waiting, count - 1 - |P|);
    }
  }

  lemma SelectedInOrder(waiting: seq<Letter>, count: nat)
    requires waiting != [] && DistinctIds(waiting) && 1 <= count <= |Order(waiting)|
    ensures var batch := Only(waiting, Ids(Order(waiting)[..count]));
      TakesInOrder(waiting, batch) && batch == Only(waiting, Ids(batch))
  {
    SelectedClasses(waiting, count);
    SelectedIds(waiting, count);
  }

  /** When the selection stops, either nothing is left or the next candidate does not fit. */
  lemma NothingFits(waiting: seq<Letter>, count: nat, batch: seq<Letter>)
    requires waiting != [] && DistinctIds(waiting) && count <= |Order(waiting)| && StopsAt(Order(waiting), count)
    requires batch == Only(waiting, Ids(Order(waiting)[..count])) && TakesInOrder(waiting, batch)
    requires |batch| == count && TotalBytes(batch) == TotalBytes(Order(waiting)[..count])
    requires |Ids(Order(waiting)[..count])| == count
    ensures || (People(batch[1..]) == People(waiting[1..]) && Agents(batch[1..]) == Agents(waiting[1..]))
            || |batch| == MAX_BATCH
            || TotalBytes(batch) + Utf8Length(Next(waiting, batch).body) > MAX_BATCH_BYTES
  {
    if count < |Order(waiting)| {
      TotalGrows(Order(waiting), count, count + 1);
      NextIsTheNextCandidate(waiting, count);
    } else {
      SelectedAll(waiting);
    }
  }

  lemma SelectedStops(waiting: seq<Letter>, count: nat)
    requires waiting != [] && DistinctIds(waiting) && count <= |Order(waiting)| && StopsAt(Order(waiting), count)
    ensures MeetsPromises(waiting, Only(waiting, Ids(Order(waiting)[..count])))
  {
    SelectedInOrder(waiting, count);
    SelectedTotals(waiting, count);
    OrderIsDistinct(waiting);
    DistinctCount(Order(waiting)[..count]);
    NothingFits(waiting, count, Only(waiting, Ids(Order(waiting)[..count])));
  }

  lemma SelectedAll(waiting: seq<Letter>)
    requires waiting != [] && DistinctIds(waiting)
    ensures var batch := Only(waiting, Ids(Order(waiting)[..|Order(waiting)|]));
      && batch != []
      && People(batch[1..]) == People(waiting[1..]) && Agents(batch[1..]) == Agents(waiting[1..])
  {
    SelectedClasses(waiting, |Order(waiting)|);
  }

  lemma BatchMeetsPromises(waiting: seq<Letter>, batch: seq<Letter>)
    requires waiting != [] && DistinctIds(waiting) && IsBatch(waiting, batch)
    ensures MeetsPromises(waiting, batch)
  {
    var count: nat :|
      && count <= |Order(waiting)| && StopsAt(Order(waiting), count)
      && batch == Only(waiting, Ids(Order(waiting)[..count]));
    SelectedStops(waiting, count);
  }

  lemma TakenAreFirst(waiting: seq<Letter>, batch: seq<Letter>)
    requires waiting != [] && TakesInOrder(waiting, batch)
    ensures |batch| <= |Order(waiting)|
    ensures Order(waiting)[..|batch|] == [waiting[0]] + People(batch[1..]) + Agents(batch[1..])
  {
    var p, a := People(batch[1..]), Agents(batch[1..]);
    ClassTotals(batch[1..]);
    OrderSplits(waiting, |batch|);
    assert p == People(waiting[1..])[..|p|] && a == Agents(waiting[1..])[..|a|];
  }

  /** A batch that keeps the promises names exactly the first candidates in order. */
  lemma TakenIds(waiting: seq<Letter>, batch: seq<Letter>)
    requires waiting != [] && TakesInOrder(waiting, batch)
    ensures |batch| <= |Order(waiting)| && Ids(batch) == Ids(Order(waiting)[..|batch|])
  {
    TakenAreFirst(waiting, batch);
    ClassMembers(batch[1..], true);
    ClassMembers(batch[1..], false);
    var first := Order(waiting)[..|batch|];
    assert batch == [batch[0]] + batch[1..];
    assert forall m :: m in batch <==> m in first;
  }

  lemma TakenTotals(waiting: seq<Letter>, batch: seq<Letter>)
    requires waiting != [] && DistinctIds(waiting) && TakesInOrder(waiting, batch) && batch == Only(waiting, Ids(batch))
    ensures var count := |batch|;
      && count <= |Order(waiting)|
      && batch == Only(waiting, Ids(Order(waiting)[..count]))
      && |Ids(Order(waiting)[..count])| == count
      && TotalBytes(Order(waiting)[..count]) == TotalBytes(batch)
  {
    TakenIds(waiting, batch);
    SelectedTotals(waiting, |batch|);
    OrderIsDistinct(waiting);
    DistinctCount(Order(waiting)[..|batch|]);
  }

  lemma BoundsStop(order: seq<Letter>, count: nat, total: nat)
    requires 1 <= count <= |order| && |Ids(order[..count])| == count && TotalBytes(order[..count]) == total
    requires count <= MAX_BATCH && (count == 1 || total <= MAX_BATCH_BYTES)
    requires count < |order| ==>
               count == MAX_BATCH || total + Utf8Length(order[count].body) > MAX_BATCH_BYTES
    ensures StopsAt(order, count)
  {
    if count < |order| {
      TotalGrows(order, count, count + 1);
    }
  }

  /** What the promises say of the first candidate that is not in the batch. */
  lemma PromisedBound(waiting: seq<Letter>, batch: seq<Letter>)
    requires waiting != [] && DistinctIds(waiting) && MeetsPromises(waiting, batch)
    requires |batch| < |Order(waiting)| && batch == Only(waiting, Ids(Order(waiting)[..|batch|]))
    ensures || |batch| == MAX_BATCH
            || TotalBytes(batch) + Utf8Length(Order(waiting)[|batch|].body) > MAX_BATCH_BYTES
  {
    NextIsTheNextCandidate(waiting, |batch|);
  }

  lemma PromisesMakeABatch(waiting: seq<Letter>, batch: seq<Letter>)
    requires waiting != [] && DistinctIds(waiting) && MeetsPromises(waiting, batch)
    ensures IsBatch(waiting, batch)
  {
    TakenTotals(waiting, batch);
    if |batch| < |Order(waiting)| {
      PromisedBound(waiting, batch);
    }
    BoundsStop(Order(waiting), |batch|, TotalBytes(batch));
  }

  /** The selection is characterised by its promises: what is selected keeps them, and nothing else does. */
  lemma BatchIsWhatIsPromised(waiting: seq<Letter>, batch: seq<Letter>)
    requires waiting != [] && DistinctIds(waiting)
    ensures IsBatch(waiting, batch) <==> MeetsPromises(waiting, batch)
  {
    if IsBatch(waiting, batch) {
      BatchMeetsPromises(waiting, batch);
    }
    if MeetsPromises(waiting, batch) {
      PromisesMakeABatch(waiting, batch);
    }
  }

  // ---- The batch within a pass ------------------------------------------------------------------

  predicate DistinctLedger(ledger: seq<Slot>) {
    forall i, j :: 0 <= i < j < |ledger| && ledger[i].Some? && ledger[j].Some? ==>
                     ledger[i].value.id != ledger[j].value.id
  }

  lemma {:induction false} WaitingMembers(ledger: seq<Slot>, key: Key, acked: set<MessageId>, now: int)
    ensures forall m :: m in Waiting(ledger, key, acked, now) <==>
                        exists i :: 0 <= i < |ledger| && WaitsFor(ledger[i], key, acked, now) && ledger[i].value == m
  {
    if ledger != [] {
      var earlier := ledger[..|ledger| - 1];
      WaitingMembers(earlier, key, acked, now);
      assert forall i :: 0 <= i < |earlier| ==> earlier[i] == ledger[i];
    }
  }

  /** Ids that are unique in the ledger are unique among the waiting letters. */
  lemma {:induction false} WaitingIsDistinct(ledger: seq<Slot>, key: Key, acked: set<MessageId>, now: int)
    requires DistinctLedger(ledger)
    ensures DistinctIds(Waiting(ledger, key, acked, now))
  {
    if ledger != [] {
      var earlier := ledger[..|ledger| - 1];
      WaitingIsDistinct(earlier, key, acked, now);
      WaitingMembers(earlier, key, acked, now);
      if WaitsFor(ledger[|ledger| - 1], key, acked, now) {
        DistinctConcat(Waiting(earlier, key, acked, now), [ledger[|ledger| - 1].value]);
      }
    }
  }

  /** The first waiting letter stands at the first position that waits. */
  lemma {:induction false} OldestWaiting(ledger: seq<Slot>, key: Key, acked: set<MessageId>, now: int) returns (at: nat)
    requires Waiting(ledger, key, acked, now) != []
    ensures at < |ledger| && WaitsFor(ledger[at], key, acked, now)
    ensures Waiting(ledger, key, acked, now)[0] == ledger[at].value
    ensures forall i :: 0 <= i < at ==> !WaitsFor(ledger[i], key, acked, now)
  {
    var earlier := ledger[..|ledger| - 1];
    if Waiting(earlier, key, acked, now) != [] {
      at := OldestWaiting(earlier, key, acked, now);
    } else {
      at := |ledger| - 1;
      WaitingMembers(earlier, key, acked, now);
      forall i | 0 <= i < at
        ensures !WaitsFor(ledger[i], key, acked, now)
      {
        assert earlier[i] == ledger[i];
        assert ledger[i].Some? ==> ledger[i].value !in Waiting(earlier, key, acked, now);
      }
    }
  }

  /** The letter the delivery gates were decided on is the first of the batch that travels. */
  lemma PickLeadsTheBatch(
    ledger: seq<Slot>, peer: ManagedPeer, delivered: nat, acked: set<MessageId>, now: int,
    pick: nat, cursor: nat, batch: seq<Letter>)
    requires LedgerOk(ledger) && ManagedOk(peer)
    requires IsNext(ledger, ManagedPeerKey(peer), delivered, acked, now, Some(pick), cursor)
    requires IsConditional(ledger[pick].value)
    requires IsBatch(Waiting(ledger, ManagedPeerKey(peer), acked, now), batch)
    ensures batch != [] && batch[0] == ledger[pick].value
  {
    SameTrack(ledger, peer, acked, now);
    FirstDueLeads(ledger, ManagedPeerKey(peer), acked, now, pick, batch);
  }

  lemma FirstDueLeads(ledger: seq<Slot>, key: Key, acked: set<MessageId>, now: int, pick: nat, batch: seq<Letter>)
    requires pick < |ledger| && WaitsFor(ledger[pick], key, acked, now)
    requires forall i :: 0 <= i < pick ==> !WaitsFor(ledger[i], key, acked, now)
    requires IsBatch(Waiting(ledger, key, acked, now), batch)
    ensures batch != [] && batch[0] == ledger[pick].value
  {
    WaitingMembers(ledger, key, acked, now);
    assert ledger[pick].value in Waiting(ledger, key, acked, now);
    var at := OldestWaiting(ledger, key, acked, now);
    BatchHasTheOldest(Waiting(ledger, key, acked, now), batch);
  }

  /** For a managed recipient the picker and the batch look at the same letters. */
  lemma SameTrack(ledger: seq<Slot>, peer: ManagedPeer, acked: set<MessageId>, now: int)
    requires LedgerOk(ledger) && ManagedOk(peer)
    ensures var key := ManagedPeerKey(peer);
      forall i :: 0 <= i < |ledger| ==> (DueFor(ledger[i], key, acked, now) <==> WaitsFor(ledger[i], key, acked, now))
  {
    var key := ManagedPeerKey(peer);
    forall i | 0 <= i < |ledger|
      ensures DueFor(ledger[i], key, acked, now) <==> WaitsFor(ledger[i], key, acked, now)
    {
      if ledger[i].Some? {
        assert ledger[i] in ledger;
        TargetKeysAreDestinations(ledger[i].value.to, ToManaged(peer));
      }
    }
  }

  lemma BatchHasTheOldest(waiting: seq<Letter>, batch: seq<Letter>)
    requires waiting != [] && IsBatch(waiting, batch)
    ensures batch != [] && batch[0] == waiting[0]
  {
    var order := Order(waiting);
    var count: nat :| count <= |order| && StopsAt(order, count) && batch == Only(waiting, Ids(order[..count]));
    assert order[..count][0] == waiting[0] && waiting[0] in order[..count];
  }

  // ---- No starvation ----------------------------------------------------------------------------

  /** What a pass sees when it looks. */
  datatype Moment = Moment(ledger: seq<Slot>, delivered: nat, acked: set<MessageId>, now: int)

  function WaitingAt(m: Moment, key: Key): seq<Letter> {
    Waiting(m.ledger, key, m.acked, m.now)
  }

  /**
   What was picked has been delivered: an immediate letter is behind the cursor; a conditional one is acknowledged
   together with its batch, or alone where delivery is proved letter by letter.
   */
  ghost predicate Delivers(key: Key, before: Moment, after: Moment, pick: nat, cursor: nat) {
    && IsNext(before.ledger, key, before.delivered, before.acked, before.now, Some(pick), cursor)
    && if IsConditional(before.ledger[pick].value) then
         exists batch ::
           && (IsBatch(WaitingAt(before, key), batch) || batch == [before.ledger[pick].value])
           && Ids(batch) <= after.acked
       else
         pick < after.delivered
  }

  /** One pass that delivered; meanwhile anyone may have written, delivered or acknowledged more. */
  ghost predicate Pass(key: Key, before: Moment, after: Moment) {
    && before.ledger <= after.ledger && before.now <= after.now
    && before.delivered <= after.delivered && before.acked <= after.acked
    && exists pick: nat, cursor: nat :: Delivers(key, before, after, pick, cursor)
  }

  ghost predicate Passes(key: Key, moments: seq<Moment>) {
    forall i :: 0 <= i < |moments| - 1 ==> Pass(key, moments[i], moments[i + 1])
  }

  predicate Unsettled(slot: Slot, key: Key, acked: set<MessageId>) {
    && slot.Some? && slot.value.to.ToManaged? && ManagedPeerKey(slot.value.to.peer) == key
    && IsConditional(slot.value) && slot.value.id !in acked
  }

  /** How many conditional letters among these are not settled. */
  function Backlog(ledger: seq<Slot>, key: Key, acked: set<MessageId>): (n: nat)
    ensures n <= |ledger|
  {
    if ledger == [] then 0
    else Backlog(ledger[1..], key, acked) + if Unsettled(ledger[0], key, acked) then 1 else 0
  }

  /** How many immediate letters stand from this position on. */
  function ImmediateAhead(ledger: seq<Slot>, key: Key, from: nat): nat
    decreases |ledger| - from
  {
    if from >= |ledger| then 0
    else ImmediateAhead(ledger, key, from + 1) + if ImmediateFor(ledger[from], key) then 1 else 0
  }

  lemma {:induction false} BacklogShrinks(ledger: seq<Slot>, key: Key, acked: set<MessageId>, acked': set<MessageId>)
    requires acked <= acked'
    ensures Backlog(ledger, key, acked') <= Backlog(ledger, key, acked)
    ensures forall i :: 0 <= i < |ledger| && Unsettled(ledger[i], key, acked) && ledger[i].value.id in acked' ==>
                        Backlog(ledger, key, acked') < Backlog(ledger, key, acked)
  {
    if ledger != [] {
      BacklogShrinks(ledger[1..], key, acked, acked');
      assert forall i :: 1 <= i < |ledger| ==> ledger[i] == ledger[1..][i - 1];
    }
  }

  lemma {:induction false} AheadShrinks(ledger: seq<Slot>, key: Key, from: nat, from': nat, at: nat)
    requires from <= from'
    ensures ImmediateAhead(ledger, key, from') <= ImmediateAhead(ledger, key, from)
    ensures from <= at < from' && at < |ledger| && ImmediateFor(ledger[at], key) ==>
              ImmediateAhead(ledger, key, from') < ImmediateAhead(ledger, key, from)
    decreases from' - from
  {
    if from < from' {
      AheadShrinks(ledger, key, from + 1, from', at);
    }
  }

  /** What stands between a letter at `p` and its delivery, in the ledger as it ends up. */
  function Ahead(ledger: seq<Slot>, key: Key, m: Moment, p: nat): nat
    requires p < |m.ledger|
  {
    Backlog(m.ledger[..p + 1], key, m.acked) + ImmediateAhead(ledger, key, m.delivered)
  }

  /** A conditional pick settles something among the positions up to a waiting letter. */
  lemma BatchAdvances(peer: ManagedPeer, before: Moment, after: Moment, pick: nat, cursor: nat, p: nat)
    requires LedgerOk(before.ledger) && ManagedOk(peer) && before.acked <= after.acked
    requires Delivers(ManagedPeerKey(peer), before, after, pick, cursor)
    requires IsConditional(before.ledger[pick].value)
    requires p < |before.ledger| && WaitsFor(before.ledger[p], ManagedPeerKey(peer), before.acked, before.now)
    ensures Backlog(before.ledger[..p + 1], ManagedPeerKey(peer), after.acked)
          < Backlog(before.ledger[..p + 1], ManagedPeerKey(peer), before.acked)
  {
    var key := ManagedPeerKey(peer);
    SameTrack(before.ledger, peer, before.acked, before.now);
    var batch :|
      && (IsBatch(WaitingAt(before, key), batch) || batch == [before.ledger[pick].value])
      && Ids(batch) <= after.acked;
    if IsBatch(WaitingAt(before, key), batch) {
      FirstDueLeads(before.ledger, key, before.acked, before.now, pick, batch);
    }
    assert before.ledger[pick].value in batch;
    BacklogShrinks(before.ledger[..p + 1], key, before.acked, after.acked);
    assert before.ledger[..p + 1][pick] == before.ledger[pick];
  }

  /** An immediate pick leaves fewer of them ahead. */
  lemma ImmediateAdvances(
    key: Key, ledger: seq<Slot>, before: Moment, after: Moment, pick: nat, cursor: nat)
    requires before.ledger <= ledger && before.delivered <= after.delivered
    requires Delivers(key, before, after, pick, cursor) && !IsConditional(before.ledger[pick].value)
    ensures ImmediateAhead(ledger, key, after.delivered) < ImmediateAhead(ledger, key, before.delivered)
  {
    AheadShrinks(ledger, key, before.delivered, after.delivered, pick);
    assert ledger[pick] == before.ledger[pick];
  }

  /** Every pass that delivers brings a waiting letter closer. */
  lemma PassAdvances(peer: ManagedPeer, ledger: seq<Slot>, before: Moment, after: Moment, p: nat)
    requires LedgerOk(ledger) && ManagedOk(peer) && before.ledger <= ledger
    requires Pass(ManagedPeerKey(peer), before, after)
    requires p < |before.ledger| && WaitsFor(before.ledger[p], ManagedPeerKey(peer), before.acked, before.now)
    ensures Ahead(ledger, ManagedPeerKey(peer), after, p) < Ahead(ledger, ManagedPeerKey(peer), before, p)
  {
    var key := ManagedPeerKey(peer);
    var pick: nat, cursor: nat :| Delivers(key, before, after, pick, cursor);
    assert after.ledger[..p + 1] == before.ledger[..p + 1];
    AheadShrinks(ledger, key, before.delivered, after.delivered, 0);
    BacklogShrinks(before.ledger[..p + 1], key, before.acked, after.acked);
    if IsConditional(before.ledger[pick].value) {
      assert forall slot :: slot in before.ledger ==> slot in ledger;
      BatchAdvances(peer, before, after, pick, cursor, p);
    } else {
      ImmediateAdvances(key, ledger, before, after, pick, cursor);
    }
  }

  lemma {:induction false} MomentsGrow(key: Key, moments: seq<Moment>, n: nat)
    requires Passes(key, moments) && n < |moments|
    ensures moments[0].acked <= moments[n].acked && moments[0].ledger <= moments[n].ledger
  {
    if n > 0 {
      MomentsGrow(key, moments, n - 1);
      assert Pass(key, moments[n - 1], moments[n - 1 + 1]);
    }
  }

  lemma LaterPasses(key: Key, moments: seq<Moment>)
    requires Passes(key, moments) && |moments| > 0
    ensures Passes(key, moments[1..])
  {
    var later := moments[1..];
    forall i | 0 <= i < |later| - 1
      ensures Pass(key, later[i], later[i + 1])
    {
      assert Pass(key, moments[i + 1], moments[i + 1 + 1]);
    }
  }

  /** A letter that waits still waits after a pass, unless it was settled. */
  lemma StillWaits(key: Key, before: Moment, after: Moment, p: nat)
    requires Pass(key, before, after) && p < |before.ledger|
    requires WaitsFor(before.ledger[p], key, before.acked, before.now)
    ensures after.ledger[p] == before.ledger[p]
    ensures before.ledger[p].value.id !in after.acked ==> WaitsFor(after.ledger[p], key, after.acked, after.now)
  {
  }

  lemma {:induction false} SettledWithin(peer: ManagedPeer, moments: seq<Moment>, p: nat, n: nat)
    requires Passes(ManagedPeerKey(peer), moments) && n < |moments|
    requires LedgerOk(moments[|moments| - 1].ledger) && ManagedOk(peer) && p < |moments[0].ledger|
    requires WaitsFor(moments[0].ledger[p], ManagedPeerKey(peer), moments[0].acked, moments[0].now)
    requires Ahead(moments[|moments| - 1].ledger, ManagedPeerKey(peer), moments[0], p) <= n
    ensures moments[0].ledger[p].value.id in moments[n].acked
    decreases n
  {
    var key, ledger := ManagedPeerKey(peer), moments[|moments| - 1].ledger;
    var here, id := moments[0], moments[0].ledger[p].value.id;
    MomentsGrow(key, moments, |moments| - 1);
    assert here.ledger[..p + 1][p] == here.ledger[p];
    BacklogShrinks(here.ledger[..p + 1], key, here.acked, here.acked + {id});
    assert n > 0;
    assert Pass(key, moments[0], moments[0 + 1]);
    PassAdvances(peer, ledger, here, moments[1], p);
    StillWaits(key, here, moments[1], p);
    LaterPasses(key, moments);
    if id in moments[1].acked {
      MomentsGrow(key, moments[1..], n - 1);
    } else {
      SettledWithin(peer, moments[1..], p, n - 1);
    }
  }

  /**
   A due letter at position `p` is settled within `p + 1` passes that deliver, and one more for every immediate letter
   from the cursor on, those written meanwhile included: immediate mail goes first.
   */
  lemma NoLetterStarves(peer: ManagedPeer, moments: seq<Moment>, p: nat)
    requires Passes(ManagedPeerKey(peer), moments) && |moments| > 0
    requires LedgerOk(moments[|moments| - 1].ledger) && ManagedOk(peer) && p < |moments[0].ledger|
    requires WaitsFor(moments[0].ledger[p], ManagedPeerKey(peer), moments[0].acked, moments[0].now)
    requires var immediate :=
        ImmediateAhead(moments[|moments| - 1].ledger, ManagedPeerKey(peer), moments[0].delivered);
      p + 1 + immediate < |moments|
    ensures var immediate :=
        ImmediateAhead(moments[|moments| - 1].ledger, ManagedPeerKey(peer), moments[0].delivered);
      moments[0].ledger[p].value.id in moments[p + 1 + immediate].acked
  {
    var immediate := ImmediateAhead(moments[|moments| - 1].ledger, ManagedPeerKey(peer), moments[0].delivered);
    SettledWithin(peer, moments, p, p + 1 + immediate);
  }
}
