/** Which letter is pushed to a recipient next. */
module ChatSettlement {
  import opened Prelude
  import opened ChatIdentity
  import opened ChatLetters
  import opened ChatCursors

  predicate ImmediateFor(slot: Slot, key: Key) {
    slot.Some? && TargetKey(slot.value.to) == key && !IsConditional(slot.value)
  }

  predicate DueFor(slot: Slot, key: Key, acked: set<MessageId>, now: int) {
    && slot.Some? && TargetKey(slot.value.to) == key && IsConditional(slot.value)
    && slot.value.id !in acked && IsDue(slot.value, now)
  }

  /**
   The two tracks. Immediate mail is taken in order from the cursor on, whatever conditional mail stands
   before it; only when none is left, the oldest due and unresolved conditional letter. Nothing is picked
   only when neither track has anything.
   */
  ghost predicate IsNext(
    ledger: seq<Slot>, key: Key, delivered: nat, acked: set<MessageId>, now: int, pick: Option<nat>, cursor: nat)
  {
    var immediateLeft := exists i :: delivered <= i < |ledger| && ImmediateFor(ledger[i], key);
    match pick
    case None =>
      && cursor == |ledger| && !immediateLeft
      && forall i :: 0 <= i < |ledger| ==> !DueFor(ledger[i], key, acked, now)
    case Some(at) =>
      && at < |ledger|
      && if immediateLeft then
           && cursor == at && delivered <= at && ImmediateFor(ledger[at], key)
           && forall i :: delivered <= i < at ==> !ImmediateFor(ledger[i], key)
         else
           && cursor == |ledger| && DueFor(ledger[at], key, acked, now)
           && forall i :: 0 <= i < at ==> !DueFor(ledger[i], key, acked, now)
  }

  method PickPendingDelivery(ledger: seq<Slot>, key: Key, delivered: nat, acked: set<MessageId>, now: int)
    returns (pick: Option<nat>, cursor: nat)
    ensures IsNext(ledger, key, delivered, acked, now, pick, cursor)
  {
    var at := delivered;
    while at < |ledger|
      invariant delivered <= at
      invariant forall i :: delivered <= i < at && i < |ledger| ==> !ImmediateFor(ledger[i], key)
    {
      if ImmediateFor(ledger[at], key) {
        return Some(at), at;
      }
      at := at + 1;
    }
    at := 0;
    while at < |ledger|
      invariant at <= |ledger|
      invariant forall i :: 0 <= i < at ==> !DueFor(ledger[i], key, acked, now)
    {
      if DueFor(ledger[at], key, acked, now) {
        return Some(at), |ledger|;
      }
      at := at + 1;
    }
    return None, |ledger|;
  }
}
