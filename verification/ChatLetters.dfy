/** The immutable chat envelope and the rules that decide when a letter may be delivered. */
module ChatLetters {
  import opened Prelude
  import opened ChatIdentity

  // Message ids are UUIDs, only ever compared for equality.
  type MessageId = nat

  // ---- Authorization carried by a letter --------------------------------------------------------

  datatype Basis = UserInstruction | PeerLetter | ThreadContinuation

  /** A source reference: `<peer thread uuid>#<message uuid>`, or prose that names no record. */
  datatype SourceRef = Prose(text: string) | Names(threadId: string, messageId: MessageId)

  /** A claim; records older than the named basis carry none. */
  datatype Authorization = Authorization(basis: Option<Basis>, quote: Option<string>, source: SourceRef)

  datatype SourceLetter =
    SourceLetter(id: MessageId, ts: string, from: Principal, to: Target, task: Option<string>, body: string)

  datatype Receipt = Receipt(rootMessageId: MessageId, authorization: Authorization, sourceLetter: Option<SourceLetter>)

  predicate AuthorizationOk(a: Authorization) {
    && (a.quote.None? <==> a.basis == Some(ThreadContinuation))
    && (a.basis == Some(PeerLetter) || a.basis == Some(ThreadContinuation) ==> a.source.Names?)
  }

  const RECEIPT_BODY: nat := 16_384

  predicate ReceiptOk(r: Receipt) {
    && AuthorizationOk(r.authorization)
    && (r.authorization.basis == Some(UserInstruction) || r.authorization.basis == Some(PeerLetter))
    && (r.sourceLetter.Some? ==>
          && |r.sourceLetter.value.body| <= RECEIPT_BODY
          && PrincipalOk(r.sourceLetter.value.from) && TargetOk(r.sourceLetter.value.to))
  }

  // ---- The envelope -----------------------------------------------------------------------------

  datatype NotBefore = Anytime | Instant(at: int) | Unparseable

  datatype Letter = Letter(
    id: MessageId, ts: string, from: Principal, to: Target, human: bool, body: string, task: Option<string>,
    defer: bool, notBefore: NotBefore, onBehalfOf: Option<string>,
    authorization: Option<Authorization>, receipt: Option<Receipt>)

  predicate LetterOk(m: Letter) {
    && PrincipalOk(m.from) && TargetOk(m.to)
    && (m.authorization.Some? ==> AuthorizationOk(m.authorization.value))
    && (m.receipt.Some? ==> ReceiptOk(m.receipt.value))
  }

  /** A ledger position: a letter, or a hole where this build cannot read one. */
  type Slot = Option<Letter>

  predicate LedgerOk(ledger: seq<Slot>) {
    forall slot :: slot in ledger && slot.Some? ==> LetterOk(slot.value)
  }

  // ---- Delivery tracks --------------------------------------------------------------------------

  /** Conditional mail is settled by id in the ack log; everything else by the in-order cursor. */
  predicate IsConditional(m: Letter) {
    m.defer || !m.notBefore.Anytime?
  }

  /** An unparseable instant counts as due: a bad field must not trap a letter. */
  predicate IsDue(m: Letter, now: int) {
    m.notBefore.Instant? ==> now >= m.notBefore.at
  }

  /** The length of a text in UTF-8. */
  function Utf8Length(s: string): nat {
    if s == "" then 0
    else (if s[0] < '\U{80}' then 1 else if s[0] < '\U{800}' then 2 else if s[0] < '\U{10000}' then 3 else 4)
         + Utf8Length(s[1..])
  }
}
