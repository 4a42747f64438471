/** Letters to owners outside the fleet, and the answers that close them. */
module ChatExternal {
  import opened Prelude
  import opened ChatIdentity
  import opened ChatLetters
  import opened ChatCursors

  const EXTERNAL_PREFIX := "owner/"
  const NUL := '\0'

  predicate IsExternalToken(token: string) {
    EXTERNAL_PREFIX < token
  }

  function ExternalNameOf(token: string): string
    requires IsExternalToken(token)
  {
    token[|EXTERNAL_PREFIX|..]
  }

  function TaskText(task: Option<string>): string {
    if task.Some? then task.value else ""
  }

  /** What a letter and its answer are matched on. */
  function MatchKey(name: string, task: Option<string>): string {
    name + [NUL] + TaskText(task)
  }

  predicate IsAnswer(slot: Slot) {
    slot.Some? && slot.value.onBehalfOf.Some? && IsExternalToken(slot.value.onBehalfOf.value)
  }

  function AnswerKey(slot: Slot): string
    requires IsAnswer(slot)
  {
    MatchKey(ExternalNameOf(slot.value.onBehalfOf.value), slot.value.task)
  }

  predicate IsExternal(slot: Slot) {
    slot.Some? && slot.value.to.ToExternal?
  }

  function LetterKey(m: Letter): string
    requires m.to.ToExternal?
  {
    MatchKey(m.to.name, m.task)
  }

  type External = m: Letter | m.to.ToExternal? witness
    Letter(0, "", Cli("a"), ToExternal("a"), false, "", None, false, Anytime, None, None, None)

  predicate LetterFor(slot: Slot, key: string) {
    IsExternal(slot) && LetterKey(slot.value) == key
  }

  predicate AnswerFor(slot: Slot, key: string) {
    IsAnswer(slot) && AnswerKey(slot) == key
  }

  // ---- Specification ----------------------------------------------------------------------------

  function AnswersUpTo(ledger: seq<Slot>, n: nat, key: string): nat
    requires n <= |ledger|
  {
    if n == 0 then 0 else AnswersUpTo(ledger, n - 1, key) + if AnswerFor(ledger[n - 1], key) then 1 else 0
  }

  function Answers(ledger: seq<Slot>, key: string): nat {
    AnswersUpTo(ledger, |ledger|, key)
  }

  function LetterAt(slot: Slot, key: string): (letter: seq<External>)
    ensures |letter| <= 1
  {
    if LetterFor(slot, key) then [slot.value] else []
  }

  /** The letters matched on a key, oldest first. */
  function LettersUpTo(ledger: seq<Slot>, n: nat, key: string): seq<External>
    requires n <= |ledger|
  {
    if n == 0 then [] else LettersUpTo(ledger, n - 1, key) + LetterAt(ledger[n - 1], key)
  }

  function Letters(ledger: seq<Slot>, key: string): seq<External> {
    LettersUpTo(ledger, |ledger|, key)
  }

  /** A letter is open when at least as many letters of its key were sent before it as were ever answered. */
  predicate IsOpen(ledger: seq<Slot>, i: nat)
    requires i < |ledger|
  {
    && IsExternal(ledger[i])
    && |LettersUpTo(ledger, i, LetterKey(ledger[i].value))| >= Answers(ledger, LetterKey(ledger[i].value))
  }

  function OpenUpTo(ledger: seq<Slot>, n: nat): seq<External>
    requires n <= |ledger|
  {
    if n == 0 then []
    else
      var slot := ledger[n - 1];
      OpenUpTo(ledger, n - 1)
      + if IsOpen(ledger, n - 1) then [slot.value] else []
  }

  function Outstanding(ledger: seq<Slot>): seq<External> {
    OpenUpTo(ledger, |ledger|)
  }

  function OfKey(ms: seq<External>, key: string): seq<External> {
    if ms == [] then []
    else OfKey(ms[..|ms| - 1], key) + if LetterKey(ms[|ms| - 1]) == key then [ms[|ms| - 1]] else []
  }

  predicate InScope(m: Letter, from: Option<Principal>) {
    from.Some? ==> PrincipalKey(m.from) == PrincipalKey(from.value)
  }

  /** One sender's share, or everybody's. */
  function Scoped(ms: seq<External>, from: Option<Principal>): seq<External> {
    if ms == [] then []
    else
      var last := ms[|ms| - 1];
      Scoped(ms[..|ms| - 1], from) + if InScope(last, from) then [last] else []
  }

  lemma ScopedStep(ms: seq<External>, m: External, from: Option<Principal>)
    ensures Scoped(ms + [m], from)
         == Scoped(ms, from) + if InScope(m, from) then [m] else []
  {
    assert (ms + [m])[..|ms|] == ms;
  }

  /** Asked about nobody in particular, the answer is everybody's letters. */
  lemma {:induction false} UnscopedIsEverything(ms: seq<External>)
    ensures Scoped(ms, None) == ms
  {
    if ms != [] {
      UnscopedIsEverything(ms[..|ms| - 1]);
    }
  }

  lemma OfKeyStep(ms: seq<External>, m: External, key: string)
    ensures OfKey(ms + [m], key) == OfKey(ms, key) + if LetterKey(m) == key then [m] else []
  {
    assert (ms + [m])[..|ms|] == ms;
  }

  // ---- The two loops ----------------------------------------------------------------------------

  method CountAnswers(ledger: seq<Slot>) returns (answers: Positions)
    ensures forall key :: At(answers, key) == Answers(ledger, key)
  {
    answers := map[];
    for i := 0 to |ledger|
      invariant forall key :: At(answers, key) == AnswersUpTo(ledger, i, key)
    {
      if IsAnswer(ledger[i]) {
        var key := AnswerKey(ledger[i]);
        answers := answers[key := At(answers, key) + 1];
      }
    }
  }

  /** How many answers the first `i` letters have left over, per key. */
  ghost predicate Remaining(ledger: seq<Slot>, i: nat, answers: Positions)
    requires i <= |ledger|
  {
    forall key :: At(answers, key) == Max(0, Answers(ledger, key) - |LettersUpTo(ledger, i, key)|)
  }

  lemma RemainingStep(ledger: seq<Slot>, i: nat, before: Positions, after: Positions)
    requires i < |ledger| && Remaining(ledger, i, before)
    requires forall key :: At(after, key)
                        == if IsExternal(ledger[i]) && LetterKey(ledger[i].value) == key
                           then Max(0, At(before, key) - 1) else At(before, key)
    ensures Remaining(ledger, i + 1, after)
  {
    forall key
      ensures At(after, key) == Max(0, Answers(ledger, key) - |LettersUpTo(ledger, i + 1, key)|)
    {
    }
  }

  /** The open letters up to a position grow by the letter there, or not at all. */
  lemma OpenStep(ledger: seq<Slot>, i: nat, from: Option<Principal>)
    requires i < |ledger|
    ensures Scoped(OpenUpTo(ledger, i + 1), from)
         == Scoped(OpenUpTo(ledger, i), from)
            + if IsOpen(ledger, i) && InScope(ledger[i].value, from) then [ledger[i].value] else []
  {
    var earlier := OpenUpTo(ledger, i);
    assert earlier + [] == earlier && Scoped(earlier, from) + [] == Scoped(earlier, from);
    if IsOpen(ledger, i) {
      ScopedStep(earlier, ledger[i].value, from);
    }
  }

  lemma OpenWhenNoneLeft(ledger: seq<Slot>, i: nat, answers: Positions)
    requires i < |ledger| && Remaining(ledger, i, answers)
    ensures IsOpen(ledger, i) <==> IsExternal(ledger[i]) && At(answers, LetterKey(ledger[i].value)) == 0
  {
  }

  /** What one turn of the loop does to the counts. */
  function CountDown(slot: Slot, answers: Positions): Positions {
    if IsExternal(slot) && At(answers, LetterKey(slot.value)) > 0
    then answers[LetterKey(slot.value) := At(answers, LetterKey(slot.value)) - 1]
    else answers
  }

  lemma TurnOfTheLoop(ledger: seq<Slot>, i: nat, from: Option<Principal>, answers: Positions)
    requires i < |ledger| && Remaining(ledger, i, answers)
    ensures Remaining(ledger, i + 1, CountDown(ledger[i], answers))
    ensures Scoped(OpenUpTo(ledger, i + 1), from)
         == Scoped(OpenUpTo(ledger, i), from)
            + if IsExternal(ledger[i]) && At(answers, LetterKey(ledger[i].value)) == 0 && InScope(ledger[i].value, from)
              then [ledger[i].value] else []
  {
    OpenStep(ledger, i, from);
    OpenWhenNoneLeft(ledger, i, answers);
    RemainingStep(ledger, i, answers, CountDown(ledger[i], answers));
  }

  /** The body of the loop: an answer left over is used up, or the letter is listed. */
  method Visit(slot: Slot, from: Option<Principal>, answers: Positions, out: seq<External>)
    returns (answers': Positions, out': seq<External>)
    ensures answers' == CountDown(slot, answers)
    ensures out' == out + if IsExternal(slot) && At(answers, LetterKey(slot.value)) == 0 && InScope(slot.value, from)
                          then [slot.value] else []
  {
    answers', out' := answers, out;
    if IsExternal(slot) {
      var key := LetterKey(slot.value);
      var remaining := At(answers, key);
      if remaining > 0 {
        answers' := answers[key := remaining - 1];
      } else if InScope(slot.value, from) {
        out' := out + [slot.value];
      }
    }
  }

  method OutstandingExternal(ledger: seq<Slot>, from: Option<Principal>) returns (out: seq<External>)
    ensures out == Scoped(Outstanding(ledger), from)
  {
    var answers: Positions := CountAnswers(ledger);
    out := [];
    for i := 0 to |ledger|
      invariant Remaining(ledger, i, answers)
      invariant out == Scoped(OpenUpTo(ledger, i), from)
    {
      TurnOfTheLoop(ledger, i, from, answers);
      answers, out := Visit(ledger[i], from, answers, out);
    }
  }

  // ---- What is outstanding ----------------------------------------------------------------------

  /** Of a key the open letters grow at a position by the letter there, or not at all. */
  lemma OpenOfKeyStep(ledger: seq<Slot>, i: nat, key: string)
    requires i < |ledger|
    ensures OfKey(OpenUpTo(ledger, i + 1), key)
         == OfKey(OpenUpTo(ledger, i), key)
            + if |LettersUpTo(ledger, i, key)| >= Answers(ledger, key) then LetterAt(ledger[i], key) else []
  {
    var earlier := OpenUpTo(ledger, i);
    assert earlier + [] == earlier && OfKey(earlier, key) + [] == OfKey(earlier, key);
    if IsOpen(ledger, i) {
      OfKeyStep(earlier, ledger[i].value, key);
    }
  }

  /** All but the first `answered`. */
  function Unanswered(sent: seq<External>, answered: nat): seq<External> {
    sent[Min(answered, |sent|)..]
  }

  lemma UnansweredGrows(sent: seq<External>, letter: seq<External>, answered: nat)
    requires |letter| <= 1
    ensures Unanswered(sent + letter, answered)
         == Unanswered(sent, answered) + if |sent| >= answered then letter else []
  {
    if letter == [] {
      assert sent + letter == sent && Unanswered(sent, answered) + [] == Unanswered(sent, answered);
    }
  }

  /** The open letters of one key, found without looking at the others. */
  function OpenForKey(ledger: seq<Slot>, n: nat, key: string): seq<External>
    requires n <= |ledger|
  {
    if n == 0 then []
    else
      OpenForKey(ledger, n - 1, key)
      + if |LettersUpTo(ledger, n - 1, key)| >= Answers(ledger, key) then LetterAt(ledger[n - 1], key) else []
  }

  lemma {:induction false} OpenOfKey(ledger: seq<Slot>, n: nat, key: string)
    requires n <= |ledger|
    ensures OfKey(OpenUpTo(ledger, n), key) == OpenForKey(ledger, n, key)
  {
    if n > 0 {
      var m := n - 1;
      OpenOfKey(ledger, m, key);
      OpenOfKeyStep(ledger, m, key);
      assert OpenForKey(ledger, n, key)
          == OpenForKey(ledger, m, key)
             + if |LettersUpTo(ledger, m, key)| >= Answers(ledger, key) then LetterAt(ledger[m], key) else [];
    }
  }

  lemma OpenGrows(
    open: seq<External>, open': seq<External>, sent: seq<External>, sent': seq<External>, letter: seq<External>,
    answered: nat)
    requires |letter| <= 1 && sent' == sent + letter
    requires open == Unanswered(sent, answered) && open' == open + if |sent| >= answered then letter else []
    ensures open' == Unanswered(sent', answered)
  {
    UnansweredGrows(sent, letter, answered);
  }

  lemma {:induction false} OpenAreUnanswered(ledger: seq<Slot>, n: nat, key: string)
    requires n <= |ledger|
    ensures OpenForKey(ledger, n, key) == Unanswered(LettersUpTo(ledger, n, key), Answers(ledger, key))
  {
    if n > 0 {
      var m := n - 1;
      OpenAreUnanswered(ledger, m, key);
      OpenGrows(OpenForKey(ledger, m, key), OpenForKey(ledger, n, key), LettersUpTo(ledger, m, key),
                LettersUpTo(ledger, n, key), LetterAt(ledger[m], key), Answers(ledger, key));
    }
  }

  /** Per key the newest letters are open, in ledger order: as many as were not answered. */
  lemma NewestAreOpen(ledger: seq<Slot>, key: string)
    ensures OfKey(Outstanding(ledger), key) == Unanswered(Letters(ledger, key), Answers(ledger, key))
    ensures |OfKey(Outstanding(ledger), key)| == Max(0, |Letters(ledger, key)| - Answers(ledger, key))
  {
    OpenOfKey(ledger, |ledger|, key);
    OpenAreUnanswered(ledger, |ledger|, key);
  }

  lemma {:induction false} SameUpTo(ledger: seq<Slot>, slot: Slot, n: nat, key: string)
    requires n <= |ledger|
    ensures LettersUpTo(ledger + [slot], n, key) == LettersUpTo(ledger, n, key)
    ensures AnswersUpTo(ledger + [slot], n, key) == AnswersUpTo(ledger, n, key)
  {
    if n > 0 {
      SameUpTo(ledger, slot, n - 1, key);
      assert (ledger + [slot])[n - 1] == ledger[n - 1];
    }
  }

  lemma RecordedSoFar(ledger: seq<Slot>, slot: Slot, key: string)
    ensures Letters(ledger + [slot], key) == Letters(ledger, key) + LetterAt(slot, key)
    ensures Answers(ledger + [slot], key) == Answers(ledger, key) + if AnswerFor(slot, key) then 1 else 0
  {
    SameUpTo(ledger, slot, |ledger|, key);
    assert (ledger + [slot])[|ledger|] == slot;
  }

  lemma AnsweredOneMore(sent: seq<External>, answered: nat)
    ensures var before := Unanswered(sent, answered);
      Unanswered(sent, answered + 1) == if before != [] then before[1..] else before
  {
  }

  /**
   What any one more record does to the open letters of a key. A letter is open at once, unless answers were
   recorded beyond the letters sent; an answer closes the oldest open one, if there is one; a record that is both,
   written by one owner on behalf of another, does the first and then the second.
   */
  lemma OneMoreRecord(ledger: seq<Slot>, slot: Slot, key: string)
    ensures var before, after := OfKey(Outstanding(ledger), key), OfKey(Outstanding(ledger + [slot]), key);
      var grown := before + if Answers(ledger, key) <= |Letters(ledger, key)| then LetterAt(slot, key) else [];
      after == if AnswerFor(slot, key) && grown != [] then grown[1..] else grown
  {
    NewestAreOpen(ledger, key);
    NewestAreOpen(ledger + [slot], key);
    RecordedSoFar(ledger, slot, key);
    var sent, letter, answered := Letters(ledger, key), LetterAt(slot, key), Answers(ledger, key);
    UnansweredGrows(sent, letter, answered);
    AnsweredOneMore(sent + letter, answered);
  }

  // ---- Whose letter an answer closes ------------------------------------------------------------

  /** One name is the other, or the other up to a separator in it. */
  predicate Shadows(a: string, b: string) {
    a == b || a + [NUL] <= b || b + [NUL] <= a
  }

  lemma SharedKeyShadows(a: string, ta: Option<string>, b: string, tb: Option<string>)
    requires MatchKey(a, ta) == MatchKey(b, tb) && |a| <= |b|
    ensures a == b || a + [NUL] <= b
  {
    var key := MatchKey(a, ta);
    assert key[..|a|] == a && key[..|b|] == b && key[|a|] == NUL;
    if |a| < |b| {
      assert b[|a|] == key[|a|] && b[..|a|] == a;
    }
  }

  /** The tasks under which a letter to one of two such owners and an answer of the other share a key. */
  lemma ShadowsShareAKey(a: string, b: string) returns (ta: Option<string>, tb: Option<string>)
    requires Shadows(a, b)
    ensures MatchKey(a, ta) == MatchKey(b, tb)
  {
    ta, tb := None, None;
    if a != b {
      if a + [NUL] <= b {
        ta := Some(b[|a| + 1..] + [NUL]);
        assert b == a + [NUL] + b[|a| + 1..];
      } else {
        tb := Some(a[|b| + 1..] + [NUL]);
        assert a == b + [NUL] + a[|b| + 1..];
      }
    }
  }

  /** Owners can share a key under some tasks exactly when one name shadows the other. */
  lemma KeysCollideExactly(a: string, b: string)
    ensures (exists ta, tb :: MatchKey(a, ta) == MatchKey(b, tb)) <==> Shadows(a, b)
  {
    if Shadows(a, b) {
      var ta, tb := ShadowsShareAKey(a, b);
    }
    forall ta, tb | MatchKey(a, ta) == MatchKey(b, tb)
      ensures Shadows(a, b)
    {
      if |a| <= |b| {
        SharedKeyShadows(a, ta, b, tb);
      } else {
        SharedKeyShadows(b, tb, a, ta);
      }
    }
  }

  lemma SameNameSameTask(a: string, ta: Option<string>, tb: Option<string>)
    ensures MatchKey(a, ta) == MatchKey(a, tb) <==> TaskText(ta) == TaskText(tb)
  {
    assert MatchKey(a, ta)[|a| + 1..] == TaskText(ta) && MatchKey(a, tb)[|a| + 1..] == TaskText(tb);
  }

  /** For two owners the key stands for name and task exactly when neither name shadows the other. */
  lemma KeysAreNameAndTask(a: string, b: string)
    ensures (forall ta, tb :: MatchKey(a, ta) == MatchKey(b, tb) <==> a == b && TaskText(ta) == TaskText(tb))
       <==> a == b || !Shadows(a, b)
  {
    KeysCollideExactly(a, b);
    forall ta, tb
      ensures a == b ==> (MatchKey(a, ta) == MatchKey(b, tb) <==> TaskText(ta) == TaskText(tb))
    {
      SameNameSameTask(a, ta, tb);
    }
    if a != b && Shadows(a, b) {
      var ta, tb := ShadowsShareAKey(a, b);
      assert MatchKey(a, ta) == MatchKey(b, tb) && a != b;
    }
  }

  /** An answer in the name of `a`, sent to nobody outside. */
  predicate AnswersFor(answer: Letter, a: string) {
    answer.onBehalfOf == Some(EXTERNAL_PREFIX + a) && !answer.to.ToExternal?
  }

  /** The one letter there is, to `b`, was open until this answer for `a`. */
  ghost predicate Closes(answer: Letter, a: string, letter: External, b: string) {
    && AnswersFor(answer, a) && letter.to == ToExternal(b)
    && Outstanding([Some(letter)]) == [letter]
    && Outstanding([Some(letter), Some(answer)]) == []
  }

  lemma OpenAlone(letter: External)
    ensures Outstanding([Some(letter)]) == if AnswerFor(Some(letter), LetterKey(letter)) then [] else [letter]
  {
    var one, key := [Some(letter)], LetterKey(letter);
    assert AnswersUpTo(one, 1, key) == AnswersUpTo(one, 0, key) + if AnswerFor(Some(letter), key) then 1 else 0;
    assert OpenUpTo(one, 0) == [] && Outstanding(one) == OpenUpTo(one, 1);
    assert [] + [letter] == [letter];
  }

  lemma OpenBefore(letter: External, answer: Letter)
    requires !answer.to.ToExternal?
    ensures Outstanding([Some(letter), Some(answer)])
         == if AnswerFor(Some(letter), LetterKey(letter)) || AnswerFor(Some(answer), LetterKey(letter)) then []
            else [letter]
  {
    var two, key := [Some(letter), Some(answer)], LetterKey(letter);
    assert AnswersUpTo(two, 1, key) == AnswersUpTo(two, 0, key) + if AnswerFor(Some(letter), key) then 1 else 0;
    assert AnswersUpTo(two, 2, key) == AnswersUpTo(two, 1, key) + if AnswerFor(Some(answer), key) then 1 else 0;
    assert OpenUpTo(two, 0) == [] && Outstanding(two) == OpenUpTo(two, 2);
    assert OpenUpTo(two, 1) == if IsOpen(two, 0) then [] + [letter] else [] + [];
    assert [] + [letter] == [letter] && [letter] + [] == [letter];
  }

  lemma ClosesExactly(answer: Letter, a: string, letter: External, b: string)
    requires a != "" && AnswersFor(answer, a) && letter.to == ToExternal(b)
    ensures Closes(answer, a, letter, b) <==>
            !AnswerFor(Some(letter), LetterKey(letter)) && MatchKey(a, answer.task) == MatchKey(b, letter.task)
  {
    assert ExternalNameOf(EXTERNAL_PREFIX + a) == a;
    OpenAlone(letter);
    OpenBefore(letter, answer);
  }

  /**
   An answer recorded for one owner can close a letter to another owner if and only if one of their names continues
   the other after a NUL character, which the name schema does not exclude.
   */
  lemma WrongLetterIsClosedExactly(a: string, b: string)
    requires a != ""
    ensures (exists answer: Letter, letter: External :: Closes(answer, a, letter, b)) <==> Shadows(a, b)
  {
    KeysCollideExactly(a, b);
    if Shadows(a, b) {
      var ta, tb := ShadowsShareAKey(a, b);
      var letter: External := Letter(0, "", Cli("a"), ToExternal(b), false, "", tb, false, Anytime, None, None, None);
      var behalf := Some(EXTERNAL_PREFIX + a);
      var answer := Letter(1, "", Cli("a"), ToOwner, false, "", ta, false, Anytime, behalf, None, None);
      ClosesExactly(answer, a, letter, b);
      assert Closes(answer, a, letter, b);
    }
    forall answer: Letter, letter: External | Closes(answer, a, letter, b)
      ensures Shadows(a, b)
    {
      ClosesExactly(answer, a, letter, b);
    }
  }

  /** Two owners the name schema admits, of whom the answer of one closes the letter to the other. */
  lemma AdmittedNamesShadow()
    ensures SessionNameOk("a") && SessionNameOk("a" + [NUL] + "b")
    ensures "a" != "a" + [NUL] + "b" && Shadows("a", "a" + [NUL] + "b")
  {
    assert |"a" + [NUL] + "b"| == 3;
  }
}
