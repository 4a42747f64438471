/** The written form of a feed cursor. */
module FeedCursor {
  import opened Prelude
  import opened ChatFeed

  const GENERATION := 2

  // ---- Decimal numbers --------------------------------------------------------------------------

  predicate Digit(c: char) {
    '0' <= c <= '9'
  }

  function Value(s: string): nat
    requires forall c :: c in s ==> Digit(c)
  {
    if s == "" then 0
    else
      var last := s[|s| - 1];
      assert last in s && Digit(last);
      10 * Value(s[..|s| - 1]) + (last as int - '0' as int)
  }

  function Decimal(n: nat): (s: string)
    ensures s != "" && forall c :: c in s ==> Digit(c)
  {
    (if n < 10 then "" else Decimal(n / 10)) + [('0' as int + n % 10) as char]
  }

  /** How a number is printed: digits without a leading zero. */
  predicate Canonical(s: string) {
    s != "" && (forall c :: c in s ==> Digit(c)) && (s[0] == '0' ==> |s| == 1)
  }

  lemma {:induction false} DecimalIsCanonical(n: nat)
    ensures Canonical(Decimal(n)) && Value(Decimal(n)) == n
    ensures n > 0 ==> Decimal(n)[0] != '0'
  {
    var s := Decimal(n);
    if n >= 10 {
      DecimalIsCanonical(n / 10);
      assert s[..|s| - 1] == Decimal(n / 10);
      assert s[0] == Decimal(n / 10)[0];
    } else {
      assert s[..|s| - 1] == "";
    }
  }

  lemma {:induction false} CanonicalIsDecimal(s: string)
    requires Canonical(s)
    ensures Decimal(Value(s)) == s
    ensures s[0] != '0' ==> Value(s) > 0
  {
    var front, last := s[..|s| - 1], s[|s| - 1];
    assert last in s;
    if front != "" {
      assert front[0] == s[0];
      assert forall c :: c in front ==> c in s;
      CanonicalIsDecimal(front);
      var n := Value(s);
      assert n / 10 == Value(front) && n % 10 == last as int - '0' as int;
      assert s == front + [last];
    } else {
      assert s == [last];
    }
  }

  // ---- `parseInt` -------------------------------------------------------------------------------

  function Trimmed(s: string): string {
    if s != "" && Space(s[0]) then Trimmed(s[1..]) else s
  }

  function LeadingDigits(s: string): (d: string)
    ensures d <= s && forall c :: c in d ==> Digit(c)
    ensures |d| < |s| ==> !Digit(s[|d|])
  {
    if s != "" && Digit(s[0]) then [s[0]] + LeadingDigits(s[1..]) else ""
  }

  /** Blanks, a sign, then as many digits as there are; whatever follows them is ignored. */
  function ParseInt(s: string): Option<int> {
    var t := Trimmed(s);
    var negative := t != "" && t[0] == '-';
    var u := if t != "" && (t[0] == '-' || t[0] == '+') then t[1..] else t;
    var digits := LeadingDigits(u);
    var n: int := Value(digits);
    if digits == "" then None else Some(if negative then -n else n)
  }

  lemma {:induction false} AllDigits(s: string)
    requires forall c :: c in s ==> Digit(c)
    ensures LeadingDigits(s) == s
  {
    if s != "" {
      AllDigits(s[1..]);
    }
  }

  lemma CanonicalParses(s: string)
    requires Canonical(s)
    ensures ParseInt(s) == Some(Value(s))
  {
    assert Digit(s[0]) && s[0] != '-' && s[0] != '+' && !Space(s[0]);
    assert Trimmed(s) == s;
    AllDigits(s);
  }

  // ---- The cursor -------------------------------------------------------------------------------

  function FormatCursor(c: Cursor): string
    requires c.gen >= 0
  {
    Decimal(c.gen) + "." + (Decimal(c.ledger) + "." + Decimal(c.outbox))
  }

  /** `split('.')`: always one part more than there are dots. */
  function SplitDots(s: string, current: string): (parts: seq<string>)
    ensures parts != []
  {
    if s == "" then [current]
    else if s[0] == '.' then [current] + SplitDots(s[1..], "")
    else SplitDots(s[1..], current + [s[0]])
  }

  function FromParts(gen: Option<int>, ledger: Option<int>, outbox: Option<int>): Result<Cursor> {
    var integers := gen.Some? && ledger.Some? && outbox.Some? && ledger.value >= 0 && outbox.value >= 0;
    :- Need(integers, "expected-integers");
    :- Need(gen.value == GENERATION, "another-generation");
    Ok(Cursor(gen.value, ledger.value, outbox.value))
  }

  function ParseCursor(raw: string): Result<Cursor> {
    var parts := SplitDots(raw, "");
    :- Need(|parts| == 3, "expected-three-parts");
    FromParts(ParseInt(parts[0]), ParseInt(parts[1]), ParseInt(parts[2]))
  }

  predicate NoDot(s: string) {
    forall c :: c in s ==> c != '.'
  }

  lemma {:induction false} SplitAtDot(a: string, rest: string, current: string)
    requires NoDot(a)
    ensures SplitDots(a + "." + rest, current) == [current + a] + SplitDots(rest, "")
    ensures SplitDots(a, current) == [current + a]
  {
    var s := a + "." + rest;
    if a == "" {
      assert s[0] == '.' && s[1..] == rest && current + a == current;
    } else {
      assert s[0] == a[0] && s[1..] == a[1..] + "." + rest && a[0] in a;
      assert forall c :: c in a[1..] ==> c in a;
      SplitAtDot(a[1..], rest, current + [a[0]]);
      assert current + [a[0]] + a[1..] == current + a;
    }
  }

  function JoinDots(parts: seq<string>): string
    requires parts != []
  {
    if |parts| == 1 then parts[0] else parts[0] + "." + JoinDots(parts[1..])
  }

  lemma {:induction false} SplitJoins(s: string, current: string)
    ensures JoinDots(SplitDots(s, current)) == current + s
    decreases |s|
  {
    if s == "" {
    } else if s[0] == '.' {
      SplitJoins(s[1..], "");
      assert SplitDots(s, current)[1..] == SplitDots(s[1..], "");
      assert current + "." + s[1..] == current + s;
    } else {
      SplitJoins(s[1..], current + [s[0]]);
    }
  }

  lemma ThreeParts(a: string, b: string, c: string)
    requires NoDot(a) && NoDot(b) && NoDot(c)
    ensures SplitDots(a + "." + (b + "." + c), "") == [a, b, c]
  {
    SplitAtDot(a, b + "." + c, "");
    SplitAtDot(b, c, "");
    SplitAtDot(c, "", "");
    assert "" + a == a && "" + b == b && "" + c == c;
  }

  /** Three plain numbers are read as what they say. */
  lemma PlainPartsParse(a: string, b: string, c: string)
    requires Canonical(a) && Canonical(b) && Canonical(c)
    ensures ParseCursor(a + "." + (b + "." + c))
         == if Value(a) == GENERATION then Ok(Cursor(Value(a), Value(b), Value(c))) else Refused("another-generation")
  {
    ThreeParts(a, b, c);
    CanonicalParses(a);
    CanonicalParses(b);
    CanonicalParses(c);
  }

  /** Printing a cursor and reading it back: itself in this generation, refused in any other. */
  lemma PrintThenParse(c: Cursor)
    requires c.gen >= 0
    ensures ParseCursor(FormatCursor(c)) == if c.gen == GENERATION then Ok(c) else Refused("another-generation")
  {
    DecimalIsCanonical(c.gen);
    DecimalIsCanonical(c.ledger);
    DecimalIsCanonical(c.outbox);
    PlainPartsParse(Decimal(c.gen), Decimal(c.ledger), Decimal(c.outbox));
  }

  lemma PrintedParts(c: Cursor)
    requires c.gen >= 0
    ensures SplitDots(FormatCursor(c), "") == [Decimal(c.gen), Decimal(c.ledger), Decimal(c.outbox)]
    ensures Canonical(Decimal(c.gen)) && Canonical(Decimal(c.ledger)) && Canonical(Decimal(c.outbox))
  {
    DecimalIsCanonical(c.gen);
    DecimalIsCanonical(c.ledger);
    DecimalIsCanonical(c.outbox);
    ThreeParts(Decimal(c.gen), Decimal(c.ledger), Decimal(c.outbox));
  }

  lemma JoinThree(raw: string, a: string, b: string, c: string)
    requires SplitDots(raw, "") == [a, b, c]
    ensures raw == a + "." + (b + "." + c)
  {
    SplitJoins(raw, "");
    assert [a, b, c][1..] == [b, c] && [b, c][1..] == [c];
    assert JoinDots([c]) == c && JoinDots([b, c]) == b + "." + c;
  }

  /** What is accepted is what was printed exactly when each part is a plain number; anything else slips through. */
  lemma AcceptedIsPrinted(raw: string)
    requires ParseCursor(raw).Ok?
    ensures var parts := SplitDots(raw, "");
      raw == FormatCursor(ParseCursor(raw).value) <==> Canonical(parts[0]) && Canonical(parts[1]) && Canonical(parts[2])
  {
    var parts, c := SplitDots(raw, ""), ParseCursor(raw).value;
    PartsOfAccepted(raw);
    PlainExactly(raw, parts[0], parts[1], parts[2], c);
  }

  lemma PartsOfAccepted(raw: string)
    requires ParseCursor(raw).Ok?
    ensures |SplitDots(raw, "")| == 3 && ParseCursor(raw).value.gen >= 0
  {
  }

  lemma PlainExactly(raw: string, a: string, b: string, c: string, cursor: Cursor)
    requires SplitDots(raw, "") == [a, b, c] && ParseCursor(raw) == Ok(cursor) && cursor.gen >= 0
    ensures raw == FormatCursor(cursor) <==> Canonical(a) && Canonical(b) && Canonical(c)
  {
    if raw == FormatCursor(cursor) {
      PrintedIsPlain(raw, [a, b, c], cursor);
    }
    if Canonical(a) && Canonical(b) && Canonical(c) {
      PlainIsPrinted(raw, a, b, c, cursor);
    }
  }

  lemma PrintedIsPlain(raw: string, parts: seq<string>, cursor: Cursor)
    requires cursor.gen >= 0 && raw == FormatCursor(cursor) && parts == SplitDots(raw, "")
    ensures |parts| == 3 && Canonical(parts[0]) && Canonical(parts[1]) && Canonical(parts[2])
  {
    PrintedParts(cursor);
  }

  lemma PlainIsPrinted(raw: string, a: string, b: string, c: string, cursor: Cursor)
    requires SplitDots(raw, "") == [a, b, c] && Canonical(a) && Canonical(b) && Canonical(c)
    requires ParseCursor(raw) == Ok(cursor)
    ensures cursor.gen >= 0 && raw == FormatCursor(cursor)
  {
    JoinThree(raw, a, b, c);
    PlainPartsParse(a, b, c);
    CanonicalIsDecimal(a);
    CanonicalIsDecimal(b);
    CanonicalIsDecimal(c);
  }

  predicate Digits(s: string) {
    s != "" && forall c :: c in s ==> Digit(c)
  }

  /** What stands behind a number: nothing that would continue it, and no part of its own. */
  predicate Junk(s: string) {
    NoDot(s) && (s != "" ==> !Digit(s[0]))
  }

  lemma {:induction false} DigitsEndAtJunk(digits: string, junk: string)
    requires (forall c :: c in digits ==> Digit(c)) && Junk(junk)
    ensures LeadingDigits(digits + junk) == digits
  {
    if digits == "" {
      assert digits + junk == junk;
    } else {
      assert (digits + junk)[0] == digits[0] && digits[0] in digits && (digits + junk)[1..] == digits[1..] + junk;
      assert forall c :: c in digits[1..] ==> c in digits;
      DigitsEndAtJunk(digits[1..], junk);
      assert [digits[0]] + digits[1..] == digits;
    }
  }

  lemma JunkIsIgnored(digits: string, junk: string)
    requires Digits(digits) && Junk(junk)
    ensures ParseInt(digits + junk) == Some(Value(digits))
  {
    var s := digits + junk;
    assert s[0] == digits[0] && Digit(s[0]) && s[0] != '-' && s[0] != '+' && !Space(s[0]);
    assert Trimmed(s) == s;
    DigitsEndAtJunk(digits, junk);
  }

  lemma JunkIsNotPlain(digits: string, junk: string)
    requires Digits(digits) && Junk(junk)
    ensures NoDot(digits + junk)
    ensures Canonical(digits + junk) <==> junk == "" && Canonical(digits)
  {
    assert forall c :: c in digits + junk ==> c in digits || c in junk;
    if junk == "" {
      assert digits + junk == digits;
    } else {
      assert junk[0] in digits + junk;
    }
  }

  /**
   Malformed cursors that are not refused: whatever follows the digits of any of the three parts is ignored, and so
   are leading zeros. Only without both is the text what was printed.
   */
  lemma MalformedIsAccepted(gen: string, g: string, ledger: string, l: string, outbox: string, o: string)
    requires Digits(gen) && Digits(ledger) && Digits(outbox) && Value(gen) == GENERATION
    requires Junk(g) && Junk(l) && Junk(o)
    ensures var raw := (gen + g) + "." + ((ledger + l) + "." + (outbox + o));
      var c := Cursor(GENERATION, Value(ledger), Value(outbox));
      && ParseCursor(raw) == Ok(c)
      && (raw == FormatCursor(c) <==>
            g == "" && l == "" && o == "" && Canonical(gen) && Canonical(ledger) && Canonical(outbox))
  {
    JunkIsNotPlain(gen, g);
    JunkIsNotPlain(ledger, l);
    JunkIsNotPlain(outbox, o);
    JunkIsIgnored(gen, g);
    JunkIsIgnored(ledger, l);
    JunkIsIgnored(outbox, o);
    MalformedParts(gen + g, ledger + l, outbox + o, Cursor(GENERATION, Value(ledger), Value(outbox)));
  }

  lemma MalformedParts(a: string, b: string, c: string, cursor: Cursor)
    requires NoDot(a) && NoDot(b) && NoDot(c) && cursor.gen == GENERATION
    requires ParseInt(a) == Some(GENERATION) && ParseInt(b) == Some(cursor.ledger) && ParseInt(c) == Some(cursor.outbox)
    ensures ParseCursor(a + "." + (b + "." + c)) == Ok(cursor)
    ensures a + "." + (b + "." + c) == FormatCursor(cursor) <==> Canonical(a) && Canonical(b) && Canonical(c)
  {
    ThreeParts(a, b, c);
    PlainExactly(a + "." + (b + "." + c), a, b, c, cursor);
  }
}
