/** The chat log as a resumable stream: positions in two append-only files. */
module ChatFeed {
  import opened Prelude
  import opened Jsonl

  /** Where a reader got to: lines consumed of the ledger and of the outbox, under one record generation. */
  datatype Cursor = Cursor(gen: int, ledger: nat, outbox: nat)

  datatype Source = Ledger | Outbox

  // A row as the feed prints it.
  type Row = Bytes

  /** A readable line and its number. */
  datatype Entry = Entry(line: nat, row: Row)

  datatype Frame = Frame(cursor: Cursor, source: Source, row: Row)

  datatype Files = Files(ledger: Bytes, outbox: Bytes)

  /**
   How the feed reads a line. An unreadable ledger line still gives a row, a hole that says so; an outbox line
   that does not parse gives none.
   */
  datatype Rows = Rows(blank: Bytes -> bool, ledgerRow: Bytes -> Row, outboxRow: Bytes -> Option<Row>)

  function DecoderOf(rows: Rows, source: Source): Decoder<Entry> {
    (line: Bytes, number: nat) =>
      if rows.blank(line) then Leave
      else
        match source
        case Ledger => Keep(Entry(number, rows.ledgerRow(line)))
        case Outbox =>
          var row := rows.outboxRow(line);
          if row.Some? then Keep(Entry(number, row.value)) else Leave
  }

  function Content(files: Files, source: Source): Bytes {
    match source
    case Ledger => files.ledger
    case Outbox => files.outbox
  }

  function Position(c: Cursor, source: Source): nat {
    match source
    case Ledger => c.ledger
    case Outbox => c.outbox
  }

  function Moved(c: Cursor, source: Source, line: nat): Cursor {
    match source
    case Ledger => c.(ledger := line)
    case Outbox => c.(outbox := line)
  }

  /** No line of the feed refuses its file, so reading gives entries. */
  lemma {:induction false} FeedNeverRefuses(lines: seq<Bytes>, before: nat, rows: Rows, source: Source)
    ensures DecodeLines(lines, before, DecoderOf(rows, source)).Ok?
    decreases |lines|
  {
    if lines != [] {
      FeedNeverRefuses(lines[1..], before + 1, rows, source);
    }
  }

  function Entries(rows: Rows, files: Files, source: Source): seq<Entry> {
    FeedNeverRefuses(WholeLines(Content(files, source), []), 0, rows, source);
    ReadAll(Content(files, source), DecoderOf(rows, source)).value
  }

  // ---- One drain --------------------------------------------------------------------------------

  function Past(entries: seq<Entry>, position: nat): seq<Entry> {
    if entries == [] then []
    else (if entries[0].line > position then [entries[0]] else []) + Past(entries[1..], position)
  }

  function LastLine(entries: seq<Entry>, position: nat): nat {
    if entries == [] then position else entries[|entries| - 1].line
  }

  /** Each entry with the cursor that has just consumed it. */
  function Framed(entries: seq<Entry>, at: Cursor, source: Source): seq<Frame> {
    if entries == [] then []
    else [Frame(Moved(at, source, entries[0].line), source, entries[0].row)] + Framed(entries[1..], at, source)
  }

  /** The ledger first, then the outbox, each in file order. */
  function DrainedOf(ledger: seq<Entry>, outbox: seq<Entry>, c: Cursor): (seq<Frame>, Cursor) {
    var first := Past(ledger, c.ledger);
    var second := Past(outbox, c.outbox);
    var at := c.(ledger := LastLine(first, c.ledger));
    (Framed(first, c, Ledger) + Framed(second, at, Outbox), at.(outbox := LastLine(second, c.outbox)))
  }

  function Drained(rows: Rows, files: Files, c: Cursor): (seq<Frame>, Cursor) {
    DrainedOf(Entries(rows, files, Ledger), Entries(rows, files, Outbox), c)
  }

  lemma {:induction false} PastSnoc(entries: seq<Entry>, e: Entry, position: nat)
    ensures Past(entries + [e], position) == Past(entries, position) + if e.line > position then [e] else []
  {
    if entries != [] {
      assert (entries + [e])[1..] == entries[1..] + [e];
      PastSnoc(entries[1..], e, position);
    } else {
      assert (entries + [e])[1..] == [];
    }
  }

  lemma {:induction false} FramedSnoc(entries: seq<Entry>, e: Entry, at: Cursor, source: Source)
    ensures Framed(entries + [e], at, source)
         == Framed(entries, at, source) + [Frame(Moved(at, source, e.line), source, e.row)]
  {
    if entries != [] {
      assert (entries + [e])[1..] == entries[1..] + [e];
      FramedSnoc(entries[1..], e, at, source);
    } else {
      assert (entries + [e])[1..] == [];
    }
  }

  /** One of the two loops: frames of the entries past the position, and the cursor after the last of them. */
  method Emit(entries: seq<Entry>, start: Cursor, source: Source) returns (frames: seq<Frame>, at: Cursor)
    ensures frames == Framed(Past(entries, Position(start, source)), start, source)
    ensures at == Moved(start, source, LastLine(Past(entries, Position(start, source)), Position(start, source)))
  {
    frames := [];
    at := start;
    var position := Position(start, source);
    for i := 0 to |entries|
      invariant frames == Framed(Past(entries[..i], position), start, source)
      invariant at == Moved(start, source, LastLine(Past(entries[..i], position), position))
    {
      var e := entries[i];
      assert entries[..i + 1] == entries[..i] + [e];
      PastSnoc(entries[..i], e, position);
      assert Past(entries[..i], position) + [] == Past(entries[..i], position);
      if e.line <= position {
        continue;
      }
      FramedSnoc(Past(entries[..i], position), e, start, source);
      at := Moved(at, source, e.line);
      frames := frames + [Frame(at, source, e.row)];
    }
    assert entries[..|entries|] == entries;
  }

  method RowsAfter(rows: Rows, files: Files, c: Cursor) returns (frames: seq<Frame>, at: Cursor)
    ensures (frames, at) == Drained(rows, files, c)
  {
    var ledger, afterLedger := Emit(Entries(rows, files, Ledger), c, Ledger);
    var outbox, afterOutbox := Emit(Entries(rows, files, Outbox), afterLedger, Outbox);
    return ledger + outbox, afterOutbox;
  }

  /** Follows both files: every wake-up emits what appeared after the cursor and moves it there. */
  class Follower {
    const rows: Rows
    var cursor: Cursor

    constructor (rows: Rows, from: Cursor)
      ensures this.rows == rows && cursor == from
    {
      this.rows, cursor := rows, from;
    }

    method Drain(files: Files) returns (frames: seq<Frame>)
      modifies this`cursor
      ensures (frames, cursor) == Drained(rows, files, old(cursor))
    {
      frames, cursor := RowsAfter(rows, files, cursor);
    }
  }

  // ---- Entries stand in line order and only grow ------------------------------------------------

  predicate Increasing(entries: seq<Entry>) {
    forall i, j :: 0 <= i < j < |entries| ==> entries[i].line < entries[j].line
  }

  lemma {:induction false} DecodedLines(lines: seq<Bytes>, before: nat, rows: Rows, source: Source)
    ensures var r := DecodeLines(lines, before, DecoderOf(rows, source));
      r.Ok? && Increasing(r.value) && forall e :: e in r.value ==> before < e.line
    decreases |lines|
  {
    if lines != [] {
      DecodedLines(lines[1..], before + 1, rows, source);
    }
  }

  lemma EntriesIncrease(rows: Rows, files: Files, source: Source)
    ensures Increasing(Entries(rows, files, source))
  {
    DecodedLines(WholeLines(Content(files, source), []), 0, rows, source);
  }

  predicate Grows(files: Files, later: Files) {
    files.ledger <= later.ledger && files.outbox <= later.outbox
  }

  lemma EntriesGrow(rows: Rows, files: Files, later: Files, source: Source)
    requires Grows(files, later)
    ensures Entries(rows, files, source) <= Entries(rows, later, source)
  {
    var a, b := WholeLines(Content(files, source), []), WholeLines(Content(later, source), []);
    LinesGrow(Content(files, source), Content(later, source), []);
    assert b == a + b[|a|..];
    FeedNeverRefuses(a, 0, rows, source);
    FeedNeverRefuses(b[|a|..], |a|, rows, source);
    DecodeOfConcat(a, b[|a|..], 0, DecoderOf(rows, source));
  }

  // ---- What lies past a position ----------------------------------------------------------------

  lemma {:induction false} PastConcat(a: seq<Entry>, b: seq<Entry>, position: nat)
    ensures Past(a + b, position) == Past(a, position) + Past(b, position)
  {
    if a == [] {
      assert a + b == b;
    } else {
      assert (a + b)[1..] == a[1..] + b;
      PastConcat(a[1..], b, position);
    }
  }

  lemma {:induction false} PastNone(entries: seq<Entry>, position: nat)
    requires forall e :: e in entries ==> e.line <= position
    ensures Past(entries, position) == []
  {
    if entries != [] {
      PastNone(entries[1..], position);
    }
  }

  lemma {:induction false} PastAll(entries: seq<Entry>, position: nat)
    requires forall e :: e in entries ==> e.line > position
    ensures Past(entries, position) == entries
  {
    if entries != [] {
      PastAll(entries[1..], position);
    }
  }

  lemma IncreasingTail(entries: seq<Entry>)
    requires Increasing(entries) && entries != []
    ensures Increasing(entries[1..])
    ensures forall e :: e in entries[1..] ==> entries[0].line < e.line
    ensures entries[0].line <= entries[|entries| - 1].line
  {
    assert forall i :: 0 <= i < |entries| - 1 ==> entries[1..][i] == entries[i + 1];
  }

  /** Past a position, an ordered file is its own end. */
  lemma {:induction false} PastIsATail(entries: seq<Entry>, position: nat) returns (cut: nat)
    requires Increasing(entries)
    ensures cut <= |entries| && Past(entries, position) == entries[cut..]
    ensures cut < |entries| ==> entries[|entries| - 1].line > position
  {
    if entries == [] {
      return 0;
    }
    IncreasingTail(entries);
    if entries[0].line > position {
      PastAll(entries[1..], position);
      return 0;
    }
    cut := PastIsATail(entries[1..], position);
    assert entries[1..][cut..] == entries[cut + 1..];
    cut := cut + 1;
  }

  lemma PastWhatIsLonger(entries: seq<Entry>, more: seq<Entry>, position: nat)
    requires Increasing(entries + more) && entries != [] && entries[|entries| - 1].line >= position
    ensures Past(entries + more, entries[|entries| - 1].line) == more && Past(more, position) == more
  {
    var all, last := entries + more, entries[|entries| - 1].line;
    assert all[|entries| - 1].line == last;
    assert forall i :: 0 <= i < |entries| ==> entries[i] == all[i];
    assert forall i :: 0 <= i < |more| ==> more[i] == all[|entries| + i];
    PastNone(entries, last);
    PastAll(more, last);
    PastAll(more, position);
    PastConcat(entries, more, last);
  }

  /** A consumer that has taken what was there takes next exactly what has been added since. */
  lemma PastInTwoReads(entries: seq<Entry>, more: seq<Entry>, position: nat)
    requires Increasing(entries + more)
    ensures var first := Past(entries, position);
      Past(entries + more, position) == first + Past(entries + more, LastLine(first, position))
  {
    assert forall i :: 0 <= i < |entries| ==> (entries + more)[i] == entries[i];
    PastConcat(entries, more, position);
    var cut := PastIsATail(entries, position);
    if cut < |entries| {
      PastWhatIsLonger(entries, more, position);
    }
  }

  lemma {:induction false} CutAfter(entries: seq<Entry>, i: nat)
    requires Increasing(entries) && i < |entries|
    ensures Past(entries, entries[i].line) == entries[i + 1..]
  {
    IncreasingTail(entries);
    if i == 0 {
      PastAll(entries[1..], entries[0].line);
    } else {
      CutAfter(entries[1..], i - 1);
    }
  }

  /** Resuming after the `j`th of them leaves those behind it. */
  lemma PastAfter(entries: seq<Entry>, position: nat, j: nat)
    requires Increasing(entries) && j < |Past(entries, position)|
    ensures Past(entries, Past(entries, position)[j].line) == Past(entries, position)[j + 1..]
  {
    var cut := PastIsATail(entries, position);
    CutAfter(entries, cut + j);
    assert entries[cut..][j + 1..] == entries[cut + j + 1..];
  }

  // ---- Exactly once -----------------------------------------------------------------------------

  /** What a consumer has been told of one file, line by line. */
  function Told(frames: seq<Frame>, source: Source): seq<Entry> {
    if frames == [] then []
    else
      (if frames[0].source == source then [Entry(Position(frames[0].cursor, source), frames[0].row)] else [])
      + Told(frames[1..], source)
  }

  /** Everything a follower emits while the files grow. */
  function Stream(rows: Rows, files: seq<Files>, c: Cursor): seq<Frame>
    decreases |files|
  {
    if files == [] then []
    else
      var (frames, at) := Drained(rows, files[0], c);
      frames + Stream(rows, files[1..], at)
  }

  ghost predicate Growing(files: seq<Files>) {
    forall i :: 0 <= i < |files| - 1 ==> Grows(files[i], files[i + 1])
  }

  lemma EntriesAssociate(a: seq<Entry>, b: seq<Entry>, c: seq<Entry>)
    ensures (a + b) + c == a + (b + c)
  {
  }

  lemma {:induction false} ToldOfConcat(a: seq<Frame>, b: seq<Frame>, source: Source)
    ensures Told(a + b, source) == Told(a, source) + Told(b, source)
  {
    if a == [] {
      assert a + b == b;
    } else {
      var rest := a[1..];
      ToldOfConcat(rest, b, source);
      assert (a + b)[0] == a[0] && (a + b)[1..] == rest + b;
      var first := if a[0].source == source then [Entry(Position(a[0].cursor, source), a[0].row)] else [];
      EntriesAssociate(first, Told(rest, source), Told(b, source));
    }
  }

  lemma {:induction false} ToldOfFramed(entries: seq<Entry>, at: Cursor, file: Source, source: Source)
    ensures Told(Framed(entries, at, file), source) == if file == source then entries else []
    decreases |entries|
  {
    if entries != [] {
      ToldOfFramed(entries[1..], at, file, source);
      assert Framed(entries, at, file)[1..] == Framed(entries[1..], at, file);
    }
  }

  lemma ToldOfDrain(rows: Rows, files: Files, c: Cursor, source: Source)
    ensures Told(Drained(rows, files, c).0, source) == Past(Entries(rows, files, source), Position(c, source))
    ensures Position(Drained(rows, files, c).1, source)
         == LastLine(Past(Entries(rows, files, source), Position(c, source)), Position(c, source))
  {
    var ledger := Past(Entries(rows, files, Ledger), c.ledger);
    var outbox := Past(Entries(rows, files, Outbox), c.outbox);
    var at := c.(ledger := LastLine(ledger, c.ledger));
    ToldOfConcat(Framed(ledger, c, Ledger), Framed(outbox, at, Outbox), source);
    ToldOfFramed(ledger, c, Ledger, source);
    ToldOfFramed(outbox, at, Outbox, source);
  }

  /**
   However the files grow between drains: of each file a follower emits every readable line past the cursor it
   started from exactly once, in file order.
   */
  lemma {:induction false} StreamIsExactlyOnce(rows: Rows, files: seq<Files>, c: Cursor, source: Source)
    requires files != [] && Growing(files)
    ensures Told(Stream(rows, files, c), source)
         == Past(Entries(rows, files[|files| - 1], source), Position(c, source))
    decreases |files|
  {
    var (frames, at) := Drained(rows, files[0], c);
    var last := files[|files| - 1];
    GrowsToTheLast(files);
    ToldOfConcat(frames, Stream(rows, files[1..], at), source);
    if |files| > 1 {
      StreamIsExactlyOnce(rows, files[1..], at, source);
    } else {
      ToldOnce(rows, last, c, source);
    }
    OneMoreDrain(rows, files[0], last, c, source, Told(Stream(rows, files[1..], at), source));
  }

  /** After a drain nothing is left to tell of the same files. */
  lemma ToldOnce(rows: Rows, files: Files, c: Cursor, source: Source)
    ensures Past(Entries(rows, files, source), Position(Drained(rows, files, c).1, source)) == []
  {
    ToldOfDrain(rows, files, c, source);
    EntriesIncrease(rows, files, source);
    NothingLeft(Entries(rows, files, source), Position(c, source));
  }

  /** A drain, and then whatever tells the rest. */
  lemma OneMoreDrain(rows: Rows, files: Files, last: Files, c: Cursor, source: Source, rest: seq<Entry>)
    requires Grows(files, last)
    requires rest == Past(Entries(rows, last, source), Position(Drained(rows, files, c).1, source))
    ensures Told(Drained(rows, files, c).0, source) + rest == Past(Entries(rows, last, source), Position(c, source))
  {
    ToldOfDrain(rows, files, c, source);
    ReadInTwo(rows, files, last, Position(c, source), source);
  }

  lemma ReadInTwo(rows: Rows, files: Files, later: Files, position: nat, source: Source)
    requires Grows(files, later)
    ensures var first := Past(Entries(rows, files, source), position);
      Past(Entries(rows, later, source), position)
      == first + Past(Entries(rows, later, source), LastLine(first, position))
  {
    var now, all := Entries(rows, files, source), Entries(rows, later, source);
    EntriesGrow(rows, files, later, source);
    EntriesIncrease(rows, later, source);
    assert all == now + all[|now|..];
    PastInTwoReads(now, all[|now|..], position);
  }

  lemma {:induction false} GrowsToTheLast(files: seq<Files>)
    requires files != [] && Growing(files)
    ensures Grows(files[0], files[|files| - 1]) && Growing(files[1..])
  {
    if |files| > 1 {
      GrowsToTheLast(files[..|files| - 1]);
      assert Grows(files[|files| - 2], files[|files| - 2 + 1]);
    }
  }

  // ---- Restarting from any frame ----------------------------------------------------------------

  lemma {:induction false} FramedDrop(entries: seq<Entry>, at: Cursor, resumed: Cursor, source: Source, j: nat)
    requires j <= |entries| && Moved(at, source, 0) == Moved(resumed, source, 0)
    ensures |Framed(entries, at, source)| == |entries|
    ensures Framed(entries, at, source)[j..] == Framed(entries[j..], resumed, source)
    ensures j < |entries| ==> Framed(entries, at, source)[j].cursor == Moved(at, source, entries[j].line)
    decreases |entries|
  {
    if entries != [] {
      if j == 0 {
        FramedDrop(entries[1..], at, resumed, source, 0);
      } else {
        FramedDrop(entries[1..], at, resumed, source, j - 1);
        assert entries[1..][j - 1..] == entries[j..];
      }
    }
  }

  ghost predicate RestartsAt(L: seq<Entry>, O: seq<Entry>, c: Cursor, j: nat) {
    var drained := DrainedOf(L, O, c);
    j < |drained.0| && DrainedOf(L, O, drained.0[j].cursor) == (drained.0[j + 1..], drained.1)
  }

  /** What stands behind the `j`th frame of a file is what its cursor resumes with. */
  lemma FramesBehind(entries: seq<Entry>, at: Cursor, source: Source, j: nat)
    requires j < |entries|
    ensures var resumed := Moved(at, source, entries[j].line);
      && |Framed(entries, at, source)| == |entries|
      && Framed(entries, at, source)[j].cursor == resumed
      && Framed(entries, at, source)[j + 1..] == Framed(entries[j + 1..], resumed, source)
  {
    var resumed := Moved(at, source, entries[j].line);
    FramedDrop(entries, at, at, source, j);
    FramedDrop(entries, at, resumed, source, j + 1);
  }

  lemma DropInFirst(first: seq<Frame>, second: seq<Frame>, j: nat)
    requires j < |first|
    ensures (first + second)[j] == first[j] && (first + second)[j + 1..] == first[j + 1..] + second
  {
  }

  lemma DropInSecond(first: seq<Frame>, second: seq<Frame>, i: nat)
    requires i < |second|
    ensures (first + second)[|first| + i] == second[i] && (first + second)[|first| + i + 1..] == second[i + 1..]
  {
  }

  lemma RestartInTheLedger(L: seq<Entry>, O: seq<Entry>, c: Cursor, j: nat)
    requires Increasing(L) && j < |Past(L, c.ledger)|
    ensures RestartsAt(L, O, c, j)
  {
    var ledger := Past(L, c.ledger);
    var at := c.(ledger := LastLine(ledger, c.ledger));
    FramesBehind(ledger, c, Ledger, j);
    PastAfter(L, c.ledger, j);
    DropInFirst(Framed(ledger, c, Ledger), Framed(Past(O, c.outbox), at, Outbox), j);
  }

  lemma OutboxBehind(L: seq<Entry>, O: seq<Entry>, at: Cursor, i: nat)
    requires Increasing(O) && Past(L, at.ledger) == [] && i < |Past(O, at.outbox)|
    ensures var outbox := Past(O, at.outbox);
      && |Framed(outbox, at, Outbox)| == |outbox|
      && DrainedOf(L, O, Framed(outbox, at, Outbox)[i].cursor)
         == (Framed(outbox, at, Outbox)[i + 1..], at.(outbox := LastLine(outbox, at.outbox)))
  {
    var outbox := Past(O, at.outbox);
    FramesBehind(outbox, at, Outbox, i);
    PastAfter(O, at.outbox, i);
    OnlyOutboxLeft(L, O, at.(outbox := outbox[i].line));
  }

  lemma DrainSplits(L: seq<Entry>, O: seq<Entry>, c: Cursor)
    ensures var at := c.(ledger := LastLine(Past(L, c.ledger), c.ledger));
      && DrainedOf(L, O, c).0 == Framed(Past(L, c.ledger), c, Ledger) + Framed(Past(O, c.outbox), at, Outbox)
      && DrainedOf(L, O, c).1 == at.(outbox := LastLine(Past(O, at.outbox), at.outbox))
  {
  }

  /** A drain, taken apart where its outbox half begins. */
  lemma OutboxHalf(L: seq<Entry>, O: seq<Entry>, c: Cursor)
    returns (at: Cursor, end: Cursor, first: seq<Frame>, second: seq<Frame>)
    requires Increasing(L)
    ensures at.outbox == c.outbox && Past(L, at.ledger) == []
    ensures DrainedOf(L, O, c) == (first + second, end) && |first| == |Past(L, c.ledger)|
    ensures second == Framed(Past(O, at.outbox), at, Outbox)
    ensures end == at.(outbox := LastLine(Past(O, at.outbox), at.outbox))
  {
    at := c.(ledger := LastLine(Past(L, c.ledger), c.ledger));
    end := at.(outbox := LastLine(Past(O, at.outbox), at.outbox));
    first, second := Framed(Past(L, c.ledger), c, Ledger), Framed(Past(O, at.outbox), at, Outbox);
    FrameCount(L, O, c);
    DrainSplits(L, O, c);
    NothingLeft(L, c.ledger);
  }

  lemma RestartInTheOutbox(L: seq<Entry>, O: seq<Entry>, c: Cursor, j: nat)
    requires Increasing(L) && Increasing(O)
    requires |Past(L, c.ledger)| <= j < |Past(L, c.ledger)| + |Past(O, c.outbox)|
    ensures RestartsAt(L, O, c, j)
  {
    var at, end, first, second := OutboxHalf(L, O, c);
    RestartBehind(L, O, c, at, end, first, second, j - |first|);
  }

  lemma RestartBehind(
    L: seq<Entry>, O: seq<Entry>, c: Cursor, at: Cursor, end: Cursor, first: seq<Frame>, second: seq<Frame>, i: nat)
    requires Increasing(O) && Past(L, at.ledger) == [] && i < |Past(O, at.outbox)|
    requires second == Framed(Past(O, at.outbox), at, Outbox)
    requires end == at.(outbox := LastLine(Past(O, at.outbox), at.outbox))
    requires DrainedOf(L, O, c) == (first + second, end)
    ensures RestartsAt(L, O, c, |first| + i)
  {
    OutboxBehind(L, O, at, i);
    DropInSecond(first, second, i);
  }

  lemma OnlyOutboxLeft(L: seq<Entry>, O: seq<Entry>, c: Cursor)
    requires Past(L, c.ledger) == []
    ensures var outbox := Past(O, c.outbox);
      DrainedOf(L, O, c) == (Framed(outbox, c, Outbox), c.(outbox := LastLine(outbox, c.outbox)))
  {
    assert c.(ledger := LastLine(Past(L, c.ledger), c.ledger)) == c;
    assert [] + Framed(Past(O, c.outbox), c, Outbox) == Framed(Past(O, c.outbox), c, Outbox);
  }

  lemma FrameCount(L: seq<Entry>, O: seq<Entry>, c: Cursor)
    ensures |Framed(Past(L, c.ledger), c, Ledger)| == |Past(L, c.ledger)|
    ensures |DrainedOf(L, O, c).0| == |Past(L, c.ledger)| + |Past(O, c.outbox)|
  {
    var at := c.(ledger := LastLine(Past(L, c.ledger), c.ledger));
    FramedDrop(Past(L, c.ledger), c, c, Ledger, 0);
    FramedDrop(Past(O, c.outbox), at, at, Outbox, 0);
  }

  lemma NothingLeft(entries: seq<Entry>, position: nat)
    requires Increasing(entries)
    ensures Past(entries, LastLine(Past(entries, position), position)) == []
  {
    assert entries + [] == entries;
    PastInTwoReads(entries, [], position);
  }

  lemma RestartOf(L: seq<Entry>, O: seq<Entry>, c: Cursor, j: nat)
    requires Increasing(L) && Increasing(O) && j < |DrainedOf(L, O, c).0|
    ensures RestartsAt(L, O, c, j)
  {
    assert j < |Past(L, c.ledger)| + |Past(O, c.outbox)| by {
      FrameCount(L, O, c);
    }
    if j < |Past(L, c.ledger)| {
      RestartInTheLedger(L, O, c, j);
    } else {
      RestartInTheOutbox(L, O, c, j);
    }
  }

  /** On the files as they are, the cursor of any frame resumes with exactly the frames behind it. */
  lemma RestartRepeatsTheRest(rows: Rows, files: Files, c: Cursor, j: nat)
    requires j < |Drained(rows, files, c).0|
    ensures var (frames, at) := Drained(rows, files, c);
      Drained(rows, files, frames[j].cursor) == (frames[j + 1..], at)
  {
    EntriesIncrease(rows, files, Ledger);
    EntriesIncrease(rows, files, Outbox);
    RestartOf(Entries(rows, files, Ledger), Entries(rows, files, Outbox), c, j);
  }

  /**
   A consumer that lost its stream after any frame and reopens it from that frame's cursor, at any later time,
   is told of each file exactly what it would have been told: nothing twice, nothing skipped.
   */
  lemma RestartLosesNothing(rows: Rows, files: seq<Files>, c: Cursor, j: nat, source: Source)
    requires files != [] && Growing(files) && j < |Drained(rows, files[0], c).0|
    ensures var (frames, at) := Drained(rows, files[0], c);
      Told(frames[j + 1..] + Stream(rows, files[1..], at), source)
      == Told(Drained(rows, files[|files| - 1], frames[j].cursor).0, source)
  {
    var (frames, at) := Drained(rows, files[0], c);
    var resumed := frames[j].cursor;
    RestartRepeatsTheRest(rows, files[0], c, j);
    assert Stream(rows, files, resumed) == frames[j + 1..] + Stream(rows, files[1..], at);
    StreamIsExactlyOnce(rows, files, resumed, source);
    ToldOfDrain(rows, files[|files| - 1], resumed, source);
  }
}
