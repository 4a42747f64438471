/** Append-only JSON-lines files: a reader that pays for new bytes only, and the reader it must agree with. */
module Jsonl {
  import opened Prelude

  const NEWLINE: byte := 10
  const FINGERPRINT: nat := 256

  /** What becomes of one whole line: left out, a record, or a refusal of the file. */
  datatype Decision<+T> = Leave | Keep(record: T) | Refuse(reason: string)

  // A line's bytes and its number, counted from 1 over all lines.
  type Decoder<!T> = (Bytes, nat) -> Decision<T>

  // ---- The simple reader ------------------------------------------------------------------------

  /** The lines that end in a newline; the bytes after the last one are a record still being written. */
  function WholeLines(content: Bytes, current: Bytes): seq<Bytes> {
    if content == [] then []
    else if content[0] == NEWLINE then [current] + WholeLines(content[1..], [])
    else WholeLines(content[1..], current + [content[0]])
  }

  function DecodeLines<T>(lines: seq<Bytes>, before: nat, decode: Decoder<T>): Result<seq<T>> {
    if lines == [] then Ok([])
    else
      match decode(lines[0], before + 1)
      case Refuse(reason) => Refused(reason)
      case Leave => DecodeLines(lines[1..], before + 1, decode)
      case Keep(record) =>
        var rest :- DecodeLines(lines[1..], before + 1, decode);
        Ok([record] + rest)
  }

  /** Every record of the file, decoded from its first byte. */
  function ReadAll<T>(content: Bytes, decode: Decoder<T>): Result<seq<T>> {
    DecodeLines(WholeLines(content, []), 0, decode)
  }

  // ---- The pieces the fast reader is built from -------------------------------------------------

  /** `split('\n')`: one piece more than there are newlines. */
  function Pieces(text: Bytes, current: Bytes): seq<Bytes> {
    if text == [] then [current]
    else if text[0] == NEWLINE then [current] + Pieces(text[1..], [])
    else Pieces(text[1..], current + [text[0]])
  }

  method LastNewline(buffer: Bytes) returns (end: int)
    ensures -1 <= end < |buffer|
    ensures end >= 0 ==> buffer[end] == NEWLINE
    ensures forall i :: end < i < |buffer| ==> buffer[i] != NEWLINE
  {
    end := |buffer| - 1;
    while end >= 0 && buffer[end] != NEWLINE
      invariant -1 <= end < |buffer|
      invariant forall i :: end < i < |buffer| ==> buffer[i] != NEWLINE
    {
      end := end - 1;
    }
  }

  lemma {:induction false} NothingWhole(content: Bytes, current: Bytes)
    requires forall i :: 0 <= i < |content| ==> content[i] != NEWLINE
    ensures WholeLines(content, current) == []
  {
    if content != [] {
      NothingWhole(content[1..], current + [content[0]]);
    }
  }

  /** Cutting at the last newline and splitting gives exactly the whole lines. */
  lemma {:induction false} PiecesAreWholeLines(buffer: Bytes, end: nat, current: Bytes)
    requires end < |buffer| && buffer[end] == NEWLINE
    requires forall i :: end < i < |buffer| ==> buffer[i] != NEWLINE
    ensures Pieces(buffer[..end], current) == WholeLines(buffer, current)
    decreases end
  {
    if end == 0 {
      NothingWhole(buffer[1..], []);
    } else {
      assert buffer[..end][1..] == buffer[1..][..end - 1];
      PiecesAreWholeLines(buffer[1..], end - 1, if buffer[0] == NEWLINE then [] else current + [buffer[0]]);
    }
  }

  /** Lines of a text that follows complete ones are the lines of both, one after the other. */
  lemma {:induction false} LinesOfConcat(a: Bytes, b: Bytes, current: Bytes)
    requires if a == [] then current == [] else a[|a| - 1] == NEWLINE
    ensures WholeLines(a + b, current) == WholeLines(a, current) + WholeLines(b, [])
    decreases |a|
  {
    if a == [] {
      assert a + b == b;
    } else {
      assert (a + b)[1..] == a[1..] + b;
      LinesOfConcat(a[1..], b, if a[0] == NEWLINE then [] else current + [a[0]]);
    }
  }

  /** Appending to a file only adds whole lines. */
  lemma {:induction false} LinesGrow(content: Bytes, longer: Bytes, current: Bytes)
    requires content <= longer
    ensures WholeLines(content, current) <= WholeLines(longer, current)
    decreases |content|
  {
    if content != [] {
      LinesGrow(content[1..], longer[1..], if content[0] == NEWLINE then [] else current + [content[0]]);
    }
  }

  function Both<T>(first: Result<seq<T>>, second: Result<seq<T>>): Result<seq<T>> {
    if first.Refused? then first
    else if second.Refused? then second
    else Ok(first.value + second.value)
  }

  lemma {:induction false} DecodeOfConcat<T>(a: seq<Bytes>, b: seq<Bytes>, before: nat, decode: Decoder<T>)
    ensures DecodeLines(a + b, before, decode)
         == Both(DecodeLines(a, before, decode), DecodeLines(b, before + |a|, decode))
    decreases |a|
  {
    if a == [] {
      assert a + b == b;
      var second := DecodeLines(b, before, decode);
      assert second.Ok? ==> [] + second.value == second.value;
    } else {
      assert (a + b)[1..] == a[1..] + b;
      DecodeOfConcat(a[1..], b, before + 1, decode);
      var kept := decode(a[0], before + 1);
      var first := DecodeLines(a[1..], before + 1, decode);
      var second := DecodeLines(b, before + |a|, decode);
      if kept.Keep? && first.Ok? && second.Ok? {
        assert [kept.record] + (first.value + second.value) == ([kept.record] + first.value) + second.value;
      }
    }
  }

  /** What decoding one line adds to the records there are. */
  lemma OneMoreLine<T>(lines: seq<Bytes>, i: nat, before: nat, decode: Decoder<T>, added: seq<T>)
    requires i < |lines|
    ensures var rest := DecodeLines(lines[i + 1..], before + i + 1, decode);
      Both(Ok(added), DecodeLines(lines[i..], before + i, decode)) ==
        match decode(lines[i], before + i + 1)
        case Refuse(reason) => Refused(reason)
        case Leave => Both(Ok(added), rest)
        case Keep(record) => Both(Ok(added + [record]), rest)
  {
    assert lines[i..][0] == lines[i] && lines[i..][1..] == lines[i + 1..];
    var rest := DecodeLines(lines[i + 1..], before + i + 1, decode);
    var kept := decode(lines[i], before + i + 1);
    if kept.Keep? && rest.Ok? {
      assert (added + [kept.record]) + rest.value == added + ([kept.record] + rest.value);
    }
  }

  lemma TailOfConcat(a: Bytes, b: Bytes, n: nat)
    ensures Last(Last(a, n) + Last(b, n), n) == Last(a + b, n)
  {
    var short := Last(a, n) + Last(b, n);
    assert short == (if |b| >= n then Last(a, n) + Last(b, n) else Last(a, n) + b);
    assert |b| >= n ==> Last(short, n) == Last(b, n);
  }

  lemma WholeLinesOfPart(buffer: Bytes, end: nat)
    requires end < |buffer| && buffer[end] == NEWLINE
    requires forall i :: end < i < |buffer| ==> buffer[i] != NEWLINE
    ensures WholeLines(buffer[..end + 1], []) == WholeLines(buffer, [])
  {
    LinesOfConcat(buffer[..end + 1], buffer[end + 1..], []);
    NothingWhole(buffer[end + 1..], []);
    assert buffer[..end + 1] + buffer[end + 1..] == buffer;
  }

  // ---- The fast reader --------------------------------------------------------------------------

  datatype File = Absent | Present(identity: nat, content: Bytes)

  datatype Decoded<+T> = Decoded(identity: nat, decoder: nat, offset: nat, lines: nat, records: seq<T>, tail: Bytes)

  /** What is remembered describes the content it was decoded from. */
  ghost predicate Describes<T>(k: Decoded<T>, seen: Bytes, decode: Decoder<T>) {
    && k.offset == |seen| && (seen != [] ==> seen[|seen| - 1] == NEWLINE)
    && k.lines == |WholeLines(seen, [])|
    && ReadAll(seen, decode) == Ok(k.records)
    && k.tail == Last(seen, FINGERPRINT)
  }

  function Extended<T>(k: Decoded<T>, consumed: Bytes, lines: nat, added: seq<T>): Decoded<T> {
    Decoded(k.identity, k.decoder, k.offset + |consumed|, k.lines + lines, k.records + added,
            Last(k.tail + Last(consumed, FINGERPRINT), FINGERPRINT))
  }

  /** Reading on from where a read stopped is reading both parts. */
  lemma ReadOn<T>(k: Decoded<T>, seen: Bytes, buffer: Bytes, decode: Decoder<T>)
    requires Describes(k, seen, decode)
    ensures ReadAll(seen + buffer, decode)
         == Both(Ok(k.records), DecodeLines(WholeLines(buffer, []), k.lines, decode))
  {
    LinesOfConcat(seen, buffer, []);
    DecodeInTwo(WholeLines(seen, []), WholeLines(buffer, []), WholeLines(seen + buffer, []), 0, k.lines, Ok(k.records),
                decode);
  }

  lemma DecodeInTwo<T>(
    a: seq<Bytes>, b: seq<Bytes>, all: seq<Bytes>, before: nat, lines: nat, first: Result<seq<T>>, decode: Decoder<T>)
    requires all == a + b && lines == before + |a| && DecodeLines(a, before, decode) == first
    ensures DecodeLines(all, before, decode) == Both(first, DecodeLines(b, lines, decode))
  {
    DecodeOfConcat(a, b, before, decode);
  }

  lemma ExtendedDescribes<T>(k: Decoded<T>, seen: Bytes, buffer: Bytes, end: nat, added: seq<T>, decode: Decoder<T>)
    requires Describes(k, seen, decode)
    requires end < |buffer| && buffer[end] == NEWLINE && forall i :: end < i < |buffer| ==> buffer[i] != NEWLINE
    requires DecodeLines(WholeLines(buffer, []), k.lines, decode) == Ok(added)
    ensures Describes(Extended(k, buffer[..end + 1], |WholeLines(buffer, [])|, added), seen + buffer[..end + 1], decode)
  {
    var consumed := buffer[..end + 1];
    WholeLinesOfPart(buffer, end);
    LinesOfConcat(seen, consumed, []);
    ReadOn(k, seen, consumed, decode);
    TailOfConcat(seen, consumed, FINGERPRINT);
  }

  /** What is remembered of one path. `seen` is the content it was decoded from. */
  class Reader<T> {
    const decoders: nat -> Decoder<T>
    var known: Option<Decoded<T>>
    ghost var seen: Bytes

    ghost predicate Valid()
      reads this
    {
      known.Some? ==> Describes(known.value, seen, decoders(known.value.decoder))
    }

    /** The file was not rewritten under the fingerprint: what was decoded is still how it begins. */
    ghost predicate AppendedOnly(file: File)
      reads this
    {
      known.Some? && file.Present? && file.identity == known.value.identity ==>
        |seen| <= |file.content| && Last(file.content[..|seen|], FINGERPRINT) == Last(seen, FINGERPRINT) ==>
          seen <= file.content
    }

    /** The same file, decoded the same way, no shorter, and ending as it did where the last read stopped. */
    method Resumes(identity: nat, content: Bytes, decoder: nat) returns (resume: bool)
      requires Valid()
      ensures resume ==> known.Some? && known.value.decoder == decoder && known.value.offset <= |content|
      ensures resume && AppendedOnly(Present(identity, content)) ==> seen <= content
    {
      if known.None? || known.value.identity != identity || known.value.decoder != decoder
         || known.value.offset > |content| {
        return false;
      }
      var k := known.value;
      resume := content[k.offset - |k.tail|..k.offset] == k.tail;
      assert resume ==> Last(content[..k.offset], FINGERPRINT) == Last(seen, FINGERPRINT);
    }

    method DecodeFrom(lines: seq<Bytes>, before: nat, decode: Decoder<T>) returns (r: Result<seq<T>>)
      ensures r == DecodeLines(lines, before, decode)
    {
      var added: seq<T> := [];
      assert lines[0..] == lines;
      ghost var all := DecodeLines(lines, before, decode);
      assert all.Ok? ==> [] + all.value == all.value;
      for i := 0 to |lines|
        invariant DecodeLines(lines, before, decode) == Both(Ok(added), DecodeLines(lines[i..], before + i, decode))
      {
        OneMoreLine(lines, i, before, decode, added);
        match decode(lines[i], before + i + 1) {
          case Refuse(reason) => return Refused(reason);
          case Leave =>
          case Keep(record) => added := added + [record];
        }
      }
      assert lines[|lines|..] == [] && added + [] == added;
      return Ok(added);
    }

    /** The answer is always the one decoding the whole file gives, while files are only appended to. */
    method ReadJsonl(file: File, decoder: nat) returns (r: Result<seq<T>>)
      requires Valid()
      modifies this
      ensures Valid()
      ensures old(AppendedOnly(file)) ==>
                r == if file.Absent? then Ok([]) else ReadAll(file.content, decoders(decoder))
    {
      if file.Absent? {
        known := None;
        return Ok([]);
      }
      var content := file.content;
      var resume := Resumes(file.identity, content, decoder);
      var base := if resume then known.value else Decoded(file.identity, decoder, 0, 0, [], []);
      ghost var start := if resume then seen else [];
      assert old(AppendedOnly(file)) ==> content == start + content[base.offset..];
      r := ReadFrom(base, start, content[base.offset..], decoders(decoder));
    }

    /** Decodes what follows `base` and remembers it, unless a line refuses the file. */
    method ReadFrom(base: Decoded<T>, ghost start: Bytes, buffer: Bytes, decode: Decoder<T>) returns (r: Result<seq<T>>)
      requires Valid() && decode == decoders(base.decoder) && Describes(base, start, decode)
      modifies this
      ensures Valid() && r == ReadAll(start + buffer, decode)
    {
      ReadOn(base, start, buffer, decode);
      if buffer == [] {
        assert base.records + [] == base.records;
        return Ok(base.records);
      }
      var end := LastNewline(buffer);
      if end == -1 {
        NothingWhole(buffer, []);
        assert base.records + [] == base.records;
        known, seen := Some(base), start;
        return Ok(base.records);
      }
      PiecesAreWholeLines(buffer, end, []);
      var lines := Pieces(buffer[..end], []);
      var added := DecodeFrom(lines, base.lines, decode);
      if added.Refused? {
        return Refused(added.reason);
      }
      ExtendedDescribes(base, start, buffer, end, added.value, decode);
      known := Some(Extended(base, buffer[..end + 1], |lines|, added.value));
      seen := start + buffer[..end + 1];
      return Ok(known.value.records);
    }
  }
}
