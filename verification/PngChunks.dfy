/** Walking the chunks of a PNG file (layout of section 3.2 of RFC 2083) and admitting it for decoding. */
module PngChunks {
  import opened Prelude
  import opened AttachmentRecords
  import opened PngGeometry

  /** `readUInt32BE`. */
  function U32(data: Bytes, at: nat): nat
    requires at + 4 <= |data|
  {
    (data[at] as nat) * 0x100_0000 + (data[at + 1] as nat) * 0x1_0000 + (data[at + 2] as nat) * 0x100 + data[at + 3]
  }

  function Bytes32(n: nat): (b: Bytes)
    requires n < 0x1_0000_0000
    ensures |b| == 4
  {
    var high, low := n / 0x1_0000, n % 0x1_0000;
    [high / 0x100, high % 0x100, low / 0x100, low % 0x100]
  }

  /** `toString('ascii')` keeps the low seven bits of each byte. */
  function Ascii(data: Bytes): (s: Bytes)
    ensures |s| == |data|
    ensures forall i :: 0 <= i < |data| ==> s[i] == data[i] % 128
  {
    if data == [] then [] else [data[0] % 128] + Ascii(data[1..])
  }

  const IHDR: Bytes := [73, 72, 68, 82]
  const IDAT: Bytes := [73, 68, 65, 84]
  const IEND: Bytes := [73, 69, 78, 68]

  datatype Chunk = Chunk(name: Bytes, payload: Bytes, crc: Bytes) {
    predicate Ok() {
      |name| == 4 && |crc| == 4 && |payload| < 0x1_0000_0000
    }

    predicate Is(kind: Bytes) {
      Ascii(name) == kind
    }

    function Serialised(): (b: Bytes)
      requires Ok()
      ensures |b| == 12 + |payload|
    {
      Bytes32(|payload|) + name + payload + crc
    }
  }

  /** The chunk that starts here. */
  function ChunkAt(data: Bytes, at: nat): (chunk: Chunk)
    requires at + 12 <= |data| && at + 12 + U32(data, at) <= |data|
    ensures |chunk.payload| == U32(data, at)
  {
    var length := U32(data, at);
    Chunk(data[at + 4..at + 8], data[at + 8..at + 8 + length], data[at + 8 + length..at + 12 + length])
  }

  /** The chunks already walked, before what the rest of the walk answers. */
  function Prepend(done: seq<Chunk>, r: Result<seq<Chunk>>): Result<seq<Chunk>> {
    match r
    case Ok(rest) => Ok(done + rest)
    case Refused(reason) => Refused(reason)
  }

  /** A gapless list of chunks from here to an empty IEND at the very last byte, or why there is none. */
  function Scan(data: Bytes, at: nat): Result<seq<Chunk>>
    decreases |data| - at
  {
    if at + 12 > |data| then Refused("png-incomplete")
    else if at + 12 + U32(data, at) > |data| then Refused("png-truncated-chunk")
    else
      var chunk, next := ChunkAt(data, at), at + 12 + U32(data, at);
      if chunk.Is(IEND) then if chunk.payload == [] && next == |data| then Ok([chunk]) else Refused("png-end")
      else Prepend([chunk], Scan(data, next))
  }

  function Idats(chunks: seq<Chunk>): seq<Bytes> {
    if chunks == [] then []
    else (if chunks[0].Is(IDAT) then [chunks[0].payload] else []) + Idats(chunks[1..])
  }

  /** The loop of `png`: the IDAT payloads in file order. Indexing needs no other check than the loop's own. */
  method WalkChunks(data: Bytes) returns (r: Result<seq<Bytes>>)
    ensures r == match Scan(data, 8)
                 case Ok(chunks) => if Idats(chunks) != [] then Ok(Idats(chunks)) else Refused("png-incomplete")
                 case Refused(reason) => Refused(reason)
  {
    var parts: seq<Bytes> := [];
    var offset, ended := 8, false;
    ghost var done: seq<Chunk> := [];
    PrependNothing(Scan(data, 8));
    while !ended && offset + 12 <= |data|
      invariant 8 <= offset && parts == Idats(done)
      invariant Scan(data, 8) == if ended then Ok(done) else Prepend(done, Scan(data, offset))
      decreases !ended, |data| - offset
    {
      var length, name := U32(data, offset), Ascii(data[offset + 4..offset + 8]);
      ScanStops(data, offset);
      :- Need(offset + 12 + length <= |data|, "png-truncated-chunk");
      ghost var chunk := ChunkAt(data, offset);
      WalkOne(data, offset, done, chunk, offset + 12 + length);
      done := done + [chunk];
      if name == IDAT {
        parts := parts + [data[offset + 8..offset + 8 + length]];
      }
      offset := offset + length + 12;
      if name == IEND {
        :- Need(length == 0 && offset == |data|, "png-end");
        ended := true;
      }
    }
    ScanStops(data, offset);
    :- Need(ended && |parts| > 0, "png-incomplete");
    return Ok(parts);
  }

  lemma PrependNothing(r: Result<seq<Chunk>>)
    ensures Prepend([], r) == r
  {
    if r.Ok? {
      assert [] + r.value == r.value;
    }
  }

  lemma PrependOne(done: seq<Chunk>, chunk: Chunk, r: Result<seq<Chunk>>)
    ensures Prepend(done, Prepend([chunk], r)) == Prepend(done + [chunk], r)
  {
    if r.Ok? {
      assert done + ([chunk] + r.value) == done + [chunk] + r.value;
    }
  }

  /** One chunk of the scan. */
  lemma ScanStep(data: Bytes, at: nat, chunk: Chunk, next: nat)
    requires at + 12 <= |data| && at + 12 + U32(data, at) <= |data|
    requires chunk == ChunkAt(data, at) && next == at + 12 + U32(data, at)
    ensures |chunk.payload| == U32(data, at)
    ensures Scan(data, at) ==
            if chunk.Is(IEND) then if chunk.payload == [] && next == |data| then Ok([chunk]) else Refused("png-end")
            else Prepend([chunk], Scan(data, next))
  {
  }

  /** One turn of the walk, as a step of the scan. */
  lemma WalkOne(data: Bytes, at: nat, done: seq<Chunk>, chunk: Chunk, next: nat)
    requires at + 12 <= |data| && at + 12 + U32(data, at) <= |data|
    requires chunk == ChunkAt(data, at) && next == at + 12 + U32(data, at)
    ensures Idats(done + [chunk]) == Idats(done) + (if chunk.Is(IDAT) then [chunk.payload] else [])
    ensures Prepend(done, Scan(data, at)) ==
            if chunk.Is(IEND)
            then if chunk.payload == [] && next == |data| then Ok(done + [chunk]) else Refused("png-end")
            else Prepend(done + [chunk], Scan(data, next))
  {
    ScanStep(data, at, chunk, next);
    IdatsPush(done, chunk);
    PrependStep(done, chunk, Scan(data, at), Scan(data, next), next == |data|);
  }

  lemma ScanStops(data: Bytes, at: nat)
    ensures at + 12 > |data| ==> Scan(data, at) == Refused("png-incomplete")
    ensures at + 12 <= |data| < at + 12 + U32(data, at) ==> Scan(data, at) == Refused("png-truncated-chunk")
  {
  }

  lemma PrependStep(done: seq<Chunk>, chunk: Chunk, scan: Result<seq<Chunk>>, rest: Result<seq<Chunk>>, last: bool)
    requires scan == if chunk.Is(IEND) then if chunk.payload == [] && last then Ok([chunk]) else Refused("png-end")
                     else Prepend([chunk], rest)
    ensures Prepend(done, scan) ==
            if chunk.Is(IEND) then if chunk.payload == [] && last then Ok(done + [chunk]) else Refused("png-end")
            else Prepend(done + [chunk], rest)
  {
    PrependOne(done, chunk, rest);
  }

  lemma {:induction false} IdatsPush(chunks: seq<Chunk>, chunk: Chunk)
    ensures Idats(chunks + [chunk]) == Idats(chunks) + if chunk.Is(IDAT) then [chunk.payload] else []
  {
    if chunks == [] {
      assert ([] + [chunk])[1..] == [];
    } else {
      assert (chunks + [chunk])[1..] == chunks[1..] + [chunk];
      IdatsPush(chunks[1..], chunk);
    }
  }

  // ---- The walk is the inverse of serialising ---------------------------------------------------

  /** Chunks of any names, the last one and only the last one an empty IEND. */
  predicate Complete(chunks: seq<Chunk>) {
    && chunks != []
    && chunks[0].Ok()
    && if |chunks| == 1 then chunks[0].Is(IEND) && chunks[0].payload == []
       else !chunks[0].Is(IEND) && Complete(chunks[1..])
  }

  function Serialise(chunks: seq<Chunk>): Bytes
    requires Complete(chunks)
  {
    if |chunks| == 1 then chunks[0].Serialised() else chunks[0].Serialised() + Serialise(chunks[1..])
  }

  lemma Word(n: nat)
    requires n < 0x1_0000_0000
    ensures U32(Bytes32(n), 0) == n
  {
  }

  lemma WordBack(a: byte, b: byte, c: byte, d: byte)
    ensures Bytes32((a as nat) * 0x100_0000 + (b as nat) * 0x1_0000 + (c as nat) * 0x100 + d) == [a, b, c, d]
  {
    var high, low := (a as nat) * 0x100 + b, (c as nat) * 0x100 + d;
    assert (a as nat) * 0x100_0000 + (b as nat) * 0x1_0000 + (c as nat) * 0x100 + d == high * 0x1_0000 + low;
    assert (high * 0x1_0000 + low) / 0x1_0000 == high && (high * 0x1_0000 + low) % 0x1_0000 == low;
    assert high / 0x100 == a && high % 0x100 == b && low / 0x100 == c && low % 0x100 == d;
  }

  /** A serialised chunk in the middle of a file is read back as itself. */
  lemma ChunkReadsBack(before: Bytes, chunk: Chunk, after: Bytes)
    requires chunk.Ok()
    ensures var data, at := before + chunk.Serialised() + after, |before|;
      && at + 12 + |chunk.payload| <= |data|
      && U32(data, at) == |chunk.payload|
      && ChunkAt(data, at) == chunk
  {
    var length := |chunk.payload|;
    var body := chunk.Serialised();
    var data, at := before + body + after, |before|;
    Word(length);
    assert body[..4] == Bytes32(length) && body[4..8] == chunk.name && body[8..8 + length] == chunk.payload
        && body[8 + length..12 + length] == chunk.crc;
    SliceInTheMiddle(before, body, after, 0, 4);
    SliceInTheMiddle(before, body, after, 4, 8);
    SliceInTheMiddle(before, body, after, 8, 8 + length);
    SliceInTheMiddle(before, body, after, 8 + length, 12 + length);
    WordAt(data, at, Bytes32(length));
  }

  lemma SliceInTheMiddle(before: Bytes, body: Bytes, after: Bytes, i: nat, j: nat)
    requires i <= j <= |body|
    ensures (before + body + after)[|before| + i..|before| + j] == body[i..j]
  {
  }

  lemma WordAt(data: Bytes, at: nat, word: Bytes)
    requires at + 4 <= |data| && |word| == 4 && data[at..at + 4] == word
    ensures U32(data, at) == U32(word, 0)
  {
    var part := data[at..at + 4];
    assert part[0] == data[at] && part[1] == data[at + 1] && part[2] == data[at + 2] && part[3] == data[at + 3];
  }

  /** One step of scanning what was serialised. */
  lemma ScanOneSerialised(before: Bytes, chunk: Chunk, after: Bytes)
    requires chunk.Ok()
    ensures Scan(before + chunk.Serialised() + after, |before|) ==
        if chunk.Is(IEND) then if chunk.payload == [] && after == [] then Ok([chunk]) else Refused("png-end")
        else Prepend([chunk], Scan(before + chunk.Serialised() + after, |before + chunk.Serialised()|))
  {
    ChunkReadsBack(before, chunk, after);
    var data, next := before + chunk.Serialised() + after, |before + chunk.Serialised()|;
    assert next == |before| + 12 + |chunk.payload| && (next == |data| <==> after == []);
    ScanStep(data, |before|, chunk, next);
  }

  /** Serialising any complete chunk list and scanning it returns that list. */
  lemma {:induction false} ScanInvertsSerialise(before: Bytes, chunks: seq<Chunk>)
    requires Complete(chunks)
    ensures Scan(before + Serialise(chunks), |before|) == Ok(chunks)
    decreases |chunks|
  {
    if |chunks| == 1 {
      ScanOneSerialised(before, chunks[0], []);
      assert before + Serialise(chunks) == before + chunks[0].Serialised() + [];
      assert [chunks[0]] == chunks;
    } else {
      ScanInvertsSerialise(before + chunks[0].Serialised(), chunks[1..]);
      ScanFirst(before, chunks);
    }
  }

  lemma ScanFirst(before: Bytes, chunks: seq<Chunk>)
    requires Complete(chunks) && |chunks| > 1
    requires var ahead := before + chunks[0].Serialised();
      Scan(ahead + Serialise(chunks[1..]), |ahead|) == Ok(chunks[1..])
    ensures Scan(before + Serialise(chunks), |before|) == Ok(chunks)
  {
    SerialiseFirst(before, chunks);
    ScanOneSerialised(before, chunks[0], Serialise(chunks[1..]));
    PrependRest(chunks);
  }

  lemma SerialiseFirst(before: Bytes, chunks: seq<Chunk>)
    requires Complete(chunks) && |chunks| > 1
    ensures before + Serialise(chunks) == before + chunks[0].Serialised() + Serialise(chunks[1..])
  {
  }

  lemma PrependRest(chunks: seq<Chunk>)
    requires chunks != []
    ensures Prepend([chunks[0]], Ok(chunks[1..])) == Ok(chunks)
  {
    assert [chunks[0]] + chunks[1..] == chunks;
  }

  lemma ChunkSpansItsBytes(data: Bytes, at: nat)
    requires at + 12 <= |data| && at + 12 + U32(data, at) <= |data|
    ensures var chunk := ChunkAt(data, at);
      chunk.Ok() && chunk.Serialised() == data[at..at + 12 + |chunk.payload|]
  {
    var length := U32(data, at);
    var chunk := ChunkAt(data, at);
    assert length < 0x1_0000_0000;
    WordBack(data[at], data[at + 1], data[at + 2], data[at + 3]);
    assert data[at..at + 4] == Bytes32(length);
    FourParts(data, at, at + 4, at + 8, at + 8 + length, at + 12 + length);
    assert chunk.name == data[at + 4..at + 8] && chunk.payload == data[at + 8..at + 8 + length]
        && chunk.crc == data[at + 8 + length..at + 12 + length];
  }

  lemma FourParts(data: Bytes, a: nat, b: nat, c: nat, d: nat, e: nat)
    requires a <= b <= c <= d <= e <= |data|
    ensures data[a..b] + data[b..c] + data[c..d] + data[d..e] == data[a..e]
  {
    assert data[a..b] + data[b..c] == data[a..c];
    assert data[a..c] + data[c..d] == data[a..d];
  }

  lemma AcceptedStarts(data: Bytes, at: nat)
    requires Scan(data, at).Ok?
    ensures at + 12 <= |data| && at + 12 + U32(data, at) <= |data|
  {
  }

  /** A chunk before a complete list whose serialisation follows it. */
  lemma OneMoreChunk(chunk: Chunk, rest: seq<Chunk>, first: Bytes, tail: Bytes)
    requires chunk.Ok() && !chunk.Is(IEND) && chunk.Serialised() == first
    requires Complete(rest) && Serialise(rest) == tail
    ensures Complete([chunk] + rest) && Serialise([chunk] + rest) == first + tail
  {
    assert ([chunk] + rest)[1..] == rest && |rest| > 0;
  }

  /** Whatever is accepted is the serialisation of a complete chunk list: no gap, nothing after the end. */
  lemma {:induction false} ScanIsSound(data: Bytes, at: nat)
    requires Scan(data, at).Ok?
    ensures at <= |data| && Complete(Scan(data, at).value)
    ensures Serialise(Scan(data, at).value) == data[at..]
    decreases |data| - at
  {
    AcceptedStarts(data, at);
    var chunk, next := ChunkAt(data, at), at + 12 + U32(data, at);
    ScanStep(data, at, chunk, next);
    ChunkSpansItsBytes(data, at);
    assert data[at..] == data[at..next] + data[next..];
    if !chunk.Is(IEND) {
      ScanIsSound(data, next);
      OneMoreChunk(chunk, Scan(data, next).value, data[at..next], data[next..]);
    }
  }

  /** So the scan accepts a file exactly when what follows the signature is the serialisation of a complete list. */
  lemma WalkAcceptsExactly(data: Bytes, chunks: seq<Chunk>)
    requires 8 <= |data|
    ensures Scan(data, 8) == Ok(chunks) <==>
            Complete(chunks) && Serialise(chunks) == data[8..]
  {
    if Scan(data, 8) == Ok(chunks) {
      ScanIsSound(data, 8);
    }
    if Complete(chunks) && Serialise(chunks) == data[8..] {
      assert data == data[..8] + Serialise(chunks);
      ScanInvertsSerialise(data[..8], chunks);
    }
  }

  // ---- Admission --------------------------------------------------------------------------------

  function Channels(color: byte): nat {
    if color == 0 || color == 3 then 1
    else if color == 2 then 3
    else if color == 4 then 2
    else if color == 6 then 4
    else 0
  }

  predicate DimensionsOk(width: nat, height: nat) {
    0 < width <= DIMENSION && 0 < height <= DIMENSION && width * height <= PIXELS
  }

  datatype Header = Header(width: nat, height: nat, depth: nat, channels: nat, interlace: nat) {
    /** The inflated size this header allows. */
    function Expected(): nat {
      var bits := depth * channels;
      assert Steppable(PASSES) by {
        PassesStep();
      }
      if interlace == 0 then height * LineBytes(width, bits) else TotalBytes(PASSES, width, height, bits)
    }
  }

  function ReadHeader(data: Bytes): Result<Header> {
    if !(|data| >= 45 && U32(data, 8) == 13 && Ascii(data[12..16]) == IHDR) then Refused("png-header")
    else if !DimensionsOk(U32(data, 16), U32(data, 20)) then Refused("image-pixel-budget")
    else if data[24] !in [1, 2, 4, 8, 16] then Refused("png-format")
    else if Channels(data[25]) == 0 then Refused("png-color")
    else Ok(Header(U32(data, 16), U32(data, 20), data[24], Channels(data[25]), data[28]))
  }

  lemma HeaderIsBounded(data: Bytes)
    requires ReadHeader(data).Ok?
    ensures var h := ReadHeader(data).value;
      && DimensionsOk(h.width, h.height) && h.depth <= 16 && h.channels <= 4 && h.Expected() <= CEILING
  {
    var h := ReadHeader(data).value;
    ProductBound(h.depth, h.channels, 16, 4);
    InflationCeiling(h.width, h.height, h.depth * h.channels);
  }

  /** What the decoders of the host make of the same bytes. */
  datatype Decoders = Decoders(inflatedLength: (Bytes, nat) -> Result<nat>, decoded: Bytes -> Result<(nat, nat, nat)>)

  /** Header and chunks are in order, so there is something to inflate and a size it must have. */
  predicate Inflatable(data: Bytes) {
    && ReadHeader(data).Ok? && ReadHeader(data).value.interlace <= 1
    && Scan(data, 8).Ok? && Idats(Scan(data, 8).value) != []
  }

  /**
   `png`. `inflated` is what was handed to the inflater, with the size it was allowed; `decoded` says whether the
   decoder, which has no such bound, was called. Accepted or refused, nothing is inflated beyond the size the header
   asks for, which is bounded; and nothing is decoded unless it inflated to exactly that size.
   */
  method ValidatePng(data: Bytes, decoders: Decoders)
    returns (r: Result<(nat, nat)>, ghost inflated: Option<(Bytes, nat)>, ghost decoded: bool)
    ensures inflated.Some? <==> Inflatable(data)
    ensures inflated.Some? ==>
      var h := ReadHeader(data).value;
      && DimensionsOk(h.width, h.height) && h.Expected() <= CEILING
      && inflated.value == (Concat(Idats(Scan(data, 8).value)), h.Expected())
    ensures decoded <==>
      && inflated.Some?
      && decoders.inflatedLength(inflated.value.0, inflated.value.1) == Ok(inflated.value.1)
    ensures r.Ok? <==>
      && decoded
      && var h := ReadHeader(data).value; decoders.decoded(data) == Ok((h.width, h.height, h.width * h.height * 4))
    ensures r.Ok? ==> r.value == (ReadHeader(data).value.width, ReadHeader(data).value.height)
  {
    inflated, decoded := None, false;
    var h :- ReadHeader(data);
    HeaderIsBounded(data);
    var chunks :- WalkChunks(data);
    var expected :- PngInflatedBytes(h.width, h.height, h.depth, h.channels, h.interlace);
    inflated := Some((Concat(chunks), expected));
    var size :- decoders.inflatedLength(Concat(chunks), expected);
    :- Need(size == expected, "png-pixel-data-length");
    decoded := true;
    var image :- decoders.decoded(data);
    :- Need(image == (h.width, h.height, h.width * h.height * 4), "png-decoded-size");
    r := Ok((h.width, h.height));
  }
}
