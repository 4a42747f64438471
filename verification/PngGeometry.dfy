/** The exact size of a decompressed PNG: seven interlace passes that partition the image (section 2.6 of RFC 2083). */
module PngGeometry {
  import opened Prelude
  import opened AttachmentRecords

  datatype Interlace = Interlace(x: nat, y: nat, dx: nat, dy: nat) {
    predicate Covers(i: nat, j: nat)
      requires dx > 0 && dy > 0
    {
      i % dx == x && j % dy == y
    }
  }

  const PASSES: seq<Interlace> := [
    Interlace(0, 0, 8, 8), Interlace(4, 0, 8, 8), Interlace(0, 4, 4, 8), Interlace(2, 0, 4, 4),
    Interlace(0, 2, 2, 4), Interlace(1, 0, 2, 2), Interlace(0, 1, 1, 2)
  ]

  function CeilDiv(a: nat, b: nat): (q: nat)
    requires b > 0
    ensures b * q < a + b && a <= b * q
  {
    var q := (a + b - 1) / b;
    assert (a + b - 1) == b * q + (a + b - 1) % b;
    q
  }

  /** `Math.max(0, Math.ceil((n - first) / step))`: how many of 0..n are `first` more than a multiple of `step`. */
  function Steps(n: nat, first: nat, step: nat): nat
    requires step > 0
  {
    if n <= first then 0 else CeilDiv(n - first, step)
  }

  function Columns(p: Interlace, width: nat): nat
    requires p.dx > 0
  {
    Steps(width, p.x, p.dx)
  }

  function Rows(p: Interlace, height: nat): nat
    requires p.dy > 0
  {
    Steps(height, p.y, p.dy)
  }

  function LineBytes(width: nat, bits: nat): nat {
    1 + CeilDiv(width * bits, 8)
  }

  function PassBytes(p: Interlace, width: nat, height: nat, bits: nat): nat
    requires p.dx > 0 && p.dy > 0
  {
    if Columns(p, width) > 0 && Rows(p, height) > 0 then Rows(p, height) * LineBytes(Columns(p, width), bits) else 0
  }

  predicate Steppable(passes: seq<Interlace>) {
    forall p :: p in passes ==> p.dx > 0 && p.dy > 0
  }

  function TotalBytes(passes: seq<Interlace>, width: nat, height: nat, bits: nat): nat
    requires Steppable(passes)
  {
    if passes == [] then 0
    else TotalBytes(passes[..|passes| - 1], width, height, bits)
         + PassBytes(passes[|passes| - 1], width, height, bits)
  }

  /** Pixels and scanlines of the passes that are not empty. */
  function Pixels(passes: seq<Interlace>, width: nat, height: nat): nat
    requires Steppable(passes)
  {
    if passes == [] then 0
    else Pixels(passes[..|passes| - 1], width, height)
         + Columns(passes[|passes| - 1], width) * Rows(passes[|passes| - 1], height)
  }

  function Scanlines(passes: seq<Interlace>, width: nat, height: nat): nat
    requires Steppable(passes)
  {
    if passes == [] then 0
    else Scanlines(passes[..|passes| - 1], width, height)
         + (if Columns(passes[|passes| - 1], width) > 0 then Rows(passes[|passes| - 1], height) else 0)
  }

  lemma PassesStep()
    ensures Steppable(PASSES)
  {
  }

  /** `pngInflatedBytes`. */
  method PngInflatedBytes(width: nat, height: nat, depth: nat, channels: nat, interlace: nat)
    returns (r: Result<nat>)
    ensures interlace == 0 ==> r == Ok(height * LineBytes(width, depth * channels))
    ensures interlace == 1 ==> Steppable(PASSES) && r == Ok(TotalBytes(PASSES, width, height, depth * channels))
    ensures interlace > 1 ==> r == Refused("png-interlace")
  {
    var bits := depth * channels;
    if interlace == 0 {
      return Ok(height * LineBytes(width, bits));
    }
    :- Need(interlace == 1, "png-interlace");
    PassesStep();
    var size := 0;
    var k := 0;
    while k < |PASSES|
      invariant 0 <= k <= |PASSES| && Steppable(PASSES[..k])
      invariant size == TotalBytes(PASSES[..k], width, height, bits)
    {
      var pass := PASSES[k];
      assert pass in PASSES;
      var w, h := Columns(pass, width), Rows(pass, height);
      assert PASSES[..k + 1][..k] == PASSES[..k];
      if w > 0 && h > 0 {
        size := size + h * LineBytes(w, bits);
      }
      k := k + 1;
    }
    assert PASSES[..k] == PASSES;
    return Ok(size);
  }

  // ---- The passes partition the image -----------------------------------------------------------

  /** Which pass covers a pixel depends only on its place in the 8 by 8 tile. */
  function PassOf(i: nat, j: nat): (k: nat)
    ensures k < 7
  {
    if j % 2 == 1 then 6
    else if i % 2 == 1 then 5
    else if j % 4 == 2 then 4
    else if i % 4 == 2 then 3
    else if j % 8 == 4 then 2
    else if i % 8 == 4 then 1
    else 0
  }

  lemma Residues(i: nat)
    ensures (i % 8) % 4 == i % 4 && (i % 4) % 2 == i % 2
    ensures i % 8 == i % 4 || i % 8 == i % 4 + 4
    ensures i % 4 == i % 2 || i % 4 == i % 2 + 2
  {
    HalfResidue(i, i / 8, i % 8, 4);
    HalfResidue(i, i / 4, i % 4, 2);
  }

  /** A residue modulo a doubled step is the residue modulo the step, or that and the step. */
  lemma HalfResidue(i: nat, q: nat, r: nat, step: nat)
    requires step == 2 || step == 4
    requires r < 2 * step && i == q * (2 * step) + r
    ensures r % step == i % step && (r == i % step || r == i % step + step)
  {
    if r < step {
      DivUnique(i, 2 * q, r, step);
      DivUnique(r, 0, r, step);
    } else {
      DivUnique(i, 2 * q + 1, r - step, step);
      DivUnique(r, 1, r - step, step);
    }
  }

  /** Every pixel lies in exactly one pass. */
  lemma ExactlyOnePass(i: nat, j: nat, k: nat)
    requires k < 7
    ensures PASSES[k].dx > 0 && PASSES[k].dy > 0
    ensures PASSES[k].Covers(i, j) <==> k == PassOf(i, j)
  {
    Residues(i);
    Residues(j);
  }

  lemma {:induction false} MulLess(a: nat, b: nat, step: nat)
    requires a < b
    ensures a * step + step <= b * step
    decreases b - a
  {
    if b > a + 1 {
      MulLess(a, b - 1, step);
      assert b * step == (b - 1) * step + step;
    } else {
      assert b * step == a * step + step;
    }
  }

  /** Quotient and remainder are unique. */
  lemma DivUnique(n: nat, q: nat, r: nat, step: nat)
    requires r < step && n == q * step + r
    ensures n / step == q && n % step == r
  {
    var p, m := n / step, n % step;
    assert n == p * step + m;
    if p < q {
      MulLess(p, q, step);
    } else if q < p {
      MulLess(q, p, step);
    }
  }

  /** A pass enumerates its pixels without gaps: column c of it is image column x + c * dx, and nothing else is. */
  lemma StepsEnumerate(n: nat, first: nat, step: nat, i: nat)
    requires first < step
    ensures i < n && i % step == first <==>
            exists c :: 0 <= c < Steps(n, first, step) && i == first + c * step
  {
    var q := i / step;
    var s := Steps(n, first, step);
    assert i == q * step + i % step;
    assert n <= first + s * step;
    if i < n && i % step == first {
      if s < q {
        MulLess(s, q, step);
      }
      assert q < s && i == first + q * step;
    }
    forall c | 0 <= c < s && i == first + c * step ensures i < n && i % step == first {
      DivUnique(i, c, first, step);
      MulLess(c, s, step);
      assert s * step < n - first + step;
    }
  }

  /** Halving the step splits the positions into the even and the odd ones. */
  lemma StepsSplit(n: nat, step: nat)
    requires step == 1 || step == 2 || step == 4
    ensures Steps(n, 0, 2 * step) + Steps(n, step, 2 * step) == Steps(n, 0, step)
  {
    SplitCount(n, step, Steps(n, 0, step), Steps(n, 0, 2 * step), Steps(n, step, 2 * step));
  }

  lemma SplitCount(n: nat, step: nat, all: nat, even: nat, odd: nat)
    requires step == 1 || step == 2 || step == 4
    requires if n == 0 then all == even == 0
             else n <= step * all < n + step && n <= 2 * step * even < n + 2 * step
    requires if n <= step then odd == 0 else n - step <= 2 * step * odd < n + step
    ensures even + odd == all
  {
    if step == 1 {
      SplitOne(n, all, even, odd);
    } else if step == 2 {
      SplitTwo(n, all, even, odd);
    } else {
      SplitFour(n, all, even, odd);
    }
  }

  lemma SplitOne(n: nat, all: nat, even: nat, odd: nat)
    requires if n == 0 then all == even == 0 else n <= all < n + 1 && n <= 2 * even < n + 2
    requires if n <= 1 then odd == 0 else n - 1 <= 2 * odd < n + 1
    ensures even + odd == all
  {
  }

  lemma SplitTwo(n: nat, all: nat, even: nat, odd: nat)
    requires if n == 0 then all == even == 0 else n <= 2 * all < n + 2 && n <= 4 * even < n + 4
    requires if n <= 2 then odd == 0 else n - 2 <= 4 * odd < n + 2
    ensures even + odd == all
  {
    var q, r := n / 4, n % 4;
    assert even == if r == 0 then q else q + 1;
    assert odd == if r <= 2 then q else q + 1;
    assert all == if r == 0 then 2 * q else if r <= 2 then 2 * q + 1 else 2 * q + 2;
  }

  lemma SplitFour(n: nat, all: nat, even: nat, odd: nat)
    requires if n == 0 then all == even == 0 else n <= 4 * all < n + 4 && n <= 8 * even < n + 8
    requires if n <= 4 then odd == 0 else n - 4 <= 8 * odd < n + 4
    ensures even + odd == all
  {
    var q, r := n / 8, n % 8;
    assert even == if r == 0 then q else q + 1;
    assert odd == if r <= 4 then q else q + 1;
    assert all == if r == 0 then 2 * q else if r <= 4 then 2 * q + 1 else 2 * q + 2;
  }

  lemma UnfoldPixels(width: nat, height: nat)
    ensures Steppable(PASSES)
    ensures Pixels(PASSES, width, height) ==
            Columns(PASSES[0], width) * Rows(PASSES[0], height) + Columns(PASSES[1], width) * Rows(PASSES[1], height)
            + Columns(PASSES[2], width) * Rows(PASSES[2], height) + Columns(PASSES[3], width) * Rows(PASSES[3], height)
            + Columns(PASSES[4], width) * Rows(PASSES[4], height) + Columns(PASSES[5], width) * Rows(PASSES[5], height)
            + Columns(PASSES[6], width) * Rows(PASSES[6], height)
  {
    PassesStep();
    PixelsUpTo(7, width, height);
    PixelsUpTo(6, width, height);
    PixelsUpTo(5, width, height);
    PixelsUpTo(4, width, height);
    PixelsUpTo(3, width, height);
    PixelsUpTo(2, width, height);
    PixelsUpTo(1, width, height);
    assert PASSES[..7] == PASSES && PASSES[..0] == [];
  }

  lemma PixelsUpTo(k: nat, width: nat, height: nat)
    requires 0 < k <= 7
    ensures Steppable(PASSES[..k]) && Steppable(PASSES[..k - 1])
    ensures PASSES[k - 1].dx > 0 && PASSES[k - 1].dy > 0
    ensures Pixels(PASSES[..k], width, height) ==
            Pixels(PASSES[..k - 1], width, height) + Columns(PASSES[k - 1], width) * Rows(PASSES[k - 1], height)
    ensures Scanlines(PASSES[..k], width, height) ==
            Scanlines(PASSES[..k - 1], width, height)
            + if Columns(PASSES[k - 1], width) > 0 then Rows(PASSES[k - 1], height) else 0
  {
    PassesStep();
    assert PASSES[k - 1] in PASSES;
    assert PASSES[..k][..k - 1] == PASSES[..k - 1];
  }

  lemma Join(a: nat, b: nat, s: nat, c: nat)
    requires a + b == s
    ensures a * c + b * c == s * c
    ensures c * a + c * b == c * s
  {
  }

  /** Seven areas that double one side in turn fill the whole. */
  lemma Regroup(w08: nat, w48: nat, w04: nat, w24: nat, w02: nat, w12: nat, w: nat,
                h08: nat, h48: nat, h04: nat, h24: nat, h02: nat, h12: nat, h: nat)
    requires w08 + w48 == w04 && w04 + w24 == w02 && w02 + w12 == w
    requires h08 + h48 == h04 && h04 + h24 == h02 && h02 + h12 == h
    ensures w08 * h08 + w48 * h08 + w04 * h48 + w24 * h04 + w02 * h24 + w12 * h02 + w * h12 == w * h
  {
    Join(w08, w48, w04, h08);
    Join(h08, h48, h04, w04);
    Join(w04, w24, w02, h04);
    Join(h04, h24, h02, w02);
    Join(w02, w12, w, h02);
    Join(h02, h12, h, w);
  }

  /** How the positions of one axis split, tile by tile. */
  lemma Halvings(n: nat)
    ensures Steps(n, 0, 8) + Steps(n, 4, 8) == Steps(n, 0, 4)
    ensures Steps(n, 0, 4) + Steps(n, 2, 4) == Steps(n, 0, 2)
    ensures Steps(n, 0, 2) + Steps(n, 1, 2) == n
    ensures Steps(n, 0, 1) == n
  {
    StepsSplit(n, 1);
    StepsSplit(n, 2);
    StepsSplit(n, 4);
  }

  /** The passes together have exactly as many pixels as the image. */
  lemma PassesHoldEveryPixel(width: nat, height: nat)
    ensures Steppable(PASSES) && Pixels(PASSES, width, height) == width * height
  {
    UnfoldPixels(width, height);
    Halvings(width);
    Halvings(height);
    Regroup(Steps(width, 0, 8), Steps(width, 4, 8), Steps(width, 0, 4), Steps(width, 2, 4), Steps(width, 0, 2),
            Steps(width, 1, 2), width,
            Steps(height, 0, 8), Steps(height, 4, 8), Steps(height, 0, 4), Steps(height, 2, 4), Steps(height, 0, 2),
            Steps(height, 1, 2), height);
  }

  lemma UnfoldScanlines(width: nat, height: nat)
    ensures Steppable(PASSES)
    ensures Scanlines(PASSES, width, height) ==
            (if Steps(width, 0, 8) > 0 then Steps(height, 0, 8) else 0)
            + (if Steps(width, 4, 8) > 0 then Steps(height, 0, 8) else 0)
            + (if Steps(width, 0, 4) > 0 then Steps(height, 4, 8) else 0)
            + (if Steps(width, 2, 4) > 0 then Steps(height, 0, 4) else 0)
            + (if Steps(width, 0, 2) > 0 then Steps(height, 2, 4) else 0)
            + (if Steps(width, 1, 2) > 0 then Steps(height, 0, 2) else 0)
            + (if Steps(width, 0, 1) > 0 then Steps(height, 1, 2) else 0)
  {
    PassesStep();
    PixelsUpTo(7, width, height);
    PixelsUpTo(6, width, height);
    PixelsUpTo(5, width, height);
    PixelsUpTo(4, width, height);
    PixelsUpTo(3, width, height);
    PixelsUpTo(2, width, height);
    PixelsUpTo(1, width, height);
    assert PASSES[..7] == PASSES && PASSES[..0] == [];
  }

  /** Scanlines: the sum of the halvings exactly when every pass has a column or no row, and never more. */
  lemma ScanlineCount(width: nat, height: nat)
    ensures Steppable(PASSES)
    ensures var full := height + Steps(height, 0, 2) + Steps(height, 0, 4) + Steps(height, 0, 8);
      && Scanlines(PASSES, width, height) <= full
      && (Scanlines(PASSES, width, height) == full <==> width >= 5 || height == 0)
  {
    UnfoldScanlines(width, height);
    Halvings(height);
    assert height > 0 ==> Steps(height, 0, 8) > 0;
  }

  // ---- Bounds on the size -----------------------------------------------------------------------

  lemma LinesBound(rows: nat, columns: nat, bits: nat)
    ensures columns * rows * bits <= 8 * (rows * LineBytes(columns, bits))
    ensures 8 * (rows * LineBytes(columns, bits)) <= columns * rows * bits + 15 * rows
  {
    var line := LineBytes(columns, bits);
    assert columns * bits <= 8 * line <= columns * bits + 15;
    assert rows * (8 * line) == 8 * (rows * line);
    assert rows * (columns * bits) == columns * rows * bits;
    assert rows * (columns * bits) <= rows * (8 * line);
    assert rows * (8 * line) <= rows * (columns * bits + 15);
    assert rows * (columns * bits + 15) == rows * (columns * bits) + 15 * rows;
  }

  lemma OnePassBetween(p: Interlace, width: nat, height: nat, bits: nat)
    requires p.dx > 0 && p.dy > 0
    ensures var w, h := Columns(p, width), Rows(p, height);
      && w * h * bits <= 8 * PassBytes(p, width, height, bits)
      && 8 * PassBytes(p, width, height, bits) <= w * h * bits + 15 * if w > 0 then h else 0
  {
    var w, h := Columns(p, width), Rows(p, height);
    if w > 0 && h > 0 {
      LinesBound(h, w, bits);
    } else {
      assert w * h == 0;
    }
  }

  /** Over any passes the size lies between the raw pixel bits and those plus 15 bits for each scanline. */
  lemma {:induction false} SizeBetween(passes: seq<Interlace>, width: nat, height: nat, bits: nat)
    requires Steppable(passes)
    ensures Pixels(passes, width, height) * bits <= 8 * TotalBytes(passes, width, height, bits)
    ensures 8 * TotalBytes(passes, width, height, bits)
            <= Pixels(passes, width, height) * bits + 15 * Scanlines(passes, width, height)
  {
    if passes != [] {
      var rest, last := passes[..|passes| - 1], passes[|passes| - 1];
      var w, h := Columns(last, width), Rows(last, height);
      SizeBetween(rest, width, height, bits);
      OnePassBetween(last, width, height, bits);
      Join(Pixels(rest, width, height), w * h, Pixels(passes, width, height), bits);
    }
  }

  /** The interlaced size lies between the image's own bits and those plus 15 bits for each scanline. */
  lemma InterlacedSize(width: nat, height: nat, bits: nat)
    ensures Steppable(PASSES)
    ensures width * height * bits <= 8 * TotalBytes(PASSES, width, height, bits)
    ensures 8 * TotalBytes(PASSES, width, height, bits) <= width * height * bits
              + 15 * (height + Steps(height, 0, 2) + Steps(height, 0, 4) + Steps(height, 0, 8))
  {
    PassesHoldEveryPixel(width, height);
    ScanlineCount(width, height);
    SizeBetween(PASSES, width, height, bits);
  }

  const CEILING: nat := 134_246_528

  lemma ProductBound(a: nat, b: nat, m: nat, n: nat)
    requires a <= m && b <= n
    ensures a * b <= m * n
  {
    assert a * b <= m * b;
    assert m * b <= m * n;
  }

  /** Under the dimension limits no accepted image inflates beyond a fixed ceiling, interlaced or not. */
  lemma InflationCeiling(width: nat, height: nat, bits: nat)
    requires width <= DIMENSION && height <= DIMENSION && width * height <= PIXELS && bits <= 64
    ensures Steppable(PASSES) && TotalBytes(PASSES, width, height, bits) <= CEILING
    ensures height * LineBytes(width, bits) <= CEILING
  {
    ProductBound(width * height, bits, PIXELS, 64);
    InterlacedCeiling(width, height, bits);
    LinesBound(height, width, bits);
  }

  lemma InterlacedCeiling(width: nat, height: nat, bits: nat)
    requires height <= DIMENSION && width * height * bits <= PIXELS * 64
    ensures Steppable(PASSES) && TotalBytes(PASSES, width, height, bits) <= CEILING
  {
    InterlacedSize(width, height, bits);
    HalvesBound(height);
  }

  lemma HalvesBound(n: nat)
    requires n <= DIMENSION
    ensures n + Steps(n, 0, 2) + Steps(n, 0, 4) + Steps(n, 0, 8) <= DIMENSION + 4096 + 2048 + 1024
  {
  }
}
