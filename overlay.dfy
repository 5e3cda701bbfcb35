/** The overlay decoder and compositor: palette conversion, run-length
    expansion of an indexed-colour overlay, and the effect of each overlay
    instruction on the list of regions and the flush flag. */
module Overlay {
  import opened Types

  /** `bd_overlay_cmd_e`. */
  datatype OverlayCmd = Init | Close | Clear | Draw | Wipe | Hide | Flush

  /** `BD_PG_RLE_ELEM`: a run of `len` pixels of palette index `color`. */
  datatype RleElem = RleElem(len: u16, color: u8)

  /** `BD_PG_PALETTE_ENTRY`: luma, the two colour differences and transparency. */
  datatype PaletteEntry = PaletteEntry(y: u8, cr: u8, cb: u8, t: u8)

  /** `bd_overlay_s`: one overlay instruction. */
  datatype Overlay = Overlay(
    cmd: OverlayCmd, x: u16, y: u16, w: u16, h: u16,
    palette: seq<PaletteEntry>, img: seq<RleElem>)

  /** What the overlay callback receives: an instruction, or NULL. */
  datatype OverlayNotice = Closed | Instruction(ov: Overlay)

  datatype Rgba = Rgba(r: u8, g: u8, b: u8, a: u8)

  /** `graphic_t`: a decoded region and its indexed raster with its colour table. */
  datatype Graphic = Graphic(x: u16, y: u16, w: u16, h: u16, pixels: seq<u8>, colors: seq<Rgba>)

  /** The compositor state: the region list and the flush flag. */
  datatype Compositor = Compositor(graphics: seq<Graphic>, menuFlush: bool)

  /** Luma weights Kr, Kg, Kb in units of 1/10000. */
  datatype Coefficients = Coefficients(kr: nat, kg: nat, kb: nat)

  /** ITU-R BT.709, section 3.2. */
  const BT709: Coefficients := Coefficients(2126, 7152, 722)
  /** ITU-R BT.601, section 2.5. */
  const BT601: Coefficients := Coefficients(2990, 5870, 1140)
  /** Overlays at least this tall are high definition. */
  const HD_HEIGHT: nat := 600
  const PALETTE_SIZE: nat := 256

  /** The conversion from a palette entry to unclamped RGB under given
      coefficients; the source computes it in floating point. */
  type YuvToRgb = (Coefficients, PaletteEntry) -> (int, int, int)

  function CoefficientsFor(h: u16): (k: Coefficients)
    ensures k == BT709 || k == BT601
    ensures k == BT709 <==> h >= HD_HEIGHT
    ensures k.kr + k.kg + k.kb == 10000
  {
    if h >= HD_HEIGHT then BT709 else BT601
  }

  function Dist(a: int, b: int): nat {
    if a < b then b - a else a - b
  }

  /** `std::max(0, std::min(255, v))`. */
  function Clamp(v: int): (r: u8)
    ensures forall c: u8 :: Dist(r, v) <= Dist(c, v)
    ensures 0 <= v <= 255 ==> r == v
  {
    if v < 0 then 0 else if v > 255 then 255 else v
  }

  /** The colour-table entry built from one palette entry. */
  function PaletteColor(k: Coefficients, e: PaletteEntry, convert: YuvToRgb): (c: Rgba)
    ensures c.a == e.t
    ensures c.r == Clamp(convert(k, e).0) && c.g == Clamp(convert(k, e).1) && c.b == Clamp(convert(k, e).2)
  {
    var (r, g, b) := convert(k, e);
    Rgba(Clamp(r), Clamp(g), Clamp(b), e.t)
  }

  /** The colour table of an overlay of height `h`. */
  method BuildPalette(h: u16, entries: seq<PaletteEntry>, convert: YuvToRgb) returns (colors: seq<Rgba>)
    requires |entries| == PALETTE_SIZE
    ensures |colors| == PALETTE_SIZE
    ensures forall i :: 0 <= i < PALETTE_SIZE ==> colors[i] == PaletteColor(CoefficientsFor(h), entries[i], convert)
    ensures forall i :: 0 <= i < PALETTE_SIZE ==> colors[i].a == entries[i].t
  {
    var k := CoefficientsFor(h);
    colors := [];
    for i := 0 to PALETTE_SIZE
      invariant |colors| == i
      invariant forall j :: 0 <= j < i ==> colors[j] == PaletteColor(k, entries[j], convert)
    {
      colors := colors + [PaletteColor(k, entries[i], convert)];
    }
  }

  /** The colour table as a value, as `BuildPalette` produces it. */
  function PaletteOf(h: u16, entries: seq<PaletteEntry>, convert: YuvToRgb): (colors: seq<Rgba>)
    requires |entries| == PALETTE_SIZE
    ensures |colors| == PALETTE_SIZE
    ensures forall i :: 0 <= i < PALETTE_SIZE ==> colors[i] == PaletteColor(CoefficientsFor(h), entries[i], convert)
  {
    seq(PALETTE_SIZE, i requires 0 <= i < PALETTE_SIZE => PaletteColor(CoefficientsFor(h), entries[i], convert))
  }

  // ---------------------------------------------------------------------
  // Run-length expansion

  /** Total number of pixels the runs describe. */
  function RunsLength(runs: seq<RleElem>): nat {
    if runs == [] then 0 else runs[0].len + RunsLength(runs[1..])
  }

  /** The pixels the runs describe, in row-major order. */
  function Expand(runs: seq<RleElem>): seq<u8> {
    if runs == [] then [] else seq(runs[0].len, _ => runs[0].color) + Expand(runs[1..])
  }

  /** How many runs the decoder reads, starting at run `idx` with `drawn`
      pixels already placed, before `area` pixels are covered; Missing when
      the runs run out first. */
  function RunsConsumedFrom(runs: seq<RleElem>, idx: nat, drawn: nat, area: nat): Lookup<nat>
    requires idx <= |runs|
    decreases |runs| - idx
  {
    if drawn >= area then Found(idx)
    else if idx == |runs| then Missing
    else RunsConsumedFrom(runs, idx + 1, drawn + runs[idx].len, area)
  }

  function RunsConsumed(runs: seq<RleElem>, area: nat): Lookup<nat> {
    RunsConsumedFrom(runs, 0, 0, area)
  }

  lemma {:induction false} RunsLengthConcat(a: seq<RleElem>, b: seq<RleElem>)
    ensures RunsLength(a + b) == RunsLength(a) + RunsLength(b)
  {
    if a == [] {
      assert a + b == b;
    } else {
      assert (a + b)[1..] == a[1..] + b;
      RunsLengthConcat(a[1..], b);
    }
  }

  lemma {:induction false} ExpandConcat(a: seq<RleElem>, b: seq<RleElem>)
    ensures Expand(a + b) == Expand(a) + Expand(b)
  {
    if a == [] {
      assert a + b == b;
    } else {
      assert (a + b)[1..] == a[1..] + b;
      ExpandConcat(a[1..], b);
    }
  }

  /** The expansion has exactly one pixel per unit of run length. */
  lemma {:induction false} ExpandLength(runs: seq<RleElem>)
    ensures |Expand(runs)| == RunsLength(runs)
  {
    if runs != [] {
      ExpandLength(runs[1..]);
    }
  }

  lemma PrefixStep(runs: seq<RleElem>, n: nat)
    requires n < |runs|
    ensures runs[..n + 1] == runs[..n] + [runs[n]]
    ensures RunsLength(runs[..n + 1]) == RunsLength(runs[..n]) + runs[n].len
    ensures Expand(runs[..n + 1]) == Expand(runs[..n]) + seq(runs[n].len, _ => runs[n].color)
  {
    assert runs[..n + 1] == runs[..n] + [runs[n]];
    RunsLengthConcat(runs[..n], [runs[n]]);
    ExpandConcat(runs[..n], [runs[n]]);
    assert [runs[n]][1..] == [];
  }

  /** Pixel `k` has the colour of the run `j` that covers position `k`. */
  lemma ExpandAt(runs: seq<RleElem>, j: nat, k: nat)
    requires j < |runs|
    requires RunsLength(runs[..j]) <= k < RunsLength(runs[..j]) + runs[j].len
    ensures k < |Expand(runs)| && Expand(runs)[k] == runs[j].color
  {
    assert runs == runs[..j + 1] + runs[j + 1..];
    ExpandConcat(runs[..j + 1], runs[j + 1..]);
    PrefixStep(runs, j);
    ExpandLength(runs[..j]);
  }

  lemma {:induction false} RunsConsumedFromBounds(runs: seq<RleElem>, idx: nat, drawn: nat, area: nat)
    requires idx <= |runs|
    requires drawn == RunsLength(runs[..idx])
    requires idx > 0 ==> RunsLength(runs[..idx - 1]) < area
    ensures RunsConsumedFrom(runs, idx, drawn, area).Found? ==>
      var n := RunsConsumedFrom(runs, idx, drawn, area).value;
      idx <= n <= |runs| && RunsLength(runs[..n]) >= area && (n > 0 ==> RunsLength(runs[..n - 1]) < area)
    ensures RunsConsumedFrom(runs, idx, drawn, area).Missing? ==> RunsLength(runs) < area
    decreases |runs| - idx
  {
    if drawn >= area {
    } else if idx == |runs| {
      assert runs[..idx] == runs;
    } else {
      PrefixStep(runs, idx);
      RunsConsumedFromBounds(runs, idx + 1, drawn + runs[idx].len, area);
    }
  }

  /** The decoder reads the shortest prefix of runs covering the area, and
      fails exactly when all the runs together are shorter than the area. */
  lemma RunsConsumedBounds(runs: seq<RleElem>, area: nat)
    ensures RunsConsumed(runs, area).Found? <==> RunsLength(runs) >= area
    ensures RunsConsumed(runs, area).Found? ==>
      var n := RunsConsumed(runs, area).value;
      n <= |runs| && RunsLength(runs[..n]) >= area && (n > 0 ==> RunsLength(runs[..n - 1]) < area)
  {
    assert runs[..0] == [];
    RunsConsumedFromBounds(runs, 0, 0, area);
    if RunsConsumed(runs, area).Found? {
      var n := RunsConsumed(runs, area).value;
      assert runs == runs[..n] + runs[n..];
      RunsLengthConcat(runs[..n], runs[n..]);
    }
  }

  /** The raster of `area` pixels that the decoder writes: the expansion of
      the runs it reads, cut at the area (a last run that overshoots is clipped). */
  function Rasterize(area: nat, runs: seq<RleElem>): (pixels: seq<u8>)
    requires RunsConsumed(runs, area).Found?
    ensures |pixels| == area
  {
    var n := RunsConsumed(runs, area).value;
    RunsConsumedBounds(runs, area);
    ExpandLength(runs[..n]);
    Expand(runs[..n])[..area]
  }

  /** When the runs add up to exactly the area, every pixel is written once,
      by the run that covers it, and nothing is clipped. */
  lemma RasterizeExact(runs: seq<RleElem>, area: nat)
    requires RunsLength(runs) == area
    ensures RunsConsumed(runs, area).Found?
    ensures Rasterize(area, runs) == Expand(runs)
  {
    RunsConsumedBounds(runs, area);
    var n := RunsConsumed(runs, area).value;
    assert runs == runs[..n] + runs[n..];
    RunsLengthConcat(runs[..n], runs[n..]);
    ExpandConcat(runs[..n], runs[n..]);
    ExpandLength(runs[..n]);
    ExpandLength(runs[n..]);
    assert Expand(runs[n..]) == [];
  }

  lemma CellInside(row: nat, col: nat, w: nat, h: nat)
    requires col < w
    ensures row < h <==> row * w + col < w * h
  {
    if row < h {
      assert row * w + col < row * w + w == (row + 1) * w <= h * w;
    } else {
      assert row * w >= h * w;
    }
  }

  /** The inner loop of the overlay callback: writes one run at the
      column/row cursor of a `w`-wide raster, wrapping to the next row when
      the column reaches `w`; pixels past the last row are dropped, as
      `QImage::setPixel` drops them. */
  method WriteRun(raster: array<u8>, w: u16, h: u16, run: RleElem, col0: nat, row0: nat, ghost drawn: nat)
    returns (col: nat, row: nat)
    requires raster.Length == w * h
    requires col0 < w && row0 * w + col0 == drawn
    modifies raster
    ensures col < w && row * w + col == drawn + run.len
    ensures forall k :: 0 <= k < raster.Length ==>
      raster[k] == (if drawn <= k < drawn + run.len then run.color else old(raster[k]))
  {
    col, row := col0, row0;
    var i := 0;
    while i < run.len
      invariant 0 <= i <= run.len
      invariant col < w
      invariant row * w + col == drawn + i
      invariant forall k :: 0 <= k < raster.Length ==>
        raster[k] == (if drawn <= k < drawn + i then run.color else old(raster[k]))
    {
      CellInside(row, col, w, h);
      if row < h {
        raster[row * w + col] := run.color;
      }
      col := col + 1;
      if col == w {
        col := 0;
        row := row + 1;
        assert row * w == (row - 1) * w + w;
      }
      i := i + 1;
    }
  }

  function Min(a: nat, b: nat): nat {
    if a < b then a else b
  }

  /** One iteration of the run-length loop: run `idx` written after the
      pixels of the runs before it. */
  method DrawRun(raster: array<u8>, w: u16, h: u16, runs: seq<RleElem>, idx: nat, col0: nat, row0: nat)
    returns (col: nat, row: nat)
    requires raster.Length == w * h && idx < |runs|
    requires RunsLength(runs[..idx]) == |Expand(runs[..idx])| < raster.Length
    requires col0 < w && row0 * w + col0 == RunsLength(runs[..idx])
    requires raster[..RunsLength(runs[..idx])] == Expand(runs[..idx])
    modifies raster
    ensures RunsLength(runs[..idx + 1]) == RunsLength(runs[..idx]) + runs[idx].len == |Expand(runs[..idx + 1])|
    ensures col < w && row * w + col == RunsLength(runs[..idx + 1])
    ensures var m := Min(RunsLength(runs[..idx + 1]), raster.Length);
      raster[..m] == Expand(runs[..idx + 1])[..m]
  {
    ghost var before := raster[..];
    PrefixStep(runs, idx);
    col, row := WriteRun(raster, w, h, runs[idx], col0, row0, RunsLength(runs[..idx]));
    RunWritten(before, raster[..], Expand(runs[..idx]), runs[idx]);
  }

  /** The run-length loop of the overlay callback: reads runs until `w * h`
      pixels are covered, writing each with `WriteRun`. Fails when the runs
      are exhausted before the area is covered. */
  method DecodeRle(w: u16, h: u16, runs: seq<RleElem>) returns (ok: bool, raster: array<u8>)
    ensures fresh(raster) && raster.Length == w * h
    ensures ok <==> RunsConsumed(runs, w * h).Found?
    ensures ok ==> raster[..] == Rasterize(w * h, runs)
  {
    var area := w * h;
    raster := new u8[area];
    var drawn := 0;
    var idx := 0;
    var col: nat, row: nat := 0, 0;
    while drawn < area
      invariant raster.Length == area
      invariant idx <= |runs|
      invariant drawn == RunsLength(runs[..idx]) == |Expand(runs[..idx])|
      invariant RunsConsumedFrom(runs, idx, drawn, area) == RunsConsumed(runs, area)
      invariant w > 0 ==> col < w && row * w + col == drawn
      invariant raster[..Min(drawn, area)] == Expand(runs[..idx])[..Min(drawn, area)]
      decreases |runs| - idx
    {
      if idx == |runs| {
        return false, raster;
      }
      assert w > 0;
      col, row := DrawRun(raster, w, h, runs, idx, col, row);
      drawn := drawn + runs[idx].len;
      idx := idx + 1;
    }
    assert RunsConsumedFrom(runs, idx, drawn, area) == Found(idx);
    assert raster[..] == raster[..area];
    ok := true;
  }

  /** One run written after the pixels `done`: the raster now agrees with
      the pixels extended by the run, as far as both reach. */
  lemma RunWritten(before: seq<u8>, after: seq<u8>, done: seq<u8>, run: RleElem)
    requires |before| == |after| && |done| < |before|
    requires before[..|done|] == done
    requires forall k :: 0 <= k < |after| ==>
      after[k] == (if |done| <= k < |done| + run.len then run.color else before[k])
    ensures var m := Min(|done| + run.len, |after|);
      after[..m] == (done + seq(run.len, _ => run.color))[..m]
  {
    var m := Min(|done| + run.len, |after|);
    forall k | 0 <= k < m
      ensures after[k] == (done + seq(run.len, _ => run.color))[k]
    {
      if k < |done| {
        assert before[k] == before[..|done|][k];
      }
    }
  }

  /** The region a DRAW instruction produces, or Missing when its runs run out. */
  function DecodeGraphic(ov: Overlay, convert: YuvToRgb): (g: Lookup<Graphic>)
    requires |ov.palette| == PALETTE_SIZE
    ensures g.Found? <==> RunsLength(ov.img) >= ov.w * ov.h
    ensures g.Found? ==> g.value.x == ov.x && g.value.y == ov.y && g.value.w == ov.w && g.value.h == ov.h
    ensures g.Found? ==> |g.value.pixels| == ov.w * ov.h && |g.value.colors| == PALETTE_SIZE
  {
    RunsConsumedBounds(ov.img, ov.w * ov.h);
    if RunsConsumed(ov.img, ov.w * ov.h).Missing? then Missing
    else Found(Graphic(ov.x, ov.y, ov.w, ov.h, Rasterize(ov.w * ov.h, ov.img), PaletteOf(ov.h, ov.palette, convert)))
  }

  /** A notice the callback can process: a DRAW carries a full palette. */
  predicate WellFormedNotice(n: OverlayNotice) {
    n.Instruction? && n.ov.cmd == Draw ==> |n.ov.palette| == PALETTE_SIZE
  }

  /** The overlay callback's effect on the compositor. */
  function ApplyOverlay(c: Compositor, n: OverlayNotice, convert: YuvToRgb): (r: Compositor)
    requires WellFormedNotice(n)
    ensures r.graphics == [] || c.graphics <= r.graphics
    ensures |r.graphics| <= |c.graphics| + 1
    ensures r.menuFlush != c.menuFlush ==> n.Instruction? && n.ov.cmd in {Clear, Close, Flush}
  {
    match n
    case Closed => c
    case Instruction(ov) =>
      if ov.cmd == Clear || ov.cmd == Close then Compositor([], false)
      else if ov.cmd == Flush then c.(menuFlush := true)
      else if ov.cmd != Draw then c
      else match DecodeGraphic(ov, convert)
        case Missing => c
        case Found(g) => c.(graphics := c.graphics + [g])
  }

  /** The regions painted over the video frame, in drawing order. */
  function Composite(c: Compositor): (shown: seq<Graphic>)
    ensures |shown| == (if c.menuFlush then |c.graphics| else 0)
    ensures forall i :: 0 <= i < |shown| ==> shown[i] == c.graphics[i]
  {
    if c.menuFlush then c.graphics else []
  }
}
