/** The scene: what every pixel of the screen shows, and the code that paints it row by row. */
module Scene {
  import opened Bytes

  const SURFACE_MAX := 64

  const LAYER_WALLPAPER := 0
  const LAYER_APPLICATION := 100
  const LAYER_SHELL := 200
  const LAYER_OVERLAY := 300
  const LAYER_NOTIFICATION := 400
  const LAYER_LUNA_ISLAND := 500
  const LAYER_SYSTEM_MODAL := 600
  const LAYER_CURSOR := 700

  /** The layers that are painted, from bottom to top. */
  const LAYER_ORDER: seq<nat> :=
    [LAYER_WALLPAPER, LAYER_APPLICATION, LAYER_SHELL, LAYER_OVERLAY, LAYER_NOTIFICATION, LAYER_LUNA_ISLAND,
     LAYER_SYSTEM_MODAL, LAYER_CURSOR]

  const XRGB8888 := 0x34325258
  const ARGB8888 := 0x34325241

  const WM_MINIMIZED := 2
  const WM_HIDDEN := 4

  /** The memory a client shares as the contents of a surface. */
  datatype Buffer = Unmapped | Mapped(bytes: seq<Byte>)

  datatype Surface = Surface(inUse: bool, id: nat, owner: nat, kind: nat, x: int, y: int, width: nat, height: nat,
                             layer: nat, stride: nat, format: nat, buffer: Buffer, wmState: nat)

  /** A pixel in memory order. */
  datatype Pixel = Pixel(b: Byte, g: Byte, r: Byte, a: Byte)

  const VOID := Pixel(0x0F, 0x0A, 0x0A, 0)
  const BLACK := Pixel(0, 0, 0, 0)
  const WHITE := Pixel(0xFF, 0xFF, 0xFF, 0)

  // -------------------------------------------------------------- one pixel

  function Mix(s: Byte, d: Byte, alpha: Byte): (m: Byte)
    ensures s <= d ==> s <= m <= d
    ensures d <= s ==> d <= m <= s
  {
    MixBounds(s, d, alpha);
    (s * alpha + d * (255 - alpha)) / 255
  }

  lemma MixBounds(s: Byte, d: Byte, alpha: Byte)
    ensures s <= d ==> s <= (s * alpha + d * (255 - alpha)) / 255 <= d
    ensures d <= s ==> d <= (s * alpha + d * (255 - alpha)) / 255 <= s
  {
    Weighted(if s <= d then s else d, s, d, if s <= d then d else s, alpha);
  }

  lemma Weighted(lo: int, s: int, d: int, hi: int, alpha: int)
    requires lo <= s <= hi && lo <= d <= hi && 0 <= alpha <= 255
    ensures 255 * lo <= s * alpha + d * (255 - alpha) <= 255 * hi
  {
    Scaled(lo, s, alpha);
    Scaled(s, hi, alpha);
    Scaled(lo, d, 255 - alpha);
    Scaled(d, hi, 255 - alpha);
    Parts(lo, alpha);
    Parts(hi, alpha);
  }

  lemma Scaled(a: int, b: int, k: int)
    requires a <= b && k >= 0
    ensures a * k <= b * k
  {
  }

  lemma Parts(a: int, k: int)
    ensures a * k + a * (255 - k) == 255 * a
  {
  }

  function Blend(s: Pixel, d: Pixel): Pixel {
    Pixel(Mix(s.b, d.b, s.a), Mix(s.g, d.g, s.a), Mix(s.r, d.r, s.a), 0)
  }

  /** A pixel of a buffer in one of the two formats over the pixel below it. */
  function Over(format: nat, s: Pixel, d: Pixel): Pixel {
    if format == XRGB8888 then s
    else if format != ARGB8888 || s.a == 0 then d
    else if s.a == 255 then s
    else Blend(s, d)
  }

  ghost predicate WellMapped(s: Surface) {
    s.buffer.Mapped? ==> s.stride >= 4 * s.width && s.stride * s.height <= |s.buffer.bytes|
  }

  predicate Paintable(s: Surface, layer: nat) {
    s.inUse && s.layer == layer && s.buffer.Mapped? && s.wmState != WM_MINIMIZED && s.wmState != WM_HIDDEN
  }

  predicate Covers(s: Surface, x: int, y: int) {
    s.x <= x < s.x + s.width && s.y <= y < s.y + s.height
  }

  function PixelIn(bytes: seq<Byte>, p: nat): Pixel
    requires p + 4 <= |bytes|
  {
    Pixel(bytes[p], bytes[p + 1], bytes[p + 2], bytes[p + 3])
  }

  lemma InBuffer(s: Surface, x: int, y: int)
    requires WellMapped(s) && s.buffer.Mapped? && Covers(s, x, y)
    ensures 0 <= (y - s.y) * s.stride
    ensures (y - s.y) * s.stride + 4 * (x - s.x) + 4 <= |s.buffer.bytes|
  {
    RowInside(y - s.y, s.height, s.stride);
  }

  lemma RowInside(row: int, rows: int, stride: int)
    requires 0 <= row < rows && stride >= 0
    ensures 0 <= row * stride && row * stride + stride <= stride * rows
  {
    Scaled(row + 1, rows, stride);
  }

  /** The pixel of a surface at a place on the screen. */
  function SourcePixel(s: Surface, x: int, y: int): Pixel
    requires WellMapped(s) && s.buffer.Mapped? && Covers(s, x, y)
  {
    InBuffer(s, x, y);
    PixelIn(s.buffer.bytes, (y - s.y) * s.stride + 4 * (x - s.x))
  }

  /** What a surface makes of a pixel when its layer is painted. */
  function Paint(s: Surface, layer: nat, x: int, y: int, under: Pixel): Pixel
    requires WellMapped(s)
  {
    if Paintable(s, layer) && Covers(s, x, y) then Over(s.format, SourcePixel(s, x, y), under) else under
  }

  // -------------------------------------------------------------- the scene

  ghost predicate AllMapped(surfaces: seq<Surface>) {
    |surfaces| == SURFACE_MAX && forall i :: 0 <= i < SURFACE_MAX ==> WellMapped(surfaces[i])
  }

  /** A pixel after `k` of the turns in which each listed layer visits each slot. */
  function AfterTurns(surfaces: seq<Surface>, x: int, y: int, k: nat): Pixel
    requires AllMapped(surfaces) && k <= SURFACE_MAX * |LAYER_ORDER|
  {
    if k == 0 then VOID
    else Paint(surfaces[(k - 1) % SURFACE_MAX], LAYER_ORDER[(k - 1) / SURFACE_MAX], x, y,
               AfterTurns(surfaces, x, y, k - 1))
  }

  function ScenePixel(surfaces: seq<Surface>, x: int, y: int): Pixel
    requires AllMapped(surfaces)
  {
    AfterTurns(surfaces, x, y, SURFACE_MAX * |LAYER_ORDER|)
  }

  const CURSOR: seq<seq<nat>> := [
    [1, 0, 0, 0, 0, 0, 0, 0],
    [1, 1, 0, 0, 0, 0, 0, 0],
    [1, 2, 1, 0, 0, 0, 0, 0],
    [1, 2, 2, 1, 0, 0, 0, 0],
    [1, 2, 2, 2, 1, 0, 0, 0],
    [1, 2, 2, 2, 2, 1, 0, 0],
    [1, 2, 2, 2, 2, 2, 1, 0],
    [1, 2, 2, 1, 1, 1, 1, 1],
    [1, 2, 1, 1, 0, 0, 0, 0],
    [1, 1, 0, 1, 1, 0, 0, 0],
    [1, 0, 0, 0, 1, 1, 0, 0],
    [0, 0, 0, 0, 0, 1, 1, 0]]

  const CURSOR_HEIGHT := 12
  const CURSOR_WIDTH := 8

  function CursorMark(dx: int, dy: int): nat
    requires 0 <= dx < CURSOR_WIDTH && 0 <= dy < CURSOR_HEIGHT
  {
    CursorShape(dy);
    CURSOR[dy][dx]
  }

  lemma CursorShape(dy: int)
    requires 0 <= dy < CURSOR_HEIGHT
    ensures |CURSOR| == CURSOR_HEIGHT && |CURSOR[dy]| == CURSOR_WIDTH
  {
  }

  /** The cursor over a pixel of the scene. */
  function WithCursor(cx: int, cy: int, x: int, y: int, under: Pixel): Pixel {
    if !(0 <= x - cx < CURSOR_WIDTH && 0 <= y - cy < CURSOR_HEIGHT) || CursorMark(x - cx, y - cy) == 0 then under
    else if CursorMark(x - cx, y - cy) == 1 then BLACK else WHITE
  }

  // ------------------------------------------------- the stacking order

  predicate Listed(layer: nat) { layer % 100 == 0 && layer <= LAYER_CURSOR }

  predicate Shown(s: Surface) { Listed(s.layer) && Paintable(s, s.layer) }

  /** The place of a slot in the painting order: by layer, then by slot. */
  function Rank(surfaces: seq<Surface>, i: nat): nat
    requires i < |surfaces|
  {
    SURFACE_MAX * (surfaces[i].layer / 100) + i
  }

  lemma LayerAt(k: nat)
    requires k < |LAYER_ORDER|
    ensures LAYER_ORDER[k] == 100 * k
  {
  }

  /** Turn `k` paints exactly the slot of that rank, if it is shown. */
  lemma TurnIsRank(surfaces: seq<Surface>, i: nat, k: nat)
    requires |surfaces| == SURFACE_MAX && i < SURFACE_MAX && k < SURFACE_MAX * |LAYER_ORDER|
    ensures (i == k % SURFACE_MAX && Paintable(surfaces[i], LAYER_ORDER[k / SURFACE_MAX]))
            <==> (Shown(surfaces[i]) && Rank(surfaces, i) == k)
  {
    LayerAt(k / SURFACE_MAX);
  }

  lemma RankInRange(surfaces: seq<Surface>, i: nat)
    requires |surfaces| == SURFACE_MAX && i < SURFACE_MAX && Shown(surfaces[i])
    ensures Rank(surfaces, i) < SURFACE_MAX * |LAYER_ORDER|
  {
  }

  /** The shown slots of rank below `k`, bottom first. */
  function StackTo(surfaces: seq<Surface>, k: nat): (order: seq<nat>)
    requires |surfaces| == SURFACE_MAX && k <= SURFACE_MAX * |LAYER_ORDER|
    ensures forall a :: 0 <= a < |order| ==> order[a] < SURFACE_MAX
  {
    if k == 0 then []
    else if Paintable(surfaces[(k - 1) % SURFACE_MAX], LAYER_ORDER[(k - 1) / SURFACE_MAX])
    then StackTo(surfaces, k - 1) + [(k - 1) % SURFACE_MAX]
    else StackTo(surfaces, k - 1)
  }

  /** The list has exactly the shown slots of rank below `k`, in increasing rank. */
  ghost predicate Stacked(surfaces: seq<Surface>, order: seq<nat>, k: nat) {
    && |surfaces| == SURFACE_MAX
    && (forall a :: 0 <= a < |order| ==> order[a] < SURFACE_MAX)
    && (forall a :: 0 <= a < |order| ==> Shown(surfaces[order[a]]) && Rank(surfaces, order[a]) < k)
    && (forall i: nat :: i < SURFACE_MAX && Shown(surfaces[i]) && Rank(surfaces, i) < k ==> i in order)
    && (forall a, b :: 0 <= a < b < |order| ==> Rank(surfaces, order[a]) < Rank(surfaces, order[b]))
  }

  lemma {:induction false} StackToIsStacked(surfaces: seq<Surface>, k: nat)
    requires |surfaces| == SURFACE_MAX && k <= SURFACE_MAX * |LAYER_ORDER|
    ensures Stacked(surfaces, StackTo(surfaces, k), k)
    decreases k
  {
    if k > 0 {
      StackToIsStacked(surfaces, k - 1);
      StackNext(surfaces, StackTo(surfaces, k - 1), k);
    }
  }

  lemma StackNext(surfaces: seq<Surface>, order: seq<nat>, k: nat)
    requires 0 < k <= SURFACE_MAX * |LAYER_ORDER| && Stacked(surfaces, order, k - 1)
    ensures var i := (k - 1) % SURFACE_MAX;
            Stacked(surfaces,
                    if Paintable(surfaces[i], LAYER_ORDER[(k - 1) / SURFACE_MAX]) then order + [i] else order, k)
  {
    forall i: nat | i < SURFACE_MAX
      ensures (i == (k - 1) % SURFACE_MAX && Paintable(surfaces[i], LAYER_ORDER[(k - 1) / SURFACE_MAX]))
              <==> (Shown(surfaces[i]) && Rank(surfaces, i) == k - 1)
    {
      TurnIsRank(surfaces, i, k - 1);
    }
  }

  /** The pixel that results when the listed slots are painted one over the other. */
  function Fold(surfaces: seq<Surface>, order: seq<nat>, x: int, y: int): Pixel
    requires AllMapped(surfaces) && forall a :: 0 <= a < |order| ==> order[a] < SURFACE_MAX
  {
    if order == [] then VOID
    else
      var last := |order| - 1;
      var s := surfaces[order[last]];
      Paint(s, s.layer, x, y, Fold(surfaces, order[..last], x, y))
  }

  lemma {:induction false} TurnsAreFold(surfaces: seq<Surface>, x: int, y: int, k: nat)
    requires AllMapped(surfaces) && k <= SURFACE_MAX * |LAYER_ORDER|
    ensures AfterTurns(surfaces, x, y, k) == Fold(surfaces, StackTo(surfaces, k), x, y)
    decreases k
  {
    if k > 0 {
      TurnsAreFold(surfaces, x, y, k - 1);
      var rest, order := StackTo(surfaces, k - 1), StackTo(surfaces, k);
      if order != rest { assert order[..|order| - 1] == rest; }
    }
  }

  /** A pixel of the scene is the stack of the shown surfaces, lower layers and earlier slots below. */
  lemma SceneIsStack(surfaces: seq<Surface>, x: int, y: int) returns (order: seq<nat>)
    requires AllMapped(surfaces)
    ensures Stacked(surfaces, order, SURFACE_MAX * |LAYER_ORDER|)
    ensures forall i: nat :: i < SURFACE_MAX ==> (i in order <==> Shown(surfaces[i]))
    ensures ScenePixel(surfaces, x, y) == Fold(surfaces, order, x, y)
  {
    order := StackTo(surfaces, SURFACE_MAX * |LAYER_ORDER|);
    StackToIsStacked(surfaces, SURFACE_MAX * |LAYER_ORDER|);
    TurnsAreFold(surfaces, x, y, SURFACE_MAX * |LAYER_ORDER|);
    forall i: nat | i < SURFACE_MAX && Shown(surfaces[i]) ensures i in order { RankInRange(surfaces, i); }
  }

  // ---------------------------------------------- what is seen of the stack

  predicate Solid(s: Surface, x: int, y: int)
    requires WellMapped(s) && s.buffer.Mapped? && Covers(s, x, y)
  {
    s.format == XRGB8888 || (s.format == ARGB8888 && SourcePixel(s, x, y).a == 255)
  }

  /** The surface adds nothing to this pixel. */
  predicate Clear(s: Surface, x: int, y: int)
    requires WellMapped(s)
  {
    !s.buffer.Mapped? || !Covers(s, x, y)
    || (s.format != XRGB8888 && (s.format != ARGB8888 || SourcePixel(s, x, y).a == 0))
  }

  /** No shown slot of rank between `lo` and `hi` adds to the pixel. */
  ghost predicate ClearBetween(surfaces: seq<Surface>, x: int, y: int, lo: int, hi: int)
    requires AllMapped(surfaces)
  {
    forall i: nat :: i < SURFACE_MAX && Shown(surfaces[i]) && lo < Rank(surfaces, i) < hi ==> Clear(surfaces[i], x, y)
  }

  lemma {:induction false} ClearKeeps(surfaces: seq<Surface>, x: int, y: int, lo: nat, hi: nat)
    requires AllMapped(surfaces) && lo <= hi <= SURFACE_MAX * |LAYER_ORDER|
    requires ClearBetween(surfaces, x, y, lo - 1, hi)
    ensures AfterTurns(surfaces, x, y, hi) == AfterTurns(surfaces, x, y, lo)
    decreases hi - lo
  {
    if lo < hi {
      ClearTurn(surfaces, x, y, lo);
      ClearKeeps(surfaces, x, y, lo + 1, hi);
    }
  }

  lemma ClearTurn(surfaces: seq<Surface>, x: int, y: int, k: nat)
    requires AllMapped(surfaces) && k < SURFACE_MAX * |LAYER_ORDER|
    requires ClearBetween(surfaces, x, y, k - 1, k + 1)
    ensures AfterTurns(surfaces, x, y, k + 1) == AfterTurns(surfaces, x, y, k)
  {
    TurnIsRank(surfaces, k % SURFACE_MAX, k);
  }

  /** The topmost opaque surface is seen, if those above it are clear there. */
  lemma TopmostSeen(surfaces: seq<Surface>, x: int, y: int, i: nat)
    requires AllMapped(surfaces) && i < SURFACE_MAX && Shown(surfaces[i])
    requires Covers(surfaces[i], x, y) && Solid(surfaces[i], x, y)
    requires ClearBetween(surfaces, x, y, Rank(surfaces, i), SURFACE_MAX * |LAYER_ORDER|)
    ensures ScenePixel(surfaces, x, y) == SourcePixel(surfaces[i], x, y)
  {
    var r := Rank(surfaces, i);
    RankInRange(surfaces, i);
    TurnIsRank(surfaces, i, r);
    ClearKeeps(surfaces, x, y, r + 1, SURFACE_MAX * |LAYER_ORDER|);
    PaintedAt(surfaces, x, y, i, r);
  }

  lemma PaintedAt(surfaces: seq<Surface>, x: int, y: int, i: nat, r: nat)
    requires AllMapped(surfaces) && r < SURFACE_MAX * |LAYER_ORDER| && i == r % SURFACE_MAX
    requires Paintable(surfaces[i], LAYER_ORDER[r / SURFACE_MAX]) && Covers(surfaces[i], x, y)
    requires Solid(surfaces[i], x, y)
    ensures AfterTurns(surfaces, x, y, r + 1) == SourcePixel(surfaces[i], x, y)
  {
  }

  /** Where every shown surface is clear, the void is seen; so a layer that is not listed never shows. */
  lemma VoidSeen(surfaces: seq<Surface>, x: int, y: int)
    requires AllMapped(surfaces)
    requires forall i: nat :: i < SURFACE_MAX && Shown(surfaces[i]) ==> Clear(surfaces[i], x, y)
    ensures ScenePixel(surfaces, x, y) == VOID
  {
    ClearKeeps(surfaces, x, y, 0, SURFACE_MAX * |LAYER_ORDER|);
  }
}
