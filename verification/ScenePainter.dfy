/** Painting the scene into a frame buffer, given as its rows of bytes. */
module ScenePainter {
  import opened Bytes
  import opened Scene

  /** The pixel at a place of the frame buffer. */
  ghost function At(dst: array2<Byte>, x: nat, y: nat): Pixel
    requires y < dst.Length0 && 4 * x + 4 <= dst.Length1
    reads dst
  {
    Pixel(dst[y, 4 * x], dst[y, 4 * x + 1], dst[y, 4 * x + 2], dst[y, 4 * x + 3])
  }

  /** The buffer has `height` rows with room for `width` pixels, and perhaps padding. */
  ghost predicate Fits(dst: array2<Byte>, width: nat, height: nat) {
    dst.Length0 == height && 4 * width <= dst.Length1
  }

  /** The bytes behind the last pixel of each row are what they were. */
  twostate predicate PaddingKept(dst: array2<Byte>, width: nat)
    reads dst
  {
    forall y, b :: 0 <= y < dst.Length0 && 4 * width <= b < dst.Length1 ==> dst[y, b] == old(dst[y, b])
  }

  /** All pixels but this one are what they were. */
  twostate predicate OthersKept(dst: array2<Byte>, x: int, y: int)
    reads dst
  {
    forall k, r {:trigger At(dst, k, r)} ::
      0 <= r < dst.Length0 && 0 <= k && 4 * k + 4 <= dst.Length1 && (k != x || r != y) ==>
        At(dst, k, r) == old(At(dst, k, r))
  }

  /** All pixels outside this part of a row are what they were. */
  twostate predicate OutsideKept(dst: array2<Byte>, y: int, x0: int, x1: int)
    reads dst
  {
    forall k, r {:trigger At(dst, k, r)} ::
      0 <= r < dst.Length0 && 0 <= k && 4 * k + 4 <= dst.Length1 && (r != y || k < x0 || x1 <= k) ==>
      At(dst, k, r) == old(At(dst, k, r))
  }

  method PutPixel(dst: array2<Byte>, x: nat, y: nat, p: Pixel)
    requires y < dst.Length0 && 4 * x + 4 <= dst.Length1
    modifies dst
    ensures At(dst, x, y) == p && OthersKept(dst, x, y) && PaddingKept(dst, x + 1)
  {
    dst[y, 4 * x] := p.b;
    dst[y, 4 * x + 1] := p.g;
    dst[y, 4 * x + 2] := p.r;
    dst[y, 4 * x + 3] := p.a;
  }

  method GetPixel(dst: array2<Byte>, x: nat, y: nat) returns (p: Pixel)
    requires y < dst.Length0 && 4 * x + 4 <= dst.Length1
    ensures p == At(dst, x, y)
  {
    p := Pixel(dst[y, 4 * x], dst[y, 4 * x + 1], dst[y, 4 * x + 2], dst[y, 4 * x + 3]);
  }

  method ClearRow(dst: array2<Byte>, width: nat, y: nat)
    requires y < dst.Length0 && 4 * width <= dst.Length1
    modifies dst
    ensures forall x :: 0 <= x < width ==> At(dst, x, y) == VOID
    ensures OutsideKept(dst, y, 0, width) && PaddingKept(dst, width)
  {
    for x := 0 to width
      invariant forall k :: 0 <= k < x ==> At(dst, k, y) == VOID
      invariant OutsideKept(dst, y, 0, x) && PaddingKept(dst, width)
    {
      PutPixel(dst, x, y, VOID);
    }
  }

  method ClearAll(dst: array2<Byte>, width: nat, height: nat)
    requires Fits(dst, width, height)
    modifies dst
    ensures forall x, y :: 0 <= x < width && 0 <= y < height ==> At(dst, x, y) == VOID
    ensures PaddingKept(dst, width)
  {
    for y := 0 to height
      invariant forall x, r :: 0 <= x < width && 0 <= r < y ==> At(dst, x, r) == VOID
      invariant PaddingKept(dst, width)
    {
      ClearRow(dst, width, y);
    }
  }

  /** One row of a surface with transparency, pixel by pixel. */
  method BlendRow(dst: array2<Byte>, width: nat, s: Surface, y: nat, x0: nat, x1: nat)
    requires y < dst.Length0 && 4 * width <= dst.Length1 && x0 <= x1 <= width
    requires WellMapped(s) && s.buffer.Mapped? && s.format == ARGB8888
    requires forall x :: x0 <= x < x1 ==> Covers(s, x, y)
    modifies dst
    ensures forall x {:trigger At(dst, x, y)} :: x0 <= x < x1 ==>
              At(dst, x, y) == Over(s.format, SourcePixel(s, x, y), old(At(dst, x, y)))
    ensures OutsideKept(dst, y, x0, x1) && PaddingKept(dst, width)
  {
    for dx := x0 to x1
      invariant forall x {:trigger At(dst, x, y)} :: x0 <= x < dx ==>
                  At(dst, x, y) == Over(s.format, SourcePixel(s, x, y), old(At(dst, x, y)))
      invariant OutsideKept(dst, y, x0, dx) && PaddingKept(dst, width)
    {
      BlendPixel(dst, s, dx, y);
    }
  }

  method BlendPixel(dst: array2<Byte>, s: Surface, x: nat, y: nat)
    requires y < dst.Length0 && 4 * x + 4 <= dst.Length1
    requires WellMapped(s) && s.buffer.Mapped? && s.format == ARGB8888 && Covers(s, x, y)
    modifies dst
    ensures At(dst, x, y) == Over(s.format, SourcePixel(s, x, y), old(At(dst, x, y)))
    ensures OthersKept(dst, x, y) && PaddingKept(dst, x + 1)
  {
    var src := ReadSource(s, x, y);
    if src.a == 255 {
      PutPixel(dst, x, y, src);
    } else if src.a > 0 {
      var d := GetPixel(dst, x, y);
      PutPixel(dst, x, y, Blend(src, d));
    }
  }

  method ReadSource(s: Surface, x: int, y: int) returns (p: Pixel)
    requires WellMapped(s) && s.buffer.Mapped? && Covers(s, x, y)
    ensures p == SourcePixel(s, x, y)
  {
    InBuffer(s, x, y);
    var at := (y - s.y) * s.stride + 4 * (x - s.x);
    var bytes := s.buffer.bytes;
    p := Pixel(bytes[at], bytes[at + 1], bytes[at + 2], bytes[at + 3]);
  }

  /** One row of a surface without transparency, copied as a block of bytes. */
  method CopyRow(dst: array2<Byte>, width: nat, s: Surface, y: nat, x0: nat, x1: nat)
    requires y < dst.Length0 && 4 * width <= dst.Length1 && x0 < x1 <= width
    requires WellMapped(s) && s.buffer.Mapped? && s.format == XRGB8888
    requires forall x :: x0 <= x < x1 ==> Covers(s, x, y)
    modifies dst
    ensures forall x {:trigger At(dst, x, y)} :: x0 <= x < x1 ==> At(dst, x, y) == SourcePixel(s, x, y)
    ensures OutsideKept(dst, y, x0, x1) && PaddingKept(dst, width)
  {
    var start := (y - s.y) * s.stride + 4 * (x0 - s.x);
    var size := 4 * (x1 - x0);
    BlockInside(s, x0, x1, y);
    var block := s.buffer.bytes[start..start + size];
    PutBlock(dst, y, 4 * x0, block);
    forall x | x0 <= x < x1 ensures At(dst, x, y) == SourcePixel(s, x, y) {
      PixelOfBlock(s, x0, x1, x, y);
    }
  }

  method PutBlock(dst: array2<Byte>, y: nat, at: nat, block: seq<Byte>)
    requires y < dst.Length0 && at + |block| <= dst.Length1
    modifies dst
    ensures forall r, b :: 0 <= r < dst.Length0 && 0 <= b < dst.Length1 && r != y ==> dst[r, b] == old(dst[r, b])
    ensures forall b :: 0 <= b < |block| ==> dst[y, at + b] == block[b]
    ensures forall b :: 0 <= b < dst.Length1 && !(at <= b < at + |block|) ==> dst[y, b] == old(dst[y, b])
  {
    for k := 0 to |block|
      invariant forall r, b :: 0 <= r < dst.Length0 && 0 <= b < dst.Length1 && r != y ==> dst[r, b] == old(dst[r, b])
      invariant forall b :: 0 <= b < k ==> dst[y, at + b] == block[b]
      invariant forall b :: 0 <= b < dst.Length1 && !(at <= b < at + k) ==> dst[y, b] == old(dst[y, b])
    {
      dst[y, at + k] := block[k];
    }
  }

  lemma BlockInside(s: Surface, x0: int, x1: int, y: int)
    requires WellMapped(s) && s.buffer.Mapped? && x0 < x1 && Covers(s, x0, y) && Covers(s, x1 - 1, y)
    ensures 0 <= (y - s.y) * s.stride + 4 * (x0 - s.x)
    ensures (y - s.y) * s.stride + 4 * (x0 - s.x) + 4 * (x1 - x0) <= |s.buffer.bytes|
  {
    InBuffer(s, x1 - 1, y);
  }

  /** A pixel inside the copied block is the pixel of the surface. */
  lemma PixelOfBlock(s: Surface, x0: int, x1: int, x: int, y: int)
    requires WellMapped(s) && s.buffer.Mapped? && x0 <= x < x1 && Covers(s, x0, y) && Covers(s, x1 - 1, y)
    ensures var start := (y - s.y) * s.stride + 4 * (x0 - s.x);
            var k := 4 * (x - x0);
            && 0 <= start && start + 4 * (x1 - x0) <= |s.buffer.bytes|
            && PixelIn(s.buffer.bytes[start..start + 4 * (x1 - x0)], k) == SourcePixel(s, x, y)
  {
    BlockInside(s, x0, x1, y);
  }

  /** One row of a surface, clipped to the screen. */
  method PaintRow(dst: array2<Byte>, width: nat, s: Surface, y: nat, x0: nat, x1: nat)
    requires y < dst.Length0 && 4 * width <= dst.Length1 && x0 < x1 <= width
    requires WellMapped(s) && s.buffer.Mapped?
    requires forall x :: 0 <= x < width ==> (x0 <= x < x1 <==> Covers(s, x, y))
    modifies dst
    ensures forall x {:trigger At(dst, x, y)} :: x0 <= x < x1 ==>
              At(dst, x, y) == Over(s.format, SourcePixel(s, x, y), old(At(dst, x, y)))
    ensures OutsideKept(dst, y, x0, x1) && PaddingKept(dst, width)
  {
    if s.format == ARGB8888 {
      BlendRow(dst, width, s, y, x0, x1);
    } else if s.format == XRGB8888 {
      CopyRow(dst, width, s, y, x0, x1);
    }
  }

  /** The turn of one slot while a layer is painted. */
  method PaintSurface(dst: array2<Byte>, width: nat, height: nat, s: Surface, layer: nat)
    requires Fits(dst, width, height) && WellMapped(s)
    modifies dst
    ensures forall x, y {:trigger At(dst, x, y)} :: 0 <= x < width && 0 <= y < height ==>
              At(dst, x, y) == Paint(s, layer, x, y, old(At(dst, x, y)))
    ensures PaddingKept(dst, width)
  {
    if !s.inUse || s.layer != layer || s.buffer.Unmapped? { return; }
    if s.wmState == WM_MINIMIZED || s.wmState == WM_HIDDEN { return; }
    var x0 := if s.x < 0 then 0 else s.x;
    var y0 := if s.y < 0 then 0 else s.y;
    var x1 := if s.x + s.width > width then width else s.x + s.width;
    var y1 := if s.y + s.height > height then height else s.y + s.height;
    if x0 >= x1 || y0 >= y1 { return; }
    for y := y0 to y1
      invariant forall x, r {:trigger At(dst, x, r)} :: 0 <= x < width && 0 <= r < height ==>
                  At(dst, x, r) == if r < y then Paint(s, layer, x, r, old(At(dst, x, r))) else old(At(dst, x, r))
      invariant PaddingKept(dst, width)
    {
      PaintRow(dst, width, s, y, x0, x1);
    }
  }

  /** The turns of all slots for all layers. */
  method PaintLayers(surfaces: seq<Surface>, dst: array2<Byte>, width: nat, height: nat)
    requires Fits(dst, width, height) && AllMapped(surfaces)
    requires forall x, y {:trigger At(dst, x, y)} :: 0 <= x < width && 0 <= y < height ==> At(dst, x, y) == VOID
    modifies dst
    ensures forall x, y {:trigger At(dst, x, y)} :: 0 <= x < width && 0 <= y < height ==>
              At(dst, x, y) == ScenePixel(surfaces, x, y)
    ensures PaddingKept(dst, width)
  {
    for l := 0 to |LAYER_ORDER|
      invariant forall x, y {:trigger At(dst, x, y)} :: 0 <= x < width && 0 <= y < height ==>
                  At(dst, x, y) == AfterTurns(surfaces, x, y, SURFACE_MAX * l)
      invariant PaddingKept(dst, width)
    {
      PaintLayer(surfaces, dst, width, height, l);
    }
  }

  method PaintLayer(surfaces: seq<Surface>, dst: array2<Byte>, width: nat, height: nat, l: nat)
    requires Fits(dst, width, height) && AllMapped(surfaces) && l < |LAYER_ORDER|
    requires forall x, y {:trigger At(dst, x, y)} :: 0 <= x < width && 0 <= y < height ==>
               At(dst, x, y) == AfterTurns(surfaces, x, y, SURFACE_MAX * l)
    modifies dst
    ensures forall x, y {:trigger At(dst, x, y)} :: 0 <= x < width && 0 <= y < height ==>
              At(dst, x, y) == AfterTurns(surfaces, x, y, SURFACE_MAX * (l + 1))
    ensures PaddingKept(dst, width)
  {
    for i := 0 to SURFACE_MAX
      invariant forall x, y {:trigger At(dst, x, y)} :: 0 <= x < width && 0 <= y < height ==>
                  At(dst, x, y) == AfterTurns(surfaces, x, y, SURFACE_MAX * l + i)
      invariant PaddingKept(dst, width)
    {
      PaintSurface(dst, width, height, surfaces[i], LAYER_ORDER[l]);
      forall x, y | 0 <= x < width && 0 <= y < height
        ensures At(dst, x, y) == AfterTurns(surfaces, x, y, SURFACE_MAX * l + i + 1)
      {
        NextTurn(surfaces, x, y, l, i);
      }
    }
  }

  lemma NextTurn(surfaces: seq<Surface>, x: int, y: int, l: nat, i: nat)
    requires AllMapped(surfaces) && l < |LAYER_ORDER| && i < SURFACE_MAX
    ensures AfterTurns(surfaces, x, y, SURFACE_MAX * l + i + 1)
            == Paint(surfaces[i], LAYER_ORDER[l], x, y, AfterTurns(surfaces, x, y, SURFACE_MAX * l + i))
  {
    var k := SURFACE_MAX * l + i + 1;
    assert (k - 1) % SURFACE_MAX == i && (k - 1) / SURFACE_MAX == l;
  }

  /** The cursor bitmap over the painted scene, clipped to the screen. */
  method DrawSoftwareCursor(dst: array2<Byte>, width: nat, height: nat, cx: int, cy: int)
    requires Fits(dst, width, height)
    modifies dst
    ensures forall x, y {:trigger At(dst, x, y)} :: 0 <= x < width && 0 <= y < height ==>
              At(dst, x, y) == WithCursor(cx, cy, x, y, old(At(dst, x, y)))
    ensures PaddingKept(dst, width)
  {
    for y := 0 to CURSOR_HEIGHT
      invariant forall x, r {:trigger At(dst, x, r)} :: 0 <= x < width && 0 <= r < height ==>
                  At(dst, x, r)
                  == if r < cy + y then WithCursor(cx, cy, x, r, old(At(dst, x, r))) else old(At(dst, x, r))
      invariant PaddingKept(dst, width)
    {
      if 0 <= cy + y < height { DrawCursorRow(dst, width, cx, cy, y); }
    }
  }

  method DrawCursorRow(dst: array2<Byte>, width: nat, cx: int, cy: int, y: nat)
    requires 4 * width <= dst.Length1 && y < CURSOR_HEIGHT && 0 <= cy + y < dst.Length0
    modifies dst
    ensures forall x {:trigger At(dst, x, cy + y)} :: 0 <= x < width ==>
              At(dst, x, cy + y) == WithCursor(cx, cy, x, cy + y, old(At(dst, x, cy + y)))
    ensures OutsideKept(dst, cy + y, 0, width) && PaddingKept(dst, width)
  {
    for x := 0 to CURSOR_WIDTH
      invariant forall k {:trigger At(dst, k, cy + y)} :: 0 <= k < width ==>
                  At(dst, k, cy + y) == if k < cx + x then WithCursor(cx, cy, k, cy + y, old(At(dst, k, cy + y)))
                                        else old(At(dst, k, cy + y))
      invariant OutsideKept(dst, cy + y, 0, width) && PaddingKept(dst, width)
    {
      if 0 <= cx + x < width {
        var mark := CursorMark(x, y);
        if mark != 0 {
          PutPixel(dst, cx + x, cy + y, if mark == 1 then BLACK else WHITE);
        }
      }
    }
  }

  const EINVAL := 22

  /** Paints the whole scene; a screen without pixels or with rows that are too short is refused. */
  method Composite(surfaces: seq<Surface>, dst: array2<Byte>, width: nat, height: nat, cx: int, cy: int)
    returns (r: int)
    requires AllMapped(surfaces) && dst.Length0 == height
    modifies dst
    ensures r == if width == 0 || height == 0 || dst.Length1 < 4 * width then -EINVAL else 0
    ensures r != 0 ==> forall y, b :: 0 <= y < dst.Length0 && 0 <= b < dst.Length1 ==> dst[y, b] == old(dst[y, b])
    ensures r == 0 ==> forall x, y {:trigger At(dst, x, y)} :: 0 <= x < width && 0 <= y < height ==>
              At(dst, x, y) == WithCursor(cx, cy, x, y, ScenePixel(surfaces, x, y))
    ensures r == 0 ==> PaddingKept(dst, width)
  {
    if width == 0 || height == 0 || dst.Length1 < 4 * width { return -EINVAL; }
    ClearAll(dst, width, height);
    PaintLayers(surfaces, dst, width, height);
    DrawSoftwareCursor(dst, width, height, cx, cy);
    return 0;
  }
}
