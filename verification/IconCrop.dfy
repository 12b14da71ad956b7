/** Cropping the tray mark to its strokes, `crop_to_mark` of `linux/runner/clide_loader.cc`. A picture is a
    list of rows; the row stride of the pixel buffer is not part of this model. */
module IconCrop {

  datatype Pixel = Pixel(red: nat, green: nat, blue: nat, alpha: nat)

  datatype Image = Image(width: nat, height: nat, rows: seq<seq<Pixel>>)

  const CLEAR := Pixel(0, 0, 0, 0)

  predicate Valid(m: Image) {
    |m.rows| == m.height && forall y :: 0 <= y < m.height ==> |m.rows[y]| == m.width
  }

  predicate Inside(m: Image, x: int, y: int) { 0 <= x < m.width && 0 <= y < m.height }

  function At(m: Image, x: int, y: int): Pixel
    requires Valid(m) && Inside(m, x, y)
  {
    m.rows[y][x]
  }

  /** A pixel of the mark. */
  predicate Marked(m: Image, x: int, y: int)
    requires Valid(m)
  {
    Inside(m, x, y) && At(m, x, y).alpha > 8
  }

  ghost predicate Blank(m: Image)
    requires Valid(m)
  {
    forall x, y :: !Marked(m, x, y)
  }

  datatype Box = Box(x0: int, y0: int, x1: int, y1: int)

  /** The smallest box that holds every pixel of the mark: each of its four sides touches one. */
  ghost predicate Bounds(m: Image, b: Box)
    requires Valid(m)
  {
    && (forall x, y :: Marked(m, x, y) ==> b.x0 <= x <= b.x1 && b.y0 <= y <= b.y1)
    && (exists y :: Marked(m, b.x0, y)) && (exists y :: Marked(m, b.x1, y))
    && (exists x :: Marked(m, x, b.y0)) && (exists x :: Marked(m, x, b.y1))
  }

  /** The pixels before (x, y) in reading order. */
  predicate Before(px: int, py: int, x: int, y: int) { py < y || (py == y && px < x) }

  ghost predicate BoundsSoFar(m: Image, b: Box, x: int, y: int)
    requires Valid(m)
  {
    if b.x1 < 0 then
      b == Box(m.width, m.height, -1, -1) && forall px, py :: Before(px, py, x, y) ==> !Marked(m, px, py)
    else
      && (forall px, py :: Marked(m, px, py) && Before(px, py, x, y) ==> b.x0 <= px <= b.x1 && b.y0 <= py <= b.y1)
      && (exists py :: Marked(m, b.x0, py)) && (exists py :: Marked(m, b.x1, py))
      && (exists px :: Marked(m, px, b.y0)) && (exists px :: Marked(m, px, b.y1))
      && b.y1 >= 0 && b.x0 <= b.x1 && b.y0 <= b.y1
  }

  /** The pixel loop. */
  method FindBounds(m: Image) returns (b: Box)
    requires Valid(m)
    ensures b.x1 < 0 <==> Blank(m)
    ensures b.x1 >= 0 ==> Bounds(m, b) && Inside(m, b.x0, b.y0) && Inside(m, b.x1, b.y1)
  {
    var x0, y0, x1, y1 := m.width as int, m.height as int, -1, -1;
    for y := 0 to m.height
      invariant BoundsSoFar(m, Box(x0, y0, x1, y1), 0, y)
    {
      for x := 0 to m.width
        invariant BoundsSoFar(m, Box(x0, y0, x1, y1), x, y)
      {
        ghost var before := Box(x0, y0, x1, y1);
        if At(m, x, y).alpha > 8 {
          x0 := if x0 < x then x0 else x;
          y0 := if y0 < y then y0 else y;
          x1 := if x1 > x then x1 else x;
          y1 := if y1 > y then y1 else y;
          MarkWidens(m, before, x, y);
        } else {
          GapKeeps(m, before, x, y);
        }
      }
      NextRow(m, Box(x0, y0, x1, y1), y);
    }
    b := Box(x0, y0, x1, y1);
    assert forall px, py :: Marked(m, px, py) ==> Before(px, py, 0, m.height);
  }

  function Widened(b: Box, x: int, y: int): Box {
    Box(if b.x0 < x then b.x0 else x, if b.y0 < y then b.y0 else y,
        if b.x1 > x then b.x1 else x, if b.y1 > y then b.y1 else y)
  }

  lemma MarkWidens(m: Image, b: Box, x: int, y: int)
    requires Valid(m) && Marked(m, x, y) && BoundsSoFar(m, b, x, y)
    ensures BoundsSoFar(m, Widened(b, x, y), x + 1, y)
  {
    forall px, py | Marked(m, px, py) && Before(px, py, x + 1, y)
      ensures Widened(b, x, y).x0 <= px <= Widened(b, x, y).x1 && Widened(b, x, y).y0 <= py <= Widened(b, x, y).y1
    {
      if px != x || py != y { assert Before(px, py, x, y); }
    }
  }

  lemma GapKeeps(m: Image, b: Box, x: int, y: int)
    requires Valid(m) && !Marked(m, x, y) && BoundsSoFar(m, b, x, y)
    ensures BoundsSoFar(m, b, x + 1, y)
  {
    forall px, py | Before(px, py, x + 1, y) ensures Before(px, py, x, y) || (px == x && py == y) {}
  }

  lemma NextRow(m: Image, b: Box, y: int)
    requires Valid(m) && BoundsSoFar(m, b, m.width, y)
    ensures BoundsSoFar(m, b, 0, y + 1)
  {
    forall px, py | Before(px, py, 0, y + 1) && Marked(m, px, py) ensures Before(px, py, m.width, y) {}
  }

  // ---- where the mark goes ------------------------------------------------------------------------

  function Max(a: int, b: int): int { if a > b then a else b }
  function Min(a: int, b: int): int { if a < b then a else b }

  function Side(b: Box): int { Max(b.x1 - b.x0, b.y1 - b.y0) + 1 }

  /** Width and height of the cropped picture. */
  function Full(b: Box): int { Side(b) + 2 * (Side(b) / 10) }

  function ShiftX(b: Box): int { Full(b) / 2 - (b.x0 + b.x1) / 2 }
  function ShiftY(b: Box): int { Full(b) / 2 - (b.y0 + b.y1) / 2 }

  /** The copied rectangle of the source. */
  datatype Area = Area(sx: int, sy: int, ex: int, ey: int)

  function Copied(m: Image, b: Box): Area {
    Area(Max(0, -ShiftX(b)), Max(0, -ShiftY(b)), Min(m.width, Full(b) - ShiftX(b)), Min(m.height, Full(b) - ShiftY(b)))
  }

  /** Whatever the picture and the box: the copied rectangle lies inside both pictures, and no larger one
      would. */
  lemma CopyStaysInside(m: Image, b: Box, x: int, y: int)
    ensures var a := Copied(m, b);
            (a.sx <= x < a.ex && a.sy <= y < a.ey)
            <==> Inside(m, x, y) && 0 <= x + ShiftX(b) < Full(b) && 0 <= y + ShiftY(b) < Full(b)
  {}

  /** The source moved so that the box is centred, cut to the new size, and clear elsewhere. */
  ghost predicate Cropped(m: Image, b: Box, out: Image)
    requires Valid(m)
  {
    && Valid(out) && out.width == out.height == Full(b)
    && forall x, y :: Inside(out, x, y) ==>
         At(out, x, y) == if Inside(m, x - ShiftX(b), y - ShiftY(b)) then At(m, x - ShiftX(b), y - ShiftY(b))
                          else Pixel(0, 0, 0, 0)
  }

  /** `out` shows the area of the source at its shifted place, and is clear elsewhere. */
  ghost predicate Shows(m: Image, a: Area, dx: int, dy: int, out: Image)
    requires Valid(m) && Valid(out) && 0 <= a.sx && 0 <= a.sy && a.ex <= m.width && a.ey <= m.height
  {
    forall x, y :: Inside(out, x, y) ==>
      At(out, x, y) == if a.sx <= x - dx < a.ex && a.sy <= y - dy < a.ey then At(m, x - dx, y - dy) else CLEAR
  }

  /** A clear picture of `full` by `full` pixels, with the area of the source copied to its shifted place. */
  function CopyArea(m: Image, a: Area, dx: int, dy: int, full: nat): (out: Image)
    requires Valid(m) && 0 <= a.sx && 0 <= a.sy && a.ex <= m.width && a.ey <= m.height
    ensures Valid(out) && out.width == out.height == full
    ensures Shows(m, a, dx, dy, out)
  {
    Image(full, full, seq(full, y requires 0 <= y < full => seq(full, x requires 0 <= x < full =>
      if a.sx <= x - dx < a.ex && a.sy <= y - dy < a.ey then m.rows[y - dy][x - dx] else CLEAR)))
  }

  method CropToMark(src: Image) returns (out: Image, ghost box: Box)
    requires Valid(src)
    ensures Blank(src) ==> out == src
    ensures !Blank(src) ==> Bounds(src, box) && Cropped(src, box, out)
  {
    var b := FindBounds(src);
    box := b;
    if b.x1 < 0 { return src, b; }
    out := CropTo(src, b);
  }

  /** The copy, once the box is known. */
  method CropTo(src: Image, b: Box) returns (out: Image)
    requires Valid(src) && b.x0 <= b.x1 && b.y0 <= b.y1
    ensures Cropped(src, b, out)
  {
    var side := Max(b.x1 - b.x0, b.y1 - b.y0) + 1;
    var margin := side / 10;
    var full := side + 2 * margin;
    var cx, cy := (b.x0 + b.x1) / 2, (b.y0 + b.y1) / 2;
    var dx, dy := full / 2 - cx, full / 2 - cy;
    var sx, sy := Max(0, -dx), Max(0, -dy);
    var ex, ey := Min(src.width, full - dx), Min(src.height, full - dy);
    var nothing, a := Area(0, 0, 0, 0), Area(sx, sy, ex, ey);
    assert full == Full(b) && dx == ShiftX(b) && dy == ShiftY(b) && a == Copied(src, b);
    out := CopyArea(src, nothing, dx, dy, full);
    if ex > sx && ey > sy {
      out := CopyArea(src, a, dx, dy, full);
    } else {
      NothingToShow(src, nothing, a, dx, dy, out);
    }
    IsCropped(src, b, out);
  }

  lemma NothingToShow(m: Image, nothing: Area, a: Area, dx: int, dy: int, out: Image)
    requires Valid(m) && Valid(out) && nothing == Area(0, 0, 0, 0)
    requires 0 <= a.sx && 0 <= a.sy && a.ex <= m.width && a.ey <= m.height && (a.ex <= a.sx || a.ey <= a.sy)
    ensures Shows(m, nothing, dx, dy, out) <==> Shows(m, a, dx, dy, out)
  {}

  lemma IsCropped(m: Image, b: Box, out: Image)
    requires Valid(m) && Valid(out) && out.width == out.height == Full(b)
    requires Shows(m, Copied(m, b), ShiftX(b), ShiftY(b), out)
    ensures Cropped(m, b, out)
  {
    forall x, y | Inside(out, x, y)
      ensures At(out, x, y) == if Inside(m, x - ShiftX(b), y - ShiftY(b)) then At(m, x - ShiftX(b), y - ShiftY(b)) else CLEAR
    {
      CopyStaysInside(m, b, x - ShiftX(b), y - ShiftY(b));
    }
  }

  // ---- what is kept -------------------------------------------------------------------------------

  /** One axis: the box's far end falls inside exactly when it is not the longest side of an even length
      under 10. */
  lemma AxisFits(lo: int, hi: int, side: int)
    requires 0 <= lo <= hi && hi - lo < side
    ensures var full := side + 2 * (side / 10);
            var shift := full / 2 - (lo + hi) / 2;
            && 0 <= lo + shift
            && (hi + shift < full <==> side >= 10 || side % 2 == 1 || hi - lo + 1 < side)
  {
    assert (lo + hi) / 2 == lo + (hi - lo) / 2;
    var full := side + 2 * (side / 10);
    assert full / 2 == side / 2 + side / 10;
  }

  ghost predicate Keeps(src: Image, b: Box, out: Image, x: int, y: int)
    requires Valid(src) && Valid(out) && Inside(src, x, y)
  {
    Inside(out, x + ShiftX(b), y + ShiftY(b)) && At(out, x + ShiftX(b), y + ShiftY(b)) == At(src, x, y)
  }

  /** The whole mark is kept exactly when the box's longer side is at least 10 pixels or odd; otherwise its
      last column or row is cut off. */
  lemma MarkKeptIff(src: Image, b: Box, out: Image)
    requires Valid(src) && Bounds(src, b) && Cropped(src, b, out)
    ensures (forall x, y :: Marked(src, x, y) ==> Keeps(src, b, out, x, y)) <==> Side(b) >= 10 || Side(b) % 2 == 1
  {
    var top :| Marked(src, top, b.y0);
    var left :| Marked(src, b.x0, left);
    AxisFits(b.x0, b.x1, Side(b));
    AxisFits(b.y0, b.y1, Side(b));
    if Side(b) >= 10 || Side(b) % 2 == 1 {
      forall x, y | Marked(src, x, y) ensures Keeps(src, b, out, x, y) { KeptInside(src, b, out, x, y); }
    } else if b.x1 - b.x0 + 1 == Side(b) {
      var y :| Marked(src, b.x1, y);
      assert !Keeps(src, b, out, b.x1, y);
    } else {
      var x :| Marked(src, x, b.y1);
      assert !Keeps(src, b, out, x, b.y1);
    }
  }

  lemma KeptInside(src: Image, b: Box, out: Image, x: int, y: int)
    requires Valid(src) && Cropped(src, b, out) && Inside(src, x, y)
    requires b.x0 <= x <= b.x1 && b.y0 <= y <= b.y1
    requires 0 <= b.x0 + ShiftX(b) && b.x1 + ShiftX(b) < Full(b) && 0 <= b.y0 + ShiftY(b) && b.y1 + ShiftY(b) < Full(b)
    ensures Keeps(src, b, out, x, y)
  {
    assert Inside(out, x + ShiftX(b), y + ShiftY(b));
  }

  /** A mark of two pixels side by side loses the right one. */
  lemma TwoPixelsLoseOne(src: Image, b: Box, out: Image)
    requires src == Image(2, 1, [[Pixel(0, 0, 0, 255), Pixel(0, 0, 0, 255)]]) && b == Box(0, 0, 1, 0)
    requires Cropped(src, b, out)
    ensures Bounds(src, b) && Marked(src, 1, 0) && Keeps(src, b, out, 0, 0) && !Keeps(src, b, out, 1, 0)
  {
    TwoPixelBox(src, b, Pixel(0, 0, 0, 255));
    LeftKept(src, b, out);
    RightLost(src, b, out);
  }

  lemma LeftKept(src: Image, b: Box, out: Image)
    requires Valid(src) && src.width == 2 && src.height == 1 && b == Box(0, 0, 1, 0) && Cropped(src, b, out)
    ensures Keeps(src, b, out, 0, 0)
  {
    TwoPixelShift(b);
    KeptAt(src, b, out, ShiftX(b), ShiftY(b));
  }

  lemma KeptAt(src: Image, b: Box, out: Image, dx: int, dy: int)
    requires Valid(src) && Cropped(src, b, out) && dx == ShiftX(b) && dy == ShiftY(b)
    requires Inside(src, 0, 0) && Inside(out, dx, dy)
    ensures Keeps(src, b, out, 0, 0)
  {
    assert At(out, dx, dy) == At(src, dx - ShiftX(b), dy - ShiftY(b));
  }

  lemma RightLost(src: Image, b: Box, out: Image)
    requires Valid(src) && src.width == 2 && src.height == 1 && b == Box(0, 0, 1, 0)
    requires Valid(out) && out.width == Full(b)
    ensures !Keeps(src, b, out, 1, 0)
  {
    TwoPixelShift(b);
  }

  lemma TwoPixelBox(src: Image, b: Box, ink: Pixel)
    requires src == Image(2, 1, [[ink, ink]]) && b == Box(0, 0, 1, 0) && ink.alpha == 255
    ensures Valid(src) && Bounds(src, b) && Marked(src, 1, 0)
  {
    assert Marked(src, 0, 0) && Marked(src, 1, 0);
  }

  lemma TwoPixelShift(b: Box)
    requires b == Box(0, 0, 1, 0)
    ensures ShiftX(b) == 1 && ShiftY(b) == 1 && Full(b) == 2
  {
    SmallSide(Side(b), Full(b));
    var sum := b.x0 + b.x1;
    assert sum / 2 == 0;
    assert ShiftX(b) == Full(b) / 2 - sum / 2;
  }

  lemma SmallSide(side: int, full: int)
    requires side == 2 && full == side + 2 * (side / 10)
    ensures full == 2
  {}

  /** A pixel belongs to the mark from an alpha of 9 on. */
  lemma MarkIsNotFaint(p: Pixel)
    ensures Marked(Image(1, 1, [[p]]), 0, 0) <==> p.alpha >= 9
  {}

  /** The picture is as wide and as high as the box's longer side and a whole margin on either side, the largest
      that is no more than a tenth of that side; and the box is in its middle, to half a pixel. */
  lemma MarkIsCentred(b: Box)
    requires b.x0 <= b.x1 && b.y0 <= b.y1
    ensures var width, height := b.x1 - b.x0 + 1, b.y1 - b.y0 + 1;
            var side := if width >= height then width else height;
            exists margin :: 10 * margin <= side < 10 * margin + 10 && Full(b) == side + 2 * margin
    ensures -1 <= 2 * ShiftX(b) + b.x0 + b.x1 - Full(b) <= 1
    ensures -1 <= 2 * ShiftY(b) + b.y0 + b.y1 - Full(b) <= 1
  {
    var margin := Side(b) / 10;
    assert 10 * margin <= Side(b) < 10 * margin + 10;
  }
}
