/**
 * Drawing a line into a raster (utility/radar-viz/src/overlay.rs and the raster of
 * png_out.rs). Coordinates are integers without a width.
 */
module LineDrawing {
  import opened Bytes

  type Color = c: seq<byte> | |c| == 4 witness [0, 0, 0, 0]

  // ---------------------------------------------------------------- the raster

  /** The four bytes of pixel `(x, y)` in a row-major image of this width. */
  function At(px: seq<byte>, width: nat, x: nat, y: nat): seq<byte> {
    Four(px, y * width + x)
  }

  function Four(px: seq<byte>, p: nat): seq<byte> {
    if p * 4 + 4 <= |px| then px[p * 4..p * 4 + 4] else []
  }

  lemma InImage(width: nat, height: nat, x: nat, y: nat)
    requires x < width && y < height
    ensures (y * width + x) * 4 + 4 <= width * height * 4
  {
    MulMono(y + 1, height, width);
    assert (y + 1) * width == y * width + width;
  }

  lemma PixelsApart(width: nat, x: nat, y: nat, x': nat, y': nat)
    requires x < width && x' < width && (x, y) != (x', y')
    ensures y * width + x != y' * width + x'
  {
    MulMono(y + 1, y', width);
    MulMono(y' + 1, y, width);
    assert (y + 1) * width == y * width + width && (y' + 1) * width == y' * width + width;
  }

  /** `now` is `before` with these four bytes written at pixel number `p`. */
  ghost predicate Wrote(before: seq<byte>, now: seq<byte>, p: nat, color: Color) {
    && |now| == |before| && p * 4 + 4 <= |now|
    && forall i :: 0 <= i < |now| ==> now[i] == if p * 4 <= i < p * 4 + 4 then color[i - p * 4] else before[i]
  }

  lemma Overwritten(before: seq<byte>, now: seq<byte>, p: nat, q: nat, color: Color)
    requires Wrote(before, now, p, color)
    ensures Four(now, q) == if q == p then color else Four(before, q)
  {
  }

  lemma AllOneColor(width: nat, height: nat, px: seq<byte>, color: Color)
    requires |px| == width * height * 4
    requires forall i :: 0 <= i < |px| ==> px[i] == color[i % 4]
    ensures forall x: nat, y: nat :: x < width && y < height ==> At(px, width, x, y) == color
  {
    hide Four;
    forall x: nat, y: nat | x < width && y < height
      ensures At(px, width, x, y) == color
    {
      InImage(width, height, x, y);
      OneColor(px, y * width + x, color);
    }
  }

  lemma OneColor(px: seq<byte>, p: nat, color: Color)
    requires p * 4 + 4 <= |px|
    requires forall i :: 0 <= i < |px| ==> px[i] == color[i % 4]
    ensures Four(px, p) == color
  {
    assert forall i :: 0 <= i < 4 ==> (p * 4 + i) % 4 == i && px[p * 4 + i] == color[i];
  }

  class Raster {
    const width: nat
    const height: nat
    const px: array<byte>

    constructor (width: nat, height: nat, color: Color)
      ensures Valid() && fresh(px)
      ensures this.width == width && this.height == height
      ensures forall x: nat, y: nat :: x < width && y < height ==> Pixel(x, y) == color
    {
      this.width := width;
      this.height := height;
      var fill := new byte[width * height * 4](i => color[i % 4]);
      this.px := fill;
      new;
      AllOneColor(width, height, px[..], color);
    }

    ghost predicate Valid() {
      px.Length == width * height * 4
    }

    ghost function Pixel(x: nat, y: nat): seq<byte>
      requires Valid() && x < width && y < height
      reads px
    {
      InImage(width, height, x, y);
      At(px[..], width, x, y)
    }

    method PutPixel(x: nat, y: nat, color: Color)
      requires Valid() && x < width && y < height
      modifies px
      ensures forall x': nat, y': nat :: x' < width && y' < height ==>
                Pixel(x', y') == if (x', y') == (x, y) then color else old(Pixel(x', y'))
    {
      InImage(width, height, x, y);
      var at := (y * width + x) * 4;
      ghost var before := px[..];
      px[at], px[at + 1], px[at + 2], px[at + 3] := color[0], color[1], color[2], color[3];
      Repainted(width, height, before, px[..], x, y, color);
    }
  }

  lemma Repainted(width: nat, height: nat, before: seq<byte>, now: seq<byte>, x: nat, y: nat, color: Color)
    requires |now| == |before| == width * height * 4 && x < width && y < height
    requires Wrote(before, now, y * width + x, color)
    ensures forall x': nat, y': nat :: x' < width && y' < height ==>
              At(now, width, x', y') == if (x', y') == (x, y) then color else At(before, width, x', y')
  {
    hide Wrote, At;
    forall x': nat, y': nat | x' < width && y' < height
      ensures At(now, width, x', y') == if (x', y') == (x, y) then color else At(before, width, x', y')
    {
      RepaintedAt(width, height, before, now, x, y, x', y', color);
    }
  }

  lemma RepaintedAt(width: nat, height: nat, before: seq<byte>, now: seq<byte>, x: nat, y: nat, x': nat, y': nat,
                    color: Color)
    requires |before| == width * height * 4 && x < width && y < height && x' < width && y' < height
    requires Wrote(before, now, y * width + x, color)
    ensures At(now, width, x', y') == if (x', y') == (x, y) then color else At(before, width, x', y')
  {
    hide Wrote, Four;
    if (x', y') != (x, y) {
      PixelsApart(width, x, y, x', y');
    }
    Overwritten(before, now, y * width + x, y' * width + x', color);
  }

  // ---------------------------------------------------------------- the ideal line

  function Abs(a: int): nat {
    if a < 0 then -a else a
  }

  function Max(a: nat, b: nat): nat {
    if a < b then b else a
  }

  function Toward(a: int, b: int): int {
    if a < b then 1 else -1
  }

  /** `k * minor / major` rounded to the nearest integer, halves down. */
  function Nearest(k: nat, major: nat, minor: nat): nat
    requires minor <= major
  {
    if major == 0 then 0 else (2 * (k * minor) + major - 1) / (2 * major)
  }

  /** The k-th pixel of the segment, counted along its longer side. */
  function Nth(x0: int, y0: int, x1: int, y1: int, k: nat): (int, int) {
    var dx, dy := Abs(x1 - x0), Abs(y1 - y0);
    if dx >= dy then (x0 + Toward(x0, x1) * k, y0 + Toward(y0, y1) * Nearest(k, dx, dy))
    else (x0 + Toward(x0, x1) * Nearest(k, dy, dx), y0 + Toward(y0, y1) * k)
  }

  function Steps(x0: int, y0: int, x1: int, y1: int): nat {
    Max(Abs(x1 - x0), Abs(y1 - y0))
  }

  ghost predicate OnSegment(x0: int, y0: int, x1: int, y1: int, x: int, y: int) {
    exists k: nat :: k <= Steps(x0, y0, x1, y1) && Nth(x0, y0, x1, y1, k) == (x, y)
  }

  /** `j` is within half a pixel of `k * minor / major`, and not exactly half below it twice. */
  predicate Close(j: int, k: nat, major: nat, minor: nat) {
    2 * (k * minor) - major <= 2 * (j * major) < 2 * (k * minor) + major
  }

  lemma NearestIsClose(k: nat, major: nat, minor: nat)
    requires 0 < major && minor <= major
    ensures Close(Nearest(k, major, minor), k, major, minor)
  {
    var n, m := 2 * (k * minor) + major - 1, 2 * major;
    DivMod(n, m);
    var j := n / m;
    assert j * m == 2 * (j * major);
  }

  lemma CloseIsUnique(i: int, j: int, k: nat, major: nat, minor: nat)
    requires 0 < major && Close(i, k, major, minor) && Close(j, k, major, minor)
    ensures i == j
  {
    if i < j {
      assert (i + 1) * major == i * major + major;
      Grows(i + 1, j, major);
    } else if j < i {
      assert (j + 1) * major == j * major + major;
      Grows(j + 1, i, major);
    }
  }

  lemma Grows(a: int, b: int, c: nat)
    ensures a <= b ==> a * c <= b * c
  {
  }

  /** Where the segment's own end falls, and that it never leaves the range on the way. */
  lemma NearestInRange(k: nat, major: nat, minor: nat)
    requires minor <= major && k <= major
    ensures Nearest(k, major, minor) <= minor
    ensures k == major ==> Nearest(k, major, minor) == minor
    ensures k == 0 ==> Nearest(k, major, minor) == 0
  {
    if major > 0 {
      var j := Nearest(k, major, minor);
      NearestIsClose(k, major, minor);
      Grows(k, major, minor);
      Grows(minor + 1, j, major);
      assert (minor + 1) * major == minor * major + major;
      if k == major {
        assert Close(minor, k, major, minor);
        CloseIsUnique(j, minor, k, major, minor);
      }
      if k == 0 {
        assert Close(0, 0, major, minor);
        CloseIsUnique(j, 0, 0, major, minor);
      }
    }
  }

  // ---------------------------------------------------------------- what the drawn pixels are

  /** Every pixel is within half a pixel of the ideal line on the shorter side. */
  lemma WithinHalfAPixel(x0: int, y0: int, x1: int, y1: int, k: nat)
    requires k <= Steps(x0, y0, x1, y1)
    ensures var (x, y) := Nth(x0, y0, x1, y1, k);
            var dx, dy := Abs(x1 - x0), Abs(y1 - y0);
            if dx >= dy then Abs(x - x0) == k && 2 * Abs(Abs(y - y0) * dx - k * dy) <= dx
            else Abs(y - y0) == k && 2 * Abs(Abs(x - x0) * dy - k * dx) <= dy
  {
    var dx, dy := Abs(x1 - x0), Abs(y1 - y0);
    if dx >= dy && dx > 0 {
      NearestIsClose(k, dx, dy);
    } else if dx < dy {
      NearestIsClose(k, dy, dx);
    }
  }

  predicate InBox(x0: int, y0: int, x1: int, y1: int, x: int, y: int) {
    (x0 <= x <= x1 || x1 <= x <= x0) && (y0 <= y <= y1 || y1 <= y <= y0)
  }

  /** The pixels start at one end, stop at the other, and stay in the segment's bounding box. */
  lemma FromEndToEnd(x0: int, y0: int, x1: int, y1: int, k: nat)
    requires k <= Steps(x0, y0, x1, y1)
    ensures Nth(x0, y0, x1, y1, 0) == (x0, y0)
    ensures Nth(x0, y0, x1, y1, Steps(x0, y0, x1, y1)) == (x1, y1)
    ensures var (x, y) := Nth(x0, y0, x1, y1, k); InBox(x0, y0, x1, y1, x, y)
    ensures k < Steps(x0, y0, x1, y1) ==> Nth(x0, y0, x1, y1, k) != (x1, y1)
  {
    hide Nearest;
    var dx, dy := Abs(x1 - x0), Abs(y1 - y0);
    var n := Steps(x0, y0, x1, y1);
    if dx >= dy {
      NearestInRange(0, dx, dy);
      NearestInRange(k, dx, dy);
      NearestInRange(n, dx, dy);
    } else {
      NearestInRange(0, dy, dx);
      NearestInRange(k, dy, dx);
      NearestInRange(n, dy, dx);
    }
  }

  // ---------------------------------------------------------------- the loop

  /** `i` steps in x and `j` in y, taken in `k` turns, and the error term they leave. */
  predicate Turned(dx: nat, dy: nat, k: nat, i: nat, j: nat, err: int) {
    && err == dx - dy - i * dy + j * dx
    && (if dx >= dy then i == k && j == Nearest(k, dx, dy) else j == k && i == Nearest(k, dy, dx))
  }

  lemma Start(dx: nat, dy: nat)
    ensures Turned(dx, dy, 0, 0, 0, dx - dy)
  {
    if dx >= dy {
      NearestInRange(0, dx, dy);
    } else {
      NearestInRange(0, dy, dx);
    }
  }

  /** The nearer of two neighbours stays the nearest one step on. */
  lemma NextClose(j: nat, k: nat, major: nat, minor: nat)
    requires 0 < major && minor <= major && Close(j, k, major, minor)
    ensures Close(if 2 * (k * minor) + 2 * minor > 2 * (j * major) + major then j + 1 else j, k + 1, major, minor)
  {
    assert (k + 1) * minor == k * minor + minor;
    assert (j + 1) * major == j * major + major;
  }

  lemma CloseToItself(k: nat, major: nat)
    requires 0 < major
    ensures Close(k, k, major, major)
  {
  }

  /** One side always advances; the other does when that brings it nearer to the line. */
  lemma NextNearest(k: nat, major: nat, minor: nat)
    requires 0 < major && minor <= major
    ensures var j := Nearest(k, major, minor);
            Nearest(k + 1, major, minor)
            == if 2 * (k * minor) + 2 * minor > 2 * (j * major) + major then j + 1 else j
    ensures minor == major ==> Nearest(k, major, minor) == k
  {
    hide Nearest, Close;
    var j := Nearest(k, major, minor);
    NearestIsClose(k, major, minor);
    NearestIsClose(k + 1, major, minor);
    NextClose(j, k, major, minor);
    CloseIsUnique(Nearest(k + 1, major, minor),
                  if 2 * (k * minor) + 2 * minor > 2 * (j * major) + major then j + 1 else j, k + 1, major, minor);
    if minor == major {
      CloseToItself(k, major);
      CloseIsUnique(j, k, k, major, minor);
    }
  }

  lemma TurnWide(dx: nat, dy: nat, k: nat, j: nat, err: int)
    requires dy <= dx && 0 < dx && j == Nearest(k, dx, dy)
    requires err == dx - dy - k * dy + j * dx
    ensures 2 * err > -(dy as int)
    ensures Nearest(k + 1, dx, dy) == if 2 * err < dx then j + 1 else j
  {
    NextNearest(k, dx, dy);
    NearestIsClose(k, dx, dy);
    hide Nearest;
  }

  lemma TurnTall(dx: nat, dy: nat, k: nat, i: nat, err: int)
    requires dx < dy && i == Nearest(k, dy, dx)
    requires err == dx - dy - i * dy + k * dx
    ensures 2 * err < dx
    ensures Nearest(k + 1, dy, dx) == if 2 * err > -(dy as int) then i + 1 else i
  {
    NextNearest(k, dy, dx);
    NearestIsClose(k, dy, dx);
    hide Nearest;
  }

  lemma Turn(dx: nat, dy: nat, k: nat, i: nat, j: nat, err: int)
    requires Turned(dx, dy, k, i, j, err) && k < Max(dx, dy)
    ensures var stepX, stepY := 2 * err > -(dy as int), 2 * err < dx;
            Turned(dx, dy, k + 1, if stepX then i + 1 else i, if stepY then j + 1 else j,
                   err - (if stepX then dy else 0) + (if stepY then dx else 0))
  {
    hide Nearest;
    OneMore(i, dy);
    OneMore(j, dx);
    if dx >= dy {
      TurnWide(dx, dy, k, j, err);
    } else {
      TurnTall(dx, dy, k, i, err);
    }
  }

  lemma OneMore(i: nat, d: nat)
    ensures (i + 1) * d == i * d + d
  {
  }

  /** `(x, y)` is among the first `k` pixels. */
  ghost predicate Reached(x0: int, y0: int, x1: int, y1: int, k: nat, x: int, y: int) {
    exists i: nat :: i < k && Nth(x0, y0, x1, y1, i) == (x, y)
  }

  lemma ReachedNext(x0: int, y0: int, x1: int, y1: int, k: nat)
    ensures forall x, y :: Reached(x0, y0, x1, y1, k + 1, x, y) <==>
              Reached(x0, y0, x1, y1, k, x, y) || Nth(x0, y0, x1, y1, k) == (x, y)
  {
    hide Nth;
    forall x, y
      ensures Reached(x0, y0, x1, y1, k + 1, x, y) <==>
                Reached(x0, y0, x1, y1, k, x, y) || Nth(x0, y0, x1, y1, k) == (x, y)
    {
      if Reached(x0, y0, x1, y1, k, x, y) {
        var i: nat :| i < k && Nth(x0, y0, x1, y1, i) == (x, y);
        assert i < k + 1;
      }
    }
  }

  lemma AllReached(x0: int, y0: int, x1: int, y1: int)
    ensures forall x, y :: Reached(x0, y0, x1, y1, Steps(x0, y0, x1, y1) + 1, x, y) <==>
              OnSegment(x0, y0, x1, y1, x, y)
  {
    hide Nth;
    var n := Steps(x0, y0, x1, y1);
    forall x, y
      ensures Reached(x0, y0, x1, y1, n + 1, x, y) <==> OnSegment(x0, y0, x1, y1, x, y)
    {
      if OnSegment(x0, y0, x1, y1, x, y) {
        var i: nat :| i <= n && Nth(x0, y0, x1, y1, i) == (x, y);
        assert i < n + 1;
      }
    }
  }

  /** A segment beyond one edge of the square has no pixel in it. */
  lemma Rejected(x0: int, y0: int, x1: int, y1: int, size: nat, x: nat, y: nat)
    requires (x0 < 0 && x1 < 0) || (x0 >= size && x1 >= size) || (y0 < 0 && y1 < 0) || (y0 >= size && y1 >= size)
    requires x < size && y < size
    ensures !OnSegment(x0, y0, x1, y1, x, y)
  {
    forall k: nat | k <= Steps(x0, y0, x1, y1)
      ensures Nth(x0, y0, x1, y1, k) != (x as int, y as int)
    {
      FromEndToEnd(x0, y0, x1, y1, k);
    }
  }

  /** The image is `before` with the first `k` pixels of the segment painted, as far as they are in the square. */
  ghost predicate Painted(width: nat, height: nat, before: seq<byte>, now: seq<byte>, size: nat, color: Color,
                          x0: int, y0: int, x1: int, y1: int, k: nat) {
    && |now| == |before| == width * height * 4
    && forall x: nat, y: nat :: x < width && y < height ==>
         At(now, width, x, y) ==
              if x < size && y < size && Reached(x0, y0, x1, y1, k, x, y) then color else At(before, width, x, y)
  }

  lemma PaintedPut(width: nat, height: nat, before: seq<byte>, mid: seq<byte>, now: seq<byte>, size: nat, color: Color,
                   x0: int, y0: int, x1: int, y1: int, k: nat, x: int, y: int)
    requires Painted(width, height, before, mid, size, color, x0, y0, x1, y1, k)
    requires Nth(x0, y0, x1, y1, k) == (x, y)
    requires |now| == |mid|
    requires forall x': nat, y': nat :: x' < width && y' < height ==>
               At(now, width, x', y') ==
                    if x' < size && y' < size && (x', y') == (x, y) then color else At(mid, width, x', y')
    ensures Painted(width, height, before, now, size, color, x0, y0, x1, y1, k + 1)
  {
    hide Nth, At, Reached;
    ReachedNext(x0, y0, x1, y1, k);
  }

  /** Paints the next pixel of the walk, if it is in the square. */
  method PaintNext(img: Raster, ghost before: seq<byte>, size: nat, color: Color,
                   ghost x0: int, ghost y0: int, ghost x1: int, ghost y1: int, ghost k: nat, x: int, y: int)
    requires img.Valid() && size <= img.width && size <= img.height
    requires Painted(img.width, img.height, before, img.px[..], size, color, x0, y0, x1, y1, k)
    requires Nth(x0, y0, x1, y1, k) == (x, y)
    modifies img.px
    ensures Painted(img.width, img.height, before, img.px[..], size, color, x0, y0, x1, y1, k + 1)
  {
    hide Nth, At, Reached, Painted;
    ghost var mid := img.px[..];
    if 0 <= x < size && 0 <= y < size {
      img.PutPixel(x, y, color);
    }
    PaintedPut(img.width, img.height, before, mid, img.px[..], size, color, x0, y0, x1, y1, k, x, y);
  }

  lemma NothingPainted(width: nat, height: nat, px: seq<byte>, size: nat, color: Color, x0: int, y0: int, x1: int,
                       y1: int)
    requires |px| == width * height * 4
    ensures Painted(width, height, px, px, size, color, x0, y0, x1, y1, 0)
  {
  }

  lemma AllPainted(width: nat, height: nat, before: seq<byte>, now: seq<byte>, size: nat, color: Color,
                   x0: int, y0: int, x1: int, y1: int)
    requires Painted(width, height, before, now, size, color, x0, y0, x1, y1, Steps(x0, y0, x1, y1) + 1)
    ensures forall x: nat, y: nat :: x < width && y < height ==>
              At(now, width, x, y) ==
                   if x < size && y < size && OnSegment(x0, y0, x1, y1, x, y) then color else At(before, width, x, y)
  {
    hide Nth, At;
    AllReached(x0, y0, x1, y1);
  }

  /**
   * Draws the segment, clipped to the square of this size. Also for a segment rejected
   * at once, the image afterwards is the one the clipped walk over all pixels leaves.
   */
  method DrawLine(img: Raster, x0: int, y0: int, x1: int, y1: int, size: nat, color: Color)
    returns (ghost turns: nat)
    requires img.Valid() && size <= img.width && size <= img.height
    modifies img.px
    ensures forall x: nat, y: nat :: x < img.width && y < img.height ==>
              img.Pixel(x, y) ==
                if x < size && y < size && OnSegment(x0, y0, x1, y1, x, y) then color else old(img.Pixel(x, y))
    ensures turns == 0 || turns == Steps(x0, y0, x1, y1) + 1
  {
    if (x0 < 0 && x1 < 0) || (x0 >= size && x1 >= size) || (y0 < 0 && y1 < 0) || (y0 >= size && y1 >= size) {
      forall x: nat, y: nat | x < size && y < size
        ensures !OnSegment(x0, y0, x1, y1, x, y)
      {
        Rejected(x0, y0, x1, y1, size, x, y);
      }
      return 0;
    }
    turns := Walk(img, x0, y0, x1, y1, size, color);
  }

  /** The walk itself: one turn per pixel, along the longer side. */
  method Walk(img: Raster, x0: int, y0: int, x1: int, y1: int, size: nat, color: Color) returns (ghost turns: nat)
    requires img.Valid() && size <= img.width && size <= img.height
    modifies img.px
    ensures forall x: nat, y: nat :: x < img.width && y < img.height ==>
              img.Pixel(x, y) ==
                if x < size && y < size && OnSegment(x0, y0, x1, y1, x, y) then color else old(img.Pixel(x, y))
    ensures turns == Steps(x0, y0, x1, y1) + 1
  {
    hide Painted, Nearest;
    var x, y := x0, y0;
    var dx, dy := Abs(x1 - x0), Abs(y1 - y0);
    var sx, sy := Toward(x0, x1), Toward(y0, y1);
    var err: int := dx as int - dy as int;
    ghost var before := img.px[..];
    ghost var k, i, j: nat := 0, 0, 0;
    ghost var n := Steps(x0, y0, x1, y1);
    Start(dx, dy);
    NothingPainted(img.width, img.height, before, size, color, x0, y0, x1, y1);
    while true
      invariant k <= n && Turned(dx, dy, k, i, j, err)
      invariant x == x0 + sx * i && y == y0 + sy * j
      invariant Painted(img.width, img.height, before, img.px[..], size, color, x0, y0, x1, y1, k)
      decreases n - k
    {
      assert (x, y) == Nth(x0, y0, x1, y1, k);
      FromEndToEnd(x0, y0, x1, y1, k);
      PaintNext(img, before, size, color, x0, y0, x1, y1, k, x, y);
      if x == x1 && y == y1 {
        AllPainted(img.width, img.height, before, img.px[..], size, color, x0, y0, x1, y1);
        return k + 1;
      }
      Turn(dx, dy, k, i, j, err);
      var e2 := 2 * err;
      if e2 > -(dy as int) {
        err := err - dy;
        x := x + sx;
        i := i + 1;
      }
      if e2 < dx {
        err := err + dx;
        y := y + sy;
        j := j + 1;
      }
      k := k + 1;
    }
  }
}
