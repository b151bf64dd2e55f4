/** The square crop around a face: where the window is placed, and the padding
    that makes its pixels a square. */
module Crop {
  import opened Basics

  datatype Box = Box(x: real, y: real, width: real, height: real)

  function Min(a: real, b: real): real { if a <= b then a else b }

  function Max(a: real, b: real): real { if a >= b then a else b }

  // ---------------------------------------------------------------------
  // What the window should be
  // ---------------------------------------------------------------------

  // Along one axis, the padded box starts at Lead and is Extent long.
  function Lead(at: real, length: real, n: nat, padding: real): real {
    at * n as real - length * n as real * padding
  }

  function Extent(length: real, n: nat, padding: real): real {
    length * n as real + 2.0 * (length * n as real * padding)
  }

  function Middle(at: real, length: real, n: nat, padding: real): real {
    Lead(at, length, n, padding) + Extent(length, n, padding) / 2.0
  }

  // The side of the square: the longer padded side, but no more than fits.
  function Side(box: Box, imgW: nat, imgH: nat, padding: real): real {
    Min(Max(Extent(box.width, imgW, padding), Extent(box.height, imgH, padding)), Min(imgW as real, imgH as real))
  }

  // The centred window, clamped to [0, n - side].
  function Clamped(middle: real, side: real, n: nat): real {
    Max(0.0, Min(middle - side / 2.0, n as real - side))
  }

  // ---------------------------------------------------------------------
  // What the code does
  // ---------------------------------------------------------------------

  /** Padding, side and centre of the square. */
  method PlaceSquare(box: Box, imgW: nat, imgH: nat, padding: real)
    returns (centerX: real, centerY: real, squareSize: real)
    requires box.width >= 0.0 && box.height >= 0.0 && padding >= 0.0
    ensures centerX == Middle(box.x, box.width, imgW, padding)
    ensures centerY == Middle(box.y, box.height, imgH, padding)
    ensures squareSize == Side(box, imgW, imgH, padding)
    ensures 0.0 <= squareSize <= imgW as real && squareSize <= imgH as real
  {
    var w, h := imgW as real, imgH as real;
    var absX, absY := box.x * w, box.y * h;
    var absW, absH := box.width * w, box.height * h;
    var padX, padY := absW * padding, absH * padding;
    var paddedX, paddedY := absX - padX, absY - padY;
    var paddedW, paddedH := absW + 2.0 * padX, absH + 2.0 * padY;
    NonNegative(box.width, imgW, padding);
    NonNegative(box.height, imgH, padding);

    assert paddedX == Lead(box.x, box.width, imgW, padding) && paddedW == Extent(box.width, imgW, padding);
    assert paddedY == Lead(box.y, box.height, imgH, padding) && paddedH == Extent(box.height, imgH, padding);

    squareSize := Max(paddedW, paddedH);
    var maxPossibleSize := Min(w, h);
    squareSize := Min(squareSize, maxPossibleSize);

    centerX := paddedX + paddedW / 2.0;
    centerY := paddedY + paddedH / 2.0;
  }

  /** Four branches, one after the other, each shifting the window back over one edge. */
  method ShiftIntoImage(centerX: real, centerY: real, squareSize: real, imgW: nat, imgH: nat)
    returns (left: int, top: int, right: int, bottom: int)
    requires 0.0 <= squareSize <= imgW as real && squareSize <= imgH as real
    ensures var x, y := Clamped(centerX, squareSize, imgW), Clamped(centerY, squareSize, imgH);
            && left == x.Floor && right == (x + squareSize).Floor
            && top == y.Floor && bottom == (y + squareSize).Floor
  {
    var x1, y1 := centerX - squareSize / 2.0, centerY - squareSize / 2.0;
    var x2, y2 := centerX + squareSize / 2.0, centerY + squareSize / 2.0;
    var w, h := imgW as real, imgH as real;

    if x1 < 0.0 {
      var shift := -x1;
      x1 := 0.0;
      x2 := Min(w, x2 + shift);
    }
    if x2 > w {
      var shift := x2 - w;
      x2 := w;
      x1 := Max(0.0, x1 - shift);
    }

    if y1 < 0.0 {
      var shift := -y1;
      y1 := 0.0;
      y2 := Min(h, y2 + shift);
    }
    if y2 > h {
      var shift := y2 - h;
      y2 := h;
      y1 := Max(0.0, y1 - shift);
    }

    assert x1 == Clamped(centerX, squareSize, imgW) && x2 == x1 + squareSize;
    assert y1 == Clamped(centerY, squareSize, imgH) && y2 == y1 + squareSize;
    return Truncated(x1), Truncated(y1), Truncated(x2), Truncated(y2);
  }

  method CalculateSquareCropCoords(box: Box, imgW: nat, imgH: nat, padding: real)
    returns (left: int, top: int, right: int, bottom: int)
    requires box.width >= 0.0 && box.height >= 0.0 && padding >= 0.0
    ensures var side := Side(box, imgW, imgH, padding);
            var x := Clamped(Middle(box.x, box.width, imgW, padding), side, imgW);
            var y := Clamped(Middle(box.y, box.height, imgH, padding), side, imgH);
            && left == x.Floor && right == (x + side).Floor
            && top == y.Floor && bottom == (y + side).Floor
    ensures 0 <= left <= right <= imgW && 0 <= top <= bottom <= imgH
    ensures -1 <= (right - left) - (bottom - top) <= 1
  {
    var centerX, centerY, squareSize := PlaceSquare(box, imgW, imgH, padding);
    left, top, right, bottom := ShiftIntoImage(centerX, centerY, squareSize, imgW, imgH);
    FloorsInImage(centerX, squareSize, imgW);
    FloorsInImage(centerY, squareSize, imgH);
  }

  lemma FloorsInImage(middle: real, side: real, n: nat)
    requires 0.0 <= side <= n as real
    ensures var at := Clamped(middle, side, n);
            && 0 <= at.Floor <= (at + side).Floor <= n
            && side.Floor <= (at + side).Floor - at.Floor <= side.Floor + 1
  {
    TruncatedSides(Clamped(middle, side, n), side);
  }

  lemma NonNegative(length: real, n: nat, padding: real)
    requires length >= 0.0 && padding >= 0.0
    ensures length * n as real >= 0.0
    ensures length * n as real * padding >= 0.0
  {
    var pixels := length * n as real;
    assert pixels >= 0.0;
    assert pixels * padding >= 0.0;
  }

  /** After truncation a side has the floor or the ceiling of the exact side, so the two
      sides differ by at most one pixel. */
  lemma TruncatedSides(at: real, side: real)
    ensures var pixels := (at + side).Floor - at.Floor;
            side.Floor <= pixels <= side.Floor + 1 && (side == side.Floor as real ==> pixels == side.Floor)
  {
    if side == side.Floor as real {
      assert (at + side).Floor == at.Floor + side.Floor;
    }
  }

  /** The window keeps its side, lies in the image, and of all windows of that side that do
      is the one closest to being centred on the face. */
  lemma ClampedIsBestPlace(middle: real, side: real, n: nat, other: real)
    requires 0.0 <= side <= n as real
    requires 0.0 <= other && other + side <= n as real
    ensures var at := Clamped(middle, side, n);
            && 0.0 <= at && at + side <= n as real
            && Distance(at + side / 2.0, middle) <= Distance(other + side / 2.0, middle)
  {
  }

  function Distance(a: real, b: real): real { if a >= b then a - b else b - a }

  /** Padding surrounds the face evenly: the padded box contains the face, and the window is
      centred on the face itself. */
  lemma PaddingIsEven(at: real, length: real, n: nat, padding: real)
    requires length >= 0.0 && padding >= 0.0
    ensures var pixels := n as real;
            && Lead(at, length, n, padding) <= at * pixels
            && at * pixels + length * pixels <= Lead(at, length, n, padding) + Extent(length, n, padding)
            && Middle(at, length, n, padding) == at * pixels + length * pixels / 2.0
            && at * pixels - Lead(at, length, n, padding) == padding * (length * pixels)
            && Lead(at, length, n, padding) + Extent(length, n, padding) - (at * pixels + length * pixels)
               == padding * (length * pixels)
  {
    NonNegative(length, n, padding);
  }

  /** Unless the square had to be made smaller than the padded face, everything of the padded
      face that lies in the image lies in the window. */
  lemma NothingInImageIsCut(box: Box, imgW: nat, imgH: nat, padding: real, px: real, py: real)
    requires box.width >= 0.0 && box.height >= 0.0 && padding >= 0.0
    ensures var side := Side(box, imgW, imgH, padding);
            var x := Clamped(Middle(box.x, box.width, imgW, padding), side, imgW);
            var y := Clamped(Middle(box.y, box.height, imgH, padding), side, imgH);
            && Fits(box, imgW, imgH, padding)
            && 0.0 <= px <= imgW as real && 0.0 <= py <= imgH as real && InPaddedBox(box, imgW, imgH, padding, px, py)
            ==> x <= px <= x + side && y <= py <= y + side
  {
    if && Fits(box, imgW, imgH, padding)
       && 0.0 <= px <= imgW as real && 0.0 <= py <= imgH as real && InPaddedBox(box, imgW, imgH, padding, px, py) {
      var side := Side(box, imgW, imgH, padding);
      WindowCovers(Lead(box.x, box.width, imgW, padding), Extent(box.width, imgW, padding), side, imgW, px);
      WindowCovers(Lead(box.y, box.height, imgH, padding), Extent(box.height, imgH, padding), side, imgH, py);
    }
  }

  // Along one axis, a window of side t at x covers the padded box.
  predicate Covers(at: real, length: real, n: nat, padding: real, x: real, t: real) {
    x <= Lead(at, length, n, padding) && Lead(at, length, n, padding) + Extent(length, n, padding) <= x + t
  }

  /** The crop is as tight as it can be: no smaller square covers the padded face. */
  lemma NoSmallerSquareCovers(box: Box, imgW: nat, imgH: nat, padding: real, x: real, y: real, t: real)
    requires Covers(box.x, box.width, imgW, padding, x, t) && Covers(box.y, box.height, imgH, padding, y, t)
    ensures Side(box, imgW, imgH, padding) <= t
  {
  }

  /** And where the padded face does not fit, it is the largest square in the image. */
  lemma CappedIsLargest(box: Box, imgW: nat, imgH: nat, padding: real, x: real, y: real, t: real)
    requires !Fits(box, imgW, imgH, padding)
    requires 0.0 <= x && x + t <= imgW as real && 0.0 <= y && y + t <= imgH as real
    ensures t <= Side(box, imgW, imgH, padding)
  {
  }

  // The side need not be capped.
  predicate Fits(box: Box, imgW: nat, imgH: nat, padding: real) {
    Max(Extent(box.width, imgW, padding), Extent(box.height, imgH, padding)) <= Min(imgW as real, imgH as real)
  }

  predicate InPaddedBox(box: Box, imgW: nat, imgH: nat, padding: real, px: real, py: real) {
    && Lead(box.x, box.width, imgW, padding) <= px <= Lead(box.x, box.width, imgW, padding) + Extent(box.width, imgW, padding)
    && Lead(box.y, box.height, imgH, padding) <= py <= Lead(box.y, box.height, imgH, padding) + Extent(box.height, imgH, padding)
  }

  lemma WindowCovers(lead: real, extent: real, side: real, n: nat, p: real)
    requires extent <= side <= n as real
    requires 0.0 <= p <= n as real && lead <= p <= lead + extent
    ensures var at := Clamped(lead + extent / 2.0, side, n); at <= p <= at + side
  {
  }

  // ---------------------------------------------------------------------
  // Padding to a square
  // ---------------------------------------------------------------------

  datatype Pixel = Pixel(r: int, g: int, b: int)

  const BLACK := Pixel(0, 0, 0)

  // Where pixel (i, j) of the square comes from when the picture is pasted at (dy, dx).
  ghost function Pasted(img: array2<Pixel>, dy: int, dx: int, i: int, j: int): Pixel
    reads img
  {
    if dy <= i < dy + img.Length0 && dx <= j < dx + img.Length1 then img[i - dy, j - dx] else Pixel(0, 0, 0)
  }

  /** Pastes the picture into the middle of a black square; a square is returned as it is.
      Pictures are indexed by row and column. */
  method PadToSquare(img: array2<Pixel>) returns (square: array2<Pixel>)
    ensures square.Length0 == square.Length1 == (if img.Length0 >= img.Length1 then img.Length0 else img.Length1)
    ensures img.Length0 == img.Length1 ==> square == img
    ensures forall i, j | 0 <= i < square.Length0 && 0 <= j < square.Length1 ::
              square[i, j] == Pasted(img, (square.Length0 - img.Length0) / 2, (square.Length1 - img.Length1) / 2, i, j)
  {
    var height, width := img.Length0, img.Length1;
    if width == height {
      return img;
    }
    var size := if width >= height then width else height;
    var pasteX, pasteY := (size - width) / 2, (size - height) / 2;
    square := new Pixel[size, size]((i, j) reads img =>
      if pasteY <= i < pasteY + height && pasteX <= j < pasteX + width then img[i - pasteY, j - pasteX] else BLACK);
  }

  /** A crop is padded by at most one line of pixels, and never in front of the picture. */
  lemma CropNeedsOneLineAtMost(rows: nat, columns: nat)
    requires -1 <= columns - rows <= 1
    ensures var size := if columns >= rows then columns else rows;
            && (size - rows) + (size - columns) <= 1
            && (size - rows) / 2 == 0 && (size - columns) / 2 == 0
  {
  }
}
