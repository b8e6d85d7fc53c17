/** The integer geometry of the scripts: cutting a sheet into a grid of cards, the face rectangle
    of a card, the fixed page margins of the bulk script, the upscale rule applied before OCR,
    and the file names given to the cut cards. Pixel work itself (decoding, resampling,
    enhancing, encoding) is not modelled; only the boxes and sizes handed to it are. */
module Geometry {
  import opened Text

  /** A PIL crop box `(left, top, right, bottom)`; the right and bottom edges are exclusive. */
  datatype Box = Box(left: int, top: int, right: int, bottom: int)

  predicate Inside(b: Box, w: int, h: int) {
    0 <= b.left <= b.right <= w && 0 <= b.top <= b.bottom <= h
  }

  predicate HasPixel(b: Box, x: int, y: int) {
    b.left <= x < b.right && b.top <= y < b.bottom
  }

  /** No pixel lies in both boxes. */
  predicate Disjoint(a: Box, b: Box) {
    a.right <= b.left || b.right <= a.left || a.bottom <= b.top || b.bottom <= a.top
  }

  // ---------------------------------------------------------------- arithmetic helpers

  lemma MulLe(a: int, b: int, c: int)
    requires c >= 0
    ensures a <= b ==> a * c <= b * c
  {
  }

  /** Cell `i` of `n` cells of `size` lies within a span of `total` holding all `n` cells. */
  lemma CellWithin(i: nat, n: nat, size: nat, total: nat)
    requires i < n && n * size <= total
    ensures 0 <= i * size <= (i + 1) * size <= total
    ensures (i + 1) * size - i * size == size
  {
    MulLe(i + 1, n, size);
  }

  /** `r * n + c` splits back into `r` and `c`. */
  lemma DivModOf(r: nat, c: nat, n: nat)
    requires c < n
    ensures (r * n + c) / n == r && (r * n + c) % n == c
  {
    var k := r * n + c;
    var q, m := k / n, k % n;
    assert q * n + m == r * n + c;
    MulLe(q + 1, r, n);
    MulLe(r + 1, q, n);
  }

  /** The whole cells of a size split `n` ways fit in the size, and less than `n` is left over. */
  lemma CellsFit(size: nat, n: nat)
    requires n > 0
    ensures n * (size / n) <= size && size - n * (size / n) < n
  {
  }

  // ---------------------------------------------------------------- the grid of cards

  /** Box `k` of the grid, counted row by row: row `k / cols`, column `k % cols`, each cell
      `w // cols` wide and `h // rows` high. */
  function GridBox(w: nat, h: nat, cols: nat, rows: nat, k: nat): Box
    requires cols > 0 && rows > 0
  {
    CellBox(k % cols, k / cols, w / cols, h / rows)
  }

  /** The cell in column `c` and row `r` of cells `cw` wide and `rh` high. */
  function CellBox(c: nat, r: nat, cw: nat, rh: nat): Box {
    Box(c * cw, r * rh, (c + 1) * cw, (r + 1) * rh)
  }

  /** The nested `for r in range(rows): for c in range(cols)` loops appending one box per cell. */
  method CropGrid(w: nat, h: nat, cols: nat, rows: nat) returns (boxes: seq<Box>)
    requires cols > 0 && rows > 0
    ensures |boxes| == rows * cols
    ensures forall k :: 0 <= k < |boxes| ==> boxes[k] == GridBox(w, h, cols, rows, k)
  {
    var cw, rh := w / cols, h / rows;
    boxes := [];
    var r := 0;
    while r < rows
      invariant r <= rows && |boxes| == r * cols
      invariant forall k :: 0 <= k < |boxes| ==> boxes[k] == GridBox(w, h, cols, rows, k)
    {
      var c := 0;
      while c < cols
        invariant c <= cols && |boxes| == r * cols + c
        invariant forall k :: 0 <= k < |boxes| ==> boxes[k] == GridBox(w, h, cols, rows, k)
      {
        DivModOf(r, c, cols);
        boxes := boxes + [Box(c * cw, r * rh, (c + 1) * cw, (r + 1) * rh)];
        c := c + 1;
      }
      r := r + 1;
    }
  }

  lemma GridCell(cols: nat, rows: nat, k: nat)
    requires cols > 0 && k < rows * cols
    ensures k / cols < rows && k % cols < cols
  {
    MulLe(rows, k / cols, cols);
  }

  /** Every box lies in the sheet and has the cell size. */
  lemma GridInside(w: nat, h: nat, cols: nat, rows: nat, k: nat)
    requires cols > 0 && rows > 0 && k < rows * cols
    ensures Inside(GridBox(w, h, cols, rows, k), w, h)
    ensures GridBox(w, h, cols, rows, k).right - GridBox(w, h, cols, rows, k).left == w / cols
    ensures GridBox(w, h, cols, rows, k).bottom - GridBox(w, h, cols, rows, k).top == h / rows
  {
    GridCell(cols, rows, k);
    CellsFit(w, cols);
    CellsFit(h, rows);
    BoxInside(k % cols, k / cols, cols, rows, w / cols, h / rows, w, h);
  }

  /** The cell in column `c` and row `r` of cells `cw` by `rh` lies in a sheet holding all of
      them, and has the cell size. */
  lemma BoxInside(c: nat, r: nat, cols: nat, rows: nat, cw: nat, rh: nat, w: nat, h: nat)
    requires c < cols && r < rows && cols * cw <= w && rows * rh <= h
    ensures Inside(Box(c * cw, r * rh, (c + 1) * cw, (r + 1) * rh), w, h)
    ensures (c + 1) * cw - c * cw == cw && (r + 1) * rh - r * rh == rh
  {
    CellWithin(c, cols, cw, w);
    CellWithin(r, rows, rh, h);
  }

  /** Two different boxes of the grid share no pixel. */
  lemma GridDisjoint(w: nat, h: nat, cols: nat, rows: nat, k1: nat, k2: nat)
    requires cols > 0 && rows > 0 && k1 < rows * cols && k2 < rows * cols && k1 != k2
    ensures Disjoint(GridBox(w, h, cols, rows, k1), GridBox(w, h, cols, rows, k2))
  {
    IndexCellsDisjoint(k1, k2, cols, w / cols, h / rows);
  }

  /** The cells of two different indices share no pixel. */
  lemma IndexCellsDisjoint(k1: nat, k2: nat, cols: nat, cw: nat, rh: nat)
    requires cols > 0 && k1 != k2
    ensures Disjoint(CellBox(k1 % cols, k1 / cols, cw, rh), CellBox(k2 % cols, k2 / cols, cw, rh))
  {
    SplitDiffers(k1, k2, cols);
    CellsDisjoint(k1 / cols, k1 % cols, k2 / cols, k2 % cols, cw, rh);
  }

  /** Different indices differ in their row or in their column. */
  lemma SplitDiffers(k1: nat, k2: nat, n: nat)
    requires n > 0 && k1 != k2
    ensures k1 / n != k2 / n || k1 % n != k2 % n
  {
  }

  /** The cells at two different (row, column) places share no pixel. */
  lemma CellsDisjoint(r1: nat, c1: nat, r2: nat, c2: nat, cw: nat, rh: nat)
    requires r1 != r2 || c1 != c2
    ensures Disjoint(CellBox(c1, r1, cw, rh), CellBox(c2, r2, cw, rh))
  {
    if r1 < r2 {
      MulLe(r1 + 1, r2, rh);
    } else if r2 < r1 {
      MulLe(r2 + 1, r1, rh);
    } else if c1 < c2 {
      MulLe(c1 + 1, c2, cw);
    } else {
      MulLe(c2 + 1, c1, cw);
    }
  }

  /** What the grid drops: a right strip narrower than `cols` pixels and a bottom strip lower
      than `rows` pixels. */
  lemma GridSlack(w: nat, h: nat, cols: nat, rows: nat)
    requires cols > 0 && rows > 0
    ensures 0 <= w - cols * (w / cols) < cols && 0 <= h - rows * (h / rows) < rows
  {
    CellsFit(w, cols);
    CellsFit(h, rows);
  }

  /** Every pixel of the sheet outside that slack lies in a box of the grid: the one in the
      pixel's row and column of cells. */
  lemma GridCovers(w: nat, h: nat, cols: nat, rows: nat, x: nat, y: nat)
    requires cols > 0 && rows > 0
    requires x < cols * (w / cols) && y < rows * (h / rows)
    ensures var k := CellOf(y, h / rows, rows) * cols + CellOf(x, w / cols, cols);
      k < rows * cols && HasPixel(GridBox(w, h, cols, rows, k), x, y)
  {
    var cw, rh := w / cols, h / rows;
    var c := CellOf(x, cw, cols);
    var r := CellOf(y, rh, rows);
    CoverAt(cols, rows, cw, rh, r, c, x, y);
    GridBoxAt(w, h, cols, rows, r, c);
  }

  lemma CoverAt(cols: nat, rows: nat, cw: nat, rh: nat, r: nat, c: nat, x: nat, y: nat)
    requires c < cols && r < rows
    requires c * cw <= x < (c + 1) * cw && r * rh <= y < (r + 1) * rh
    ensures r * cols + c < rows * cols
    ensures HasPixel(CellBox(c, r, cw, rh), x, y)
  {
    CellWithin(r, rows, cols, rows * cols);
  }

  lemma GridBoxAt(w: nat, h: nat, cols: nat, rows: nat, r: nat, c: nat)
    requires cols > 0 && rows > 0 && c < cols
    ensures GridBox(w, h, cols, rows, r * cols + c) == CellBox(c, r, w / cols, h / rows)
  {
    DivModOf(r, c, cols);
  }

  /** The cell of size `size` that holds coordinate `x`, when `x` is below `n` cells. */
  function CellOf(x: nat, size: nat, n: nat): (i: nat)
    requires x < n * size
    ensures size > 0 && i == x / size && i < n
    ensures i * size <= x < (i + 1) * size
  {
    MulLe(size, 0, n);
    MulLe(n, x / size, size);
    x / size
  }

  // ---------------------------------------------------------------- card file names

  function DigitChar(n: nat): char
    requires n < 10
  {
    ('0' as int + n) as char
  }

  /** `str(n)` */
  function Decimal(n: nat): (s: string)
    ensures |s| >= 1 && All(s, IsAsciiDigit)
  {
    if n < 10 then [DigitChar(n)] else Decimal(n / 10) + [DigitChar(n % 10)]
  }

  /** `f"{n:02d}"` */
  function Pad2(n: nat): string {
    var d := Decimal(n);
    if |d| < 2 then "0" + d else d
  }

  lemma Pad2Small(n: nat)
    requires n < 100
    ensures Pad2(n) == [DigitChar(n / 10), DigitChar(n % 10)]
  {
    if n >= 10 {
      assert Decimal(n / 10) == [DigitChar(n / 10)];
    }
  }

  /** `f"{prefix}card_{r:02d}_{c:02d}.png"`, with 1-based row and column. */
  function CardName(prefix: string, r: nat, c: nat): string {
    prefix + ("card_" + Pad2(r) + "_" + Pad2(c) + ".png")
  }

  /** One cut card: its box and the file it is saved to. */
  datatype Cut = Cut(box: Box, name: string)

  /** Card `k` of a named grid. */
  function GridCut(prefix: string, w: nat, h: nat, cols: nat, rows: nat, k: nat): Cut
    requires cols > 0 && rows > 0
  {
    Cut(GridBox(w, h, cols, rows, k), GridName(prefix, cols, k))
  }

  /** The file name of card `k` of a grid `cols` wide. */
  function GridName(prefix: string, cols: nat, k: nat): string
    requires cols > 0
  {
    CardName(prefix, k / cols + 1, k % cols + 1)
  }

  lemma GridCutAt(prefix: string, w: nat, h: nat, cols: nat, rows: nat, r: nat, c: nat)
    requires cols > 0 && rows > 0 && c < cols
    ensures GridCut(prefix, w, h, cols, rows, r * cols + c) ==
      Cut(CellBox(c, r, w / cols, h / rows), CardName(prefix, r + 1, c + 1))
  {
    DivModOf(r, c, cols);
    GridBoxAt(w, h, cols, rows, r, c);
  }

  /** `saved` holds the first `|saved|` cuts of the grid, in order. */
  predicate CutsSoFar(saved: seq<Cut>, prefix: string, w: nat, h: nat, cols: nat, rows: nat)
    requires cols > 0 && rows > 0
  {
    forall k :: 0 <= k < |saved| ==> saved[k] == GridCut(prefix, w, h, cols, rows, k)
  }

  /** Appending the cut at row `r`, column `c` after the `r * cols + c` before it. */
  lemma CutsStep(saved: seq<Cut>, prefix: string, w: nat, h: nat, cols: nat, rows: nat, r: nat, c: nat)
    requires cols > 0 && rows > 0 && c < cols && |saved| == r * cols + c
    requires CutsSoFar(saved, prefix, w, h, cols, rows)
    ensures CutsSoFar(saved + [Cut(CellBox(c, r, w / cols, h / rows), CardName(prefix, r + 1, c + 1))],
      prefix, w, h, cols, rows)
  {
    var cut := Cut(CellBox(c, r, w / cols, h / rows), CardName(prefix, r + 1, c + 1));
    var t := saved + [cut];
    GridCutAt(prefix, w, h, cols, rows, r, c);
    forall k | 0 <= k < |t| ensures t[k] == GridCut(prefix, w, h, cols, rows, k) {
      if k < |saved| {
        assert t[k] == saved[k];
      } else {
        assert t[k] == cut;
      }
    }
  }

  /** The cropping loops of `crop_all_cards` (prefix "") and `split_page_into_cards` (prefix
      the page's stem and "_"): one box and one file name per cell, row by row. */
  method CropNamedGrid(prefix: string, w: nat, h: nat, cols: nat, rows: nat) returns (saved: seq<Cut>)
    requires cols > 0 && rows > 0
    ensures |saved| == rows * cols
    ensures forall k :: 0 <= k < |saved| ==> saved[k] == GridCut(prefix, w, h, cols, rows, k)
  {
    var cw, rh := w / cols, h / rows;
    saved := [];
    var r := 0;
    while r < rows
      invariant r <= rows && |saved| == r * cols
      invariant CutsSoFar(saved, prefix, w, h, cols, rows)
    {
      var c := 0;
      while c < cols
        invariant c <= cols && |saved| == r * cols + c
        invariant CutsSoFar(saved, prefix, w, h, cols, rows)
      {
        CutsStep(saved, prefix, w, h, cols, rows, r, c);
        var box := Box(c * cw, r * rh, (c + 1) * cw, (r + 1) * rh);
        saved := saved + [Cut(box, CardName(prefix, r + 1, c + 1))];
        c := c + 1;
      }
      r := r + 1;
    }
  }

  /** Python's `<` on strings: code point by code point, a proper prefix first. */
  predicate StrLess(a: string, b: string)
    decreases |a|
  {
    if a == [] then b != []
    else b != [] && (a[0] < b[0] || (a[0] == b[0] && StrLess(a[1..], b[1..])))
  }

  /** Strings agreeing up to `i` and differing there are ordered by their `i`-th characters. */
  lemma {:induction false} StrLessAt(a: string, b: string, i: nat)
    requires i < |a| && i < |b| && a[..i] == b[..i] && a[i] != b[i]
    ensures StrLess(a, b) <==> a[i] < b[i]
    decreases i
  {
    if i > 0 {
      assert a[0] == a[..i][0] == b[..i][0] == b[0];
      assert a[1..][..i - 1] == a[..i][1..] == b[..i][1..] == b[1..][..i - 1];
      StrLessAt(a[1..], b[1..], i - 1);
    }
  }

  lemma {:induction false} StrLessIrreflexive(a: string)
    ensures !StrLess(a, a)
    decreases |a|
  {
    if a != [] {
      StrLessIrreflexive(a[1..]);
    }
  }

  /** What follows the prefix in a card's name, for rows and columns below 100. */
  lemma CardNameLayout(r: nat, c: nat)
    requires r < 100 && c < 100
    ensures var t := "card_" + Pad2(r) + "_" + Pad2(c) + ".png";
      |t| == 14 && t[..5] == "card_" && t[7] == '_' &&
      t[5] == DigitChar(r / 10) && t[6] == DigitChar(r % 10) &&
      t[8] == DigitChar(c / 10) && t[9] == DigitChar(c % 10) && t[10..] == ".png"
  {
    Pad2Small(r);
    Pad2Small(c);
  }

  lemma {:induction false} StrLessPrefix(p: string, a: string, b: string)
    ensures StrLess(p + a, p + b) <==> StrLess(a, b)
    decreases |p|
  {
    if p == [] {
      assert p + a == a && p + b == b;
    } else {
      assert (p + a)[0] == p[0] == (p + b)[0];
      assert (p + a)[1..] == p[1..] + a && (p + b)[1..] == p[1..] + b;
      StrLessPrefix(p[1..], a, b);
    }
  }

  lemma DigitOrder(a: nat, b: nat)
    requires a < 10 && b < 10
    ensures DigitChar(a) < DigitChar(b) <==> a < b
    ensures DigitChar(a) == DigitChar(b) <==> a == b
  {
  }

  /** For rows and columns up to 99 the names sort in row-major order. */
  lemma NameOrder(prefix: string, r1: nat, c1: nat, r2: nat, c2: nat)
    requires r1 < 100 && c1 < 100 && r2 < 100 && c2 < 100
    ensures StrLess(CardName(prefix, r1, c1), CardName(prefix, r2, c2)) <==>
      r1 < r2 || (r1 == r2 && c1 < c2)
  {
    var a := "card_" + Pad2(r1) + "_" + Pad2(c1) + ".png";
    var b := "card_" + Pad2(r2) + "_" + Pad2(c2) + ".png";
    StrLessPrefix(prefix, a, b);
    CardNameLayout(r1, c1);
    CardNameLayout(r2, c2);
    DigitOrder(r1 / 10, r2 / 10);
    DigitOrder(r1 % 10, r2 % 10);
    DigitOrder(c1 / 10, c2 / 10);
    DigitOrder(c1 % 10, c2 % 10);
    TailOrder(a, b);
    assert r1 == r2 <==> r1 / 10 == r2 / 10 && r1 % 10 == r2 % 10;
    assert r1 < r2 <==> r1 / 10 < r2 / 10 || (r1 / 10 == r2 / 10 && r1 % 10 < r2 % 10);
    assert c1 < c2 <==> c1 / 10 < c2 / 10 || (c1 / 10 == c2 / 10 && c1 % 10 < c2 % 10);
  }

  /** Two tails of the same layout compare by their four digits, most significant first. */
  lemma TailOrder(a: string, b: string)
    requires |a| == 14 && |b| == 14 && a[..5] == b[..5] && a[7] == b[7] && a[10..] == b[10..]
    ensures StrLess(a, b) <==>
      a[5] < b[5] || (a[5] == b[5] && (a[6] < b[6] || (a[6] == b[6] &&
      (a[8] < b[8] || (a[8] == b[8] && a[9] < b[9])))))
  {
    if a[5] != b[5] {
      StrLessAt(a, b, 5);
    } else if a[6] != b[6] {
      assert a[..6] == a[..5] + [a[5]] && b[..6] == b[..5] + [b[5]];
      StrLessAt(a, b, 6);
    } else if a[8] != b[8] {
      assert a[..8] == a[..5] + [a[5], a[6], a[7]] && b[..8] == b[..5] + [b[5], b[6], b[7]];
      StrLessAt(a, b, 8);
    } else if a[9] != b[9] {
      assert a[..9] == a[..5] + [a[5], a[6], a[7], a[8]] && b[..9] == b[..5] + [b[5], b[6], b[7], b[8]];
      StrLessAt(a, b, 9);
    } else {
      assert a == a[..5] + [a[5], a[6], a[7], a[8], a[9]] + a[10..];
      assert b == b[..5] + [b[5], b[6], b[7], b[8], b[9]] + b[10..];
      StrLessIrreflexive(a);
    }
  }

  /** Counting row by row, a later position is in a later row, or later in the same row. */
  lemma RowMajor(cols: nat, k1: nat, k2: nat)
    requires cols > 0 && k1 < k2
    ensures k1 / cols < k2 / cols || (k1 / cols == k2 / cols && k1 % cols < k2 % cols)
  {
    var r1, c1, r2, c2 := k1 / cols, k1 % cols, k2 / cols, k2 % cols;
    assert k1 == r1 * cols + c1 && k2 == r2 * cols + c2;
    MulLe(r2 + 1, r1, cols);
  }

  /** `sorted(saved)` is `saved`: for grids of up to 99 by 99 the names come out of the loops
      already in increasing order, so sorting them keeps the row-major order of the boxes. */
  lemma NamesSorted(prefix: string, cols: nat, rows: nat, k1: nat, k2: nat)
    requires 0 < cols <= 99 && 0 < rows <= 99
    requires k1 < k2 < rows * cols
    ensures StrLess(GridName(prefix, cols, k1), GridName(prefix, cols, k2))
  {
    var r1, c1, r2, c2 := k1 / cols, k1 % cols, k2 / cols, k2 % cols;
    assert r1 < 99 && c1 < 99 && r2 < 99 && c2 < 99 by {
      GridCell(cols, rows, k1);
      GridCell(cols, rows, k2);
    }
    assert r1 < r2 || (r1 == r2 && c1 < c2) by {
      RowMajor(cols, k1, k2);
    }
    NameOrder(prefix, r1 + 1, c1 + 1, r2 + 1, c2 + 1);
  }

  // ---------------------------------------------------------------- face rectangle

  /** `int(n * p / 100)` for the ratio `p / 100`, computed exactly. */
  function Ratio(n: nat, p: nat): nat {
    n * p / 100
  }

  lemma RatioAtMost(n: nat, p: nat)
    requires p <= 100
    ensures Ratio(n, p) <= n
  {
    MulLe(p, 100, n);
  }

  /** `Ratio(n, p)` grows by at least one when `p` grows by `d` and `n * d >= 100`. */
  lemma RatioGap(n: nat, p: nat, d: nat)
    requires n * d >= 100
    ensures Ratio(n, p) + 1 <= Ratio(n, p + d)
  {
    assert n * (p + d) == n * p + n * d;
    assert (n * p + 100) / 100 == n * p / 100 + 1;
  }

  /** `crop_person_face_bytes` / `crop_person_photo` of the single-sheet scripts: the ratios
      0.78, 0.30, 0.98, 0.85 of the card, clamped to the card, and no box when it is empty. */
  function FaceBox(w: nat, h: nat): (r: Option<Box>)
    ensures r.None? <==> Ratio(w, 98) <= Ratio(w, 78) || Ratio(h, 85) <= Ratio(h, 30)
    ensures r.Some? ==> 0 <= r.value.left < r.value.right <= w && 0 <= r.value.top < r.value.bottom <= h
  {
    RatioAtMost(w, 98);
    RatioAtMost(h, 85);
    var left, top := Max(0, Ratio(w, 78)), Max(0, Ratio(h, 30));
    var right, bottom := Min(w, Ratio(w, 98)), Min(h, Ratio(h, 85));
    if right <= left || bottom <= top then None else Some(Box(left, top, right, bottom))
  }

  function Max(a: int, b: int): int { if a < b then b else a }
  function Min(a: int, b: int): int { if a < b then a else b }

  /** A card gets a face box exactly when it is at least 5 pixels wide and 2 high. */
  lemma FaceBoxExists(w: nat, h: nat)
    ensures FaceBox(w, h).None? <==> w < 5 || h < 2
  {
    if w >= 5 {
      RatioGap(w, 78, 20);
    } else {
      assert Ratio(w, 98) == Ratio(w, 78) by {
        assert w == 0 || w == 1 || w == 2 || w == 3 || w == 4;
      }
    }
    if h >= 2 {
      RatioGap(h, 30, 55);
    } else {
      assert h == 0 || h == 1;
    }
  }

  /** `crop_person_photo` of the bulk script: ratios 0.78, 0.30, 0.98, 0.95, no clamping and
      no empty check. The box always lies in the card, but can be empty for a tiny card. */
  function BulkFaceBox(w: nat, h: nat): (r: Box)
    ensures Inside(r, w, h)
    ensures r.left < r.right <==> w >= 5
  {
    BulkFaceEdges(w, h);
    Box(Ratio(w, 78), Ratio(h, 30), Ratio(w, 98), Ratio(h, 95))
  }

  lemma BulkFaceEdges(w: nat, h: nat)
    ensures Ratio(w, 78) <= Ratio(w, 98) <= w && Ratio(h, 30) <= Ratio(h, 95) <= h
    ensures Ratio(w, 78) < Ratio(w, 98) <==> w >= 5
  {
    RatioAtMost(w, 98);
    RatioAtMost(h, 95);
    MulLe(78, 98, w);
    MulLe(30, 95, h);
    if w >= 5 {
      RatioGap(w, 78, 20);
    } else {
      assert w == 0 || w == 1 || w == 2 || w == 3 || w == 4;
    }
  }

  // ---------------------------------------------------------------- page margins

  const CropTop: int := 340
  const CropLeft: int := 60
  const CropRight: int := 88
  const CropBottom: int := 3270

  /** `crop_page`: fixed left, top and bottom edges, the right edge a fixed distance from the
      page's right side. */
  function PageBox(w: int): (b: Box)
    ensures b.right - b.left == w - 148 && b.bottom - b.top == 2930
  {
    Box(CropLeft, CropTop, w - CropRight, CropBottom)
  }

  /** The page box lies in the page exactly when the page is at least 148 pixels wide and
      3270 high. */
  lemma PageBoxInside(w: int, h: int)
    ensures Inside(PageBox(w), w, h) <==> w >= 148 && h >= 3270
  {
  }

  // ---------------------------------------------------------------- upscale rule

  /** The size after OCR preprocessing: both sides doubled when the width is below the
      threshold (400 in one script, 350 in the others), else unchanged. */
  function Upscale(threshold: nat, w: nat, h: nat): (r: (nat, nat))
    ensures r.0 >= w && r.1 >= h
    ensures r.0 * h == w * r.1
    ensures w < threshold ==> r.0 == 2 * w && r.1 == 2 * h
    ensures w >= threshold ==> r == (w, h)
  {
    if w < threshold then (w * 2, h * 2) else (w, h)
  }
}
