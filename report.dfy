/** The worksheet `generate_excel_from_cards` writes: a header row, then one row per card with
    its running number, the parsed fields and its serial, and finally the column widths. The
    sheet is a map from (row, column), both counted from 1, to the value written there. */
module Report {
  import opened Text
  import opened Variants
  import opened CardParser
  import Geometry

  /** A cell's value: nothing, an integer, or a string. */
  datatype Cell = Empty | Num(n: int) | Str(s: string)

  /** Python truthiness of a cell's value: `None`, `0` and `""` are false. */
  predicate Truthy(c: Cell) {
    match c
    case Empty => false
    case Num(n) => n != 0
    case Str(s) => s != []
  }

  /** `str(n)` for an integer of either sign. */
  function IntText(n: int): (s: string)
    ensures |s| >= 1
    ensures n >= 0 ==> All(s, IsAsciiDigit)
    ensures n < 0 ==> s[0] == '-' && All(s[1..], IsAsciiDigit)
  {
    if n < 0 then "-" + Geometry.Decimal(-n) else Geometry.Decimal(n)
  }

  /** `str(value)`; a truthy value never shows as "". */
  function Shown(c: Cell): (s: string)
    ensures Truthy(c) ==> s != []
  {
    match c
    case Empty => "None"
    case Num(n) => IntText(n)
    case Str(s) => s
  }

  const Headers: seq<string> := [
    "S.No.", "ID", "Serial", "मतदाराचे पूर्ण:", "पतीचे नाव / वडिलांचे नाव",
    "घर क्रमांक :", "वय :", "लिंग :", "Face image"]

  /** Column I, the face thumbnail's column. */
  const ImageColumn: nat := 9

  type Sheet = map<(nat, nat), Cell>

  /** The OCR text of card `idx`: a failed OCR call gives "", and so does a card past the end of
      the results. */
  function OcrText(ocr: seq<Option<string>>, idx: nat): (t: string)
    ensures idx < |ocr| && ocr[idx].Some? ==> t == ocr[idx].value
    ensures idx >= |ocr| || ocr[idx].None? ==> t == []
  {
    if idx < |ocr| && ocr[idx].Some? then ocr[idx].value else ""
  }

  /** Columns A to H of the row for card `idx`. */
  function RowCells(d: Card, idx: nat, serial: int): seq<Cell> {
    [Num(idx + 1), Str(d.id), Num(serial), Str(d.voterName), Str(d.relationName),
     Str(d.house), Str(d.age), Str(d.genderFull)]
  }

  /** The row of card `idx` when the serials start at `start`. */
  function CardRow(cfg: Config, ocr: seq<Option<string>>, idx: nat, start: int): seq<Cell> {
    RowCells(Parse(cfg, OcrText(ocr, idx)), idx, start + idx)
  }

  /** Row `r` holds `cells` from column A on. */
  predicate HasRow(sheet: Sheet, r: nat, cells: seq<Cell>) {
    forall j :: 1 <= j <= |cells| ==> (r, j) in sheet && sheet[(r, j)] == cells[j - 1]
  }

  /** The cells written: the nine headers of row 1 and columns A to H of rows 2 to n + 1. */
  predicate Written(n: nat, r: nat, c: nat) {
    (r == 1 && 1 <= c <= |Headers|) || (2 <= r <= n + 1 && 1 <= c <= 8)
  }

  /** Row 1: the headers, from column A on. */
  function HeaderCells(): (cells: seq<Cell>)
    ensures |cells| == |Headers|
    ensures forall j :: 0 <= j < |Headers| ==> cells[j] == Str(Headers[j])
  {
    seq(|Headers|, j requires 0 <= j < |Headers| => Str(Headers[j]))
  }

  /** Every cell outside row `r` of `a` is in `b` with the same value. */
  ghost predicate SameElsewhere(a: Sheet, b: Sheet, r: nat) {
    forall r': nat, c: nat :: (r', c) in a && r' != r ==> (r', c) in b && b[(r', c)] == a[(r', c)]
  }

  lemma RowKept(a: Sheet, b: Sheet, r: nat, r0: nat, cells: seq<Cell>)
    requires SameElsewhere(a, b, r) && r0 != r && HasRow(a, r0, cells)
    ensures HasRow(b, r0, cells)
  {
  }

  /** Rows 2 to k + 1 hold the rows of cards 0 to k - 1. */
  predicate RowsDone(sheet: Sheet, cfg: Config, ocr: seq<Option<string>>, start: int, k: nat) {
    forall idx :: 0 <= idx < k ==> HasRow(sheet, idx + 2, CardRow(cfg, ocr, idx, start))
  }

  /** Writing card k's row after the first k keeps those and adds the next. */
  lemma RowsDoneStep(a: Sheet, b: Sheet, cfg: Config, ocr: seq<Option<string>>, start: int, k: nat,
                     cells: seq<Cell>)
    requires RowsDone(a, cfg, ocr, start, k) && SameElsewhere(a, b, k + 2)
    requires cells == CardRow(cfg, ocr, k, start) && HasRow(b, k + 2, cells)
    ensures RowsDone(b, cfg, ocr, start, k + 1)
  {
    RowsKept(a, b, (i: nat) => CardRow(cfg, ocr, i, start), k);
  }

  /** Rows 2 to k + 1, holding `rowOf(0)` to `rowOf(k - 1)`, survive a write to row k + 2, and
      row k + 2 then holds `rowOf(k)`. */
  lemma RowsKept(a: Sheet, b: Sheet, rowOf: nat -> seq<Cell>, k: nat)
    requires forall i :: 0 <= i < k ==> HasRow(a, i + 2, rowOf(i))
    requires SameElsewhere(a, b, k + 2) && HasRow(b, k + 2, rowOf(k))
    ensures forall i :: 0 <= i < k + 1 ==> HasRow(b, i + 2, rowOf(i))
  {
    forall i | 0 <= i < k
      ensures HasRow(b, i + 2, rowOf(i))
    {
      RowKept(a, b, k + 2, i + 2, rowOf(i));
    }
  }

  /** Adding the eight cells of row k + 2 to the cells of the first k cards. */
  lemma WrittenStep(a: Sheet, b: Sheet, k: nat)
    requires forall r: nat, c: nat :: (r, c) in a <==> Written(k, r, c)
    requires forall r: nat, c: nat :: (r, c) in b <==> (r, c) in a || (r == k + 2 && 1 <= c <= 8)
    ensures forall r: nat, c: nat :: (r, c) in b <==> Written(k + 1, r, c)
  {
  }

  /** One pass of the card loop: parses card `idx` and writes its row, row `idx + 2`. */
  method AddCardRow(sheet: Sheet, cfg: Config, ocr: seq<Option<string>>, start: int, idx: nat)
    returns (next: Sheet)
    requires HasRow(sheet, 1, HeaderCells())
    requires RowsDone(sheet, cfg, ocr, start, idx)
    requires forall r: nat, c: nat :: (r, c) in sheet <==> Written(idx, r, c)
    ensures HasRow(next, 1, HeaderCells())
    ensures RowsDone(next, cfg, ocr, start, idx + 1)
    ensures forall r: nat, c: nat :: (r, c) in next <==> Written(idx + 1, r, c)
  {
    var d := ParseCard(cfg, OcrText(ocr, idx));
    var cells := RowCells(d, idx, start + idx);
    next := WriteRow(sheet, idx + 2, cells);
    RowKept(sheet, next, idx + 2, 1, HeaderCells());
    RowsDoneStep(sheet, next, cfg, ocr, start, idx, cells);
    WrittenStep(sheet, next, idx);
  }

  /** The header loop and the card loop, with the row counting up from 2 and the serial from
      `start`. */
  method FillRows(cfg: Config, ocr: seq<Option<string>>, n: nat, start: int) returns (sheet: Sheet)
    ensures HasRow(sheet, 1, HeaderCells())
    ensures RowsDone(sheet, cfg, ocr, start, n)
    ensures forall r: nat, c: nat :: (r, c) in sheet <==> Written(n, r, c)
  {
    sheet := WriteRow(map[], 1, HeaderCells());
    var idx := 0;
    while idx < n
      invariant idx <= n
      invariant HasRow(sheet, 1, HeaderCells())
      invariant RowsDone(sheet, cfg, ocr, start, idx)
      invariant forall r: nat, c: nat :: (r, c) in sheet <==> Written(idx, r, c)
    {
      sheet := AddCardRow(sheet, cfg, ocr, start, idx);
      idx := idx + 1;
    }
  }

  /** Writes `cells` into row `r` from column A on, leaving every other row as it was. */
  method WriteRow(sheet: Sheet, r: nat, cells: seq<Cell>) returns (out: Sheet)
    ensures HasRow(out, r, cells)
    ensures SameElsewhere(sheet, out, r)
    ensures forall r': nat, c: nat :: (r', c) in out <==> (r', c) in sheet || (r' == r && 1 <= c <= |cells|)
  {
    out := sheet;
    var j := 0;
    while j < |cells|
      invariant j <= |cells|
      invariant forall k :: 1 <= k <= j ==> (r, k) in out && out[(r, k)] == cells[k - 1]
      invariant SameElsewhere(sheet, out, r)
      invariant forall r': nat, c: nat :: (r', c) in out <==> (r', c) in sheet || (r' == r && 1 <= c <= j)
    {
      out := out[(r, j + 1) := cells[j]];
      j := j + 1;
    }
  }

  // ---------------------------------------------------------------- column widths

  /** Column `col` over rows 1 to `rows`, as `ws.columns` yields it: a cell never written is
      empty. */
  function Column(sheet: Sheet, col: nat, rows: nat): (cells: seq<Cell>)
    ensures |cells| == rows
    ensures forall i :: 0 <= i < rows ==>
      cells[i] == (if (i + 1, col) in sheet then sheet[(i + 1, col)] else Empty)
  {
    seq(rows, i => if (i + 1, col) in sheet then sheet[(i + 1, col)] else Empty)
  }

  /** `max((len(str(c.value)) for c in col if c.value), default=0)` */
  function Longest(cells: seq<Cell>): (m: nat)
    ensures forall i :: 0 <= i < |cells| && Truthy(cells[i]) ==> |Shown(cells[i])| <= m
    ensures m == 0 || exists i :: 0 <= i < |cells| && Truthy(cells[i]) && |Shown(cells[i])| == m
  {
    if cells == [] then 0
    else
      var rest := Longest(cells[1..]);
      assert forall i :: 1 <= i < |cells| ==> cells[i] == cells[1..][i - 1];
      if Truthy(cells[0]) && |Shown(cells[0])| > rest then |Shown(cells[0])| else rest
  }

  /** `min(max_len + 2, 60)`: two more than the longest value, capped at 60. */
  function Width(cells: seq<Cell>): (w: nat)
    ensures 2 <= w <= 60
    ensures forall i :: 0 <= i < |cells| && Truthy(cells[i]) && |Shown(cells[i])| <= 58 ==>
      |Shown(cells[i])| + 2 <= w
    ensures w == 60 || w == 2 ||
      exists i :: 0 <= i < |cells| && Truthy(cells[i]) && |Shown(cells[i])| + 2 == w
    ensures w == 2 <==> forall i :: 0 <= i < |cells| ==> !Truthy(cells[i])
    ensures w == 60 <==> exists i :: 0 <= i < |cells| && Truthy(cells[i]) && |Shown(cells[i])| >= 58
  {
    var m := Longest(cells);
    if m + 2 < 60 then m + 2 else 60
  }

  /** Whatever `m` is the longest truthy length, the width is `min(m + 2, 60)`. */
  lemma WidthRule(cells: seq<Cell>, m: nat)
    requires forall i :: 0 <= i < |cells| && Truthy(cells[i]) ==> |Shown(cells[i])| <= m
    requires m == 0 || exists i :: 0 <= i < |cells| && Truthy(cells[i]) && |Shown(cells[i])| == m
    ensures Width(cells) == if m + 2 < 60 then m + 2 else 60
  {
    var w := Width(cells);
    if 0 < m && m + 2 < 60 {
      var i :| 0 <= i < |cells| && Truthy(cells[i]) && |Shown(cells[i])| == m;
      assert m + 2 <= w;
    }
  }

  /** `max(18, int(THUMB_W * 0.14) + 2)` with `THUMB_W` = 80. */
  const ImageWidth: int := Geometry.Max(18, Geometry.Ratio(80, 14) + 2)

  /** The width loop over columns A to I: column I gets the thumbnail width and every other
      column its `Width`. */
  method SetWidths(sheet: Sheet, rows: nat) returns (widths: seq<int>)
    ensures |widths| == ImageColumn
    ensures widths[ImageColumn - 1] == 18
    ensures forall i :: 0 <= i < ImageColumn - 1 ==> widths[i] == Width(Column(sheet, i + 1, rows))
    ensures forall i :: 0 <= i < ImageColumn - 1 ==> 2 <= widths[i] <= 60
  {
    widths := [];
    var col := 1;
    while col <= ImageColumn
      invariant 1 <= col <= ImageColumn + 1 && |widths| == col - 1
      invariant forall i :: 0 <= i < col - 1 && i < ImageColumn - 1 ==>
        widths[i] == Width(Column(sheet, i + 1, rows))
      invariant col > ImageColumn ==> widths[ImageColumn - 1] == 18
    {
      if col == ImageColumn {
        widths := widths + [ImageWidth];
      } else {
        widths := widths + [Width(Column(sheet, col, rows))];
      }
      col := col + 1;
    }
  }

  /** Rows, then widths, over the `n + 1` rows the sheet then has. */
  method GenerateReport(cfg: Config, ocr: seq<Option<string>>, n: nat, start: int)
    returns (sheet: Sheet, widths: seq<int>)
    ensures RowsDone(sheet, cfg, ocr, start, n)
    ensures |widths| == ImageColumn && widths[ImageColumn - 1] == 18
    ensures forall i :: 0 <= i < ImageColumn - 1 ==> widths[i] == Width(Column(sheet, i + 1, n + 1))
  {
    sheet := FillRows(cfg, ocr, n, start);
    widths := SetWidths(sheet, n + 1);
  }

}
