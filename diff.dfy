/**
  The diff engine of the queuer: the pattern (rows of colour strings) is laid
  on the canvas at an offset, and every cell whose canvas colour, formatted as
  lower-case hex, differs from the cell's string becomes a Pixel to write.
  The specification functions walk the pattern in the same row-major order as
  the source's nested loops; BuildDiff is that loop, and Shuffle is
  random.shuffle. The walk is stated over a colour lookup, a function from a
  canvas coordinate to the colour string shown there; CanvasView is the
  lookup the bot uses, the lower-case hex of getpixel's triple.
 */
module DiffEngine {
  import opened Wrappers
  import opened Canvas
  import Hex
  import opened PixelRecord

  type Pattern = seq<seq<string>>
  type Offset = (nat, nat)

  /** The Pixel built for pattern cell (row, col). */
  function CellPixel(pattern: Pattern, offset: Offset, row: nat, col: nat): Pixel
    requires row < |pattern| && col < |pattern[row]|
  {
    Pixel(col + offset.0, row + offset.1, pattern[row][col])
  }

  /** Cell (row, col), shifted by the offset, lies on the canvas. */
  predicate CellFits(offset: Offset, row: nat, col: nat)
  {
    col + offset.0 < Width && row + offset.1 < Height
  }

  /** The first `n` cells of a row lie on the canvas. */
  predicate RowFits(offset: Offset, row: nat, n: nat)
  {
    forall col :: 0 <= col < n ==> CellFits(offset, row, col)
  }

  /** Every cell of the first `m` rows lies on the canvas. */
  predicate RowsFit(pattern: Pattern, offset: Offset, m: nat)
    requires m <= |pattern|
  {
    forall row, col :: 0 <= row < m && 0 <= col < |pattern[row]| ==> CellFits(offset, row, col)
  }

  /** Every cell of the pattern lies on the canvas (otherwise getpixel raises). */
  predicate Fits(pattern: Pattern, offset: Offset)
  {
    RowsFit(pattern, offset, |pattern|)
  }

  /** A coordinate's colour string on the canvas. */
  type ColorLookup = (nat, nat) -> string

  /**
    The colour strings of a decoded image: the string of pixel (x, y) is the
    hex formatting of getpixel((x, y)), as CanvasViewAt states. Coordinates off
    the canvas are never looked up (BuildDiff stops before), so the lookup
    gives them the empty string.
   */
  function CanvasView(image: seq<byte>): ColorLookup
    requires IsImage(image)
  {
    (x: nat, y: nat) => if x < Width && y < Height then Hex.PixelStrings(image)[Width * y + x] else ""
  }

  /** The view's string at an on-canvas pixel is the formatting of getpixel there. */
  lemma CanvasViewAt(image: seq<byte>, x: nat, y: nat)
    requires IsImage(image) && x < Width && y < Height
    ensures CanvasView(image)(x, y) == Hex.Format(ColorAt(image, x, y))
  {
    Hex.PixelStringsAt(image, Width * y + x);
  }

  /** getpixel((x, y)) followed by the formatting of pixels.py line 60. */
  method CanvasColor(image: seq<byte>, x: nat, y: nat) returns (s: string)
    requires IsImage(image) && x < Width && y < Height
    ensures s == CanvasView(image)(x, y)
  {
    var rgb := ColorAt(image, x, y);
    s := Hex.Format(rgb);
    CanvasViewAt(image, x, y);
  }

  /** The canvas colour under cell (row, col) differs, as a string, from the cell's colour. */
  predicate Differs(view: ColorLookup, pattern: Pattern, offset: Offset, row: nat, col: nat)
    requires row < |pattern| && col < |pattern[row]|
  {
    view(col + offset.0, row + offset.1) != pattern[row][col]
  }

  /** Every cell of the pattern shows its own colour string. */
  predicate AllMatch(view: ColorLookup, pattern: Pattern, offset: Offset)
  {
    forall row, col :: 0 <= row < |pattern| && 0 <= col < |pattern[row]| ==>
      !Differs(view, pattern, offset, row, col)
  }

  /** The pixels the inner loop appends for the first `n` cells of row `row`. */
  function RowDiff(view: ColorLookup, pattern: Pattern, offset: Offset, row: nat, n: nat): seq<Pixel>
    requires row < |pattern| && n <= |pattern[row]|
  {
    if n == 0 then []
    else
      RowDiff(view, pattern, offset, row, n - 1) +
      (if Differs(view, pattern, offset, row, n - 1) then [CellPixel(pattern, offset, row, n - 1)] else [])
  }

  /** The pixels the outer loop has collected after the first `m` rows. */
  function PatternDiff(view: ColorLookup, pattern: Pattern, offset: Offset, m: nat): seq<Pixel>
    requires m <= |pattern|
  {
    if m == 0 then []
    else PatternDiff(view, pattern, offset, m - 1) + RowDiff(view, pattern, offset, m - 1, |pattern[m - 1]|)
  }

  /** The list queuer builds, before shuffling it, for a given colour lookup. */
  function Diff(view: ColorLookup, pattern: Pattern, offset: Offset): seq<Pixel>
  {
    PatternDiff(view, pattern, offset, |pattern|)
  }

  /** The list queuer builds from a decoded canvas image. */
  function DiffOf(image: seq<byte>, pattern: Pattern, offset: Offset): seq<Pixel>
    requires IsImage(image)
  {
    Diff(CanvasView(image), pattern, offset)
  }

  /** Number of cells of the first `m` rows. */
  function CellsBefore(pattern: Pattern, m: nat): nat
    requires m <= |pattern|
  {
    if m == 0 then 0 else CellsBefore(pattern, m - 1) + |pattern[m - 1]|
  }

  function CellCount(pattern: Pattern): nat
  {
    CellsBefore(pattern, |pattern|)
  }

  /**
    `p` is the pixel of a differing pattern cell: its coordinate, shifted back
    by the offset, names a cell of the pattern, its colour is that cell's, and
    that cell's canvas colour differs.
   */
  predicate FromDifferingCell(view: ColorLookup, pattern: Pattern, offset: Offset, p: Pixel)
  {
    p.x >= offset.0 && p.y >= offset.1 &&
    var row, col := p.y - offset.1, p.x - offset.0;
    row < |pattern| && col < |pattern[row]| &&
    p == CellPixel(pattern, offset, row, col) && Differs(view, pattern, offset, row, col)
  }

  /** `p` is the pixel of some pattern cell, whatever the canvas shows. */
  predicate FromPattern(pattern: Pattern, offset: Offset, p: Pixel)
  {
    p.x >= offset.0 && p.y >= offset.1 &&
    var row, col := p.y - offset.1, p.x - offset.0;
    row < |pattern| && col < |pattern[row]| && p.color == pattern[row][col]
  }

  /** Row-major order on canvas coordinates. */
  predicate Before(p: Pixel, q: Pixel)
  {
    p.y < q.y || (p.y == q.y && p.x < q.x)
  }

  predicate RowMajorSorted(s: seq<Pixel>)
  {
    forall i, j :: 0 <= i < j < |s| ==> Before(s[i], s[j])
  }

  /** No two entries write the same canvas coordinate. */
  predicate DistinctCoordinates(s: seq<Pixel>)
  {
    forall i, j :: 0 <= i < |s| && 0 <= j < |s| && i != j ==> (s[i].x, s[i].y) != (s[j].x, s[j].y)
  }

  lemma SortedConcat(a: seq<Pixel>, b: seq<Pixel>)
    requires RowMajorSorted(a) && RowMajorSorted(b)
    requires forall i, j :: 0 <= i < |a| && 0 <= j < |b| ==> Before(a[i], b[j])
    ensures RowMajorSorted(a + b)
  {
    var c := a + b;
    forall i, j | 0 <= i < j < |c| ensures Before(c[i], c[j]) {
      if j < |a| {
        assert c[i] == a[i] && c[j] == a[j];
      } else if i >= |a| {
        assert c[i] == b[i - |a|] && c[j] == b[j - |a|];
      } else {
        assert c[i] == a[i] && c[j] == b[j - |a|];
      }
    }
  }

  lemma {:induction false} RowDiffLength(view: ColorLookup, pattern: Pattern, offset: Offset, row: nat, n: nat)
    requires row < |pattern| && n <= |pattern[row]|
    ensures |RowDiff(view, pattern, offset, row, n)| <= n
  {
    if n > 0 {
      RowDiffLength(view, pattern, offset, row, n - 1);
    }
  }

  lemma {:induction false} RowDiffOrigin(view: ColorLookup, pattern: Pattern, offset: Offset, row: nat, n: nat)
    requires row < |pattern| && n <= |pattern[row]|
    ensures forall i :: 0 <= i < |RowDiff(view, pattern, offset, row, n)| ==>
      RowDiff(view, pattern, offset, row, n)[i].y == row + offset.1 &&
      RowDiff(view, pattern, offset, row, n)[i].x < offset.0 + n &&
      FromDifferingCell(view, pattern, offset, RowDiff(view, pattern, offset, row, n)[i])
  {
    if n > 0 {
      RowDiffOrigin(view, pattern, offset, row, n - 1);
      var d0 := RowDiff(view, pattern, offset, row, n - 1);
      var p := CellPixel(pattern, offset, row, n - 1);
      var tail := if Differs(view, pattern, offset, row, n - 1) then [p] else [];
      assert p.y - offset.1 == row && p.x - offset.0 == n - 1;
      var d := d0 + tail;
      forall i | 0 <= i < |d|
        ensures d[i].y == row + offset.1 && d[i].x < offset.0 + n && FromDifferingCell(view, pattern, offset, d[i])
      {
        if i < |d0| { assert d[i] == d0[i]; } else { assert d[i] == p; }
      }
    }
  }

  lemma {:induction false} RowDiffSorted(view: ColorLookup, pattern: Pattern, offset: Offset, row: nat, n: nat)
    requires row < |pattern| && n <= |pattern[row]|
    ensures RowMajorSorted(RowDiff(view, pattern, offset, row, n))
  {
    if n > 0 {
      RowDiffSorted(view, pattern, offset, row, n - 1);
      RowDiffOrigin(view, pattern, offset, row, n - 1);
      var d0 := RowDiff(view, pattern, offset, row, n - 1);
      var tail := if Differs(view, pattern, offset, row, n - 1) then [CellPixel(pattern, offset, row, n - 1)] else [];
      SortedConcat(d0, tail);
    }
  }

  lemma {:induction false} RowDiffComplete(view: ColorLookup, pattern: Pattern, offset: Offset, row: nat, n: nat)
    requires row < |pattern| && n <= |pattern[row]|
    ensures forall col :: 0 <= col < n && Differs(view, pattern, offset, row, col) ==>
      CellPixel(pattern, offset, row, col) in RowDiff(view, pattern, offset, row, n)
  {
    if n > 0 {
      RowDiffComplete(view, pattern, offset, row, n - 1);
    }
  }

  lemma {:induction false} PatternDiffLength(view: ColorLookup, pattern: Pattern, offset: Offset, m: nat)
    requires m <= |pattern|
    ensures |PatternDiff(view, pattern, offset, m)| <= CellsBefore(pattern, m)
  {
    if m > 0 {
      PatternDiffLength(view, pattern, offset, m - 1);
      RowDiffLength(view, pattern, offset, m - 1, |pattern[m - 1]|);
    }
  }

  lemma {:induction false} PatternDiffOrigin(view: ColorLookup, pattern: Pattern, offset: Offset, m: nat)
    requires m <= |pattern|
    ensures forall i :: 0 <= i < |PatternDiff(view, pattern, offset, m)| ==>
      PatternDiff(view, pattern, offset, m)[i].y < offset.1 + m &&
      FromDifferingCell(view, pattern, offset, PatternDiff(view, pattern, offset, m)[i])
  {
    if m > 0 {
      PatternDiffOrigin(view, pattern, offset, m - 1);
      RowDiffOrigin(view, pattern, offset, m - 1, |pattern[m - 1]|);
      var d0 := PatternDiff(view, pattern, offset, m - 1);
      var r := RowDiff(view, pattern, offset, m - 1, |pattern[m - 1]|);
      var d := d0 + r;
      forall i | 0 <= i < |d|
        ensures d[i].y < offset.1 + m && FromDifferingCell(view, pattern, offset, d[i])
      {
        if i < |d0| { assert d[i] == d0[i]; } else { assert d[i] == r[i - |d0|]; }
      }
    }
  }

  lemma {:induction false} PatternDiffSorted(view: ColorLookup, pattern: Pattern, offset: Offset, m: nat)
    requires m <= |pattern|
    ensures RowMajorSorted(PatternDiff(view, pattern, offset, m))
  {
    if m > 0 {
      PatternDiffSorted(view, pattern, offset, m - 1);
      PatternDiffOrigin(view, pattern, offset, m - 1);
      RowDiffSorted(view, pattern, offset, m - 1, |pattern[m - 1]|);
      RowDiffOrigin(view, pattern, offset, m - 1, |pattern[m - 1]|);
      SortedConcat(PatternDiff(view, pattern, offset, m - 1), RowDiff(view, pattern, offset, m - 1, |pattern[m - 1]|));
    }
  }

  lemma {:induction false} PatternDiffComplete(view: ColorLookup, pattern: Pattern, offset: Offset, m: nat)
    requires m <= |pattern|
    ensures forall row, col :: 0 <= row < m && 0 <= col < |pattern[row]| && Differs(view, pattern, offset, row, col) ==>
      CellPixel(pattern, offset, row, col) in PatternDiff(view, pattern, offset, m)
  {
    if m > 0 {
      PatternDiffComplete(view, pattern, offset, m - 1);
      RowDiffComplete(view, pattern, offset, m - 1, |pattern[m - 1]|);
    }
  }

  /**
    Every entry of the diff comes from a differing pattern cell, and a pattern
    cell yields an entry exactly when its canvas colour string differs from its
    pattern string.
   */
  lemma DiffMembership(view: ColorLookup, pattern: Pattern, offset: Offset)
    ensures forall p :: p in Diff(view, pattern, offset) ==> FromDifferingCell(view, pattern, offset, p)
    ensures forall row, col :: 0 <= row < |pattern| && 0 <= col < |pattern[row]| ==>
      (CellPixel(pattern, offset, row, col) in Diff(view, pattern, offset) <==> Differs(view, pattern, offset, row, col))
  {
    PatternDiffOrigin(view, pattern, offset, |pattern|);
    PatternDiffComplete(view, pattern, offset, |pattern|);
  }

  /**
    The diff is in row-major order of the pattern, never names a coordinate
    twice, and has at most one entry per pattern cell.
   */
  lemma DiffShape(view: ColorLookup, pattern: Pattern, offset: Offset)
    ensures RowMajorSorted(Diff(view, pattern, offset))
    ensures DistinctCoordinates(Diff(view, pattern, offset))
    ensures |Diff(view, pattern, offset)| <= CellCount(pattern)
  {
    PatternDiffSorted(view, pattern, offset, |pattern|);
    PatternDiffLength(view, pattern, offset, |pattern|);
    var d := Diff(view, pattern, offset);
    forall i, j | 0 <= i < |d| && 0 <= j < |d| && i != j ensures (d[i].x, d[i].y) != (d[j].x, d[j].y) {
      if i < j { assert Before(d[i], d[j]); } else { assert Before(d[j], d[i]); }
    }
  }

  /** The diff is empty exactly when the canvas already shows the whole pattern. */
  lemma DiffEmptyIff(view: ColorLookup, pattern: Pattern, offset: Offset)
    ensures Diff(view, pattern, offset) == [] <==> AllMatch(view, pattern, offset)
  {
    DiffMembership(view, pattern, offset);
    var d := Diff(view, pattern, offset);
    if d != [] {
      assert d[0] in d;
      var row, col := d[0].y - offset.1, d[0].x - offset.0;
      assert Differs(view, pattern, offset, row, col);
    }
  }

  /**
    On a decoded image, a fitting cell differs exactly when the hex string of
    getpixel's triple at the shifted coordinate is not the cell's string, that is,
    when the cell's string does not parse as that triple in lower-case hex.
   */
  lemma CanvasDiffers(image: seq<byte>, pattern: Pattern, offset: Offset, row: nat, col: nat)
    requires IsImage(image) && Fits(pattern, offset) && row < |pattern| && col < |pattern[row]|
    ensures CellFits(offset, row, col)
    ensures Differs(CanvasView(image), pattern, offset, row, col) <==>
      Hex.Format(ColorAt(image, col + offset.0, row + offset.1)) != pattern[row][col]
    ensures Differs(CanvasView(image), pattern, offset, row, col) <==>
      Hex.Parse(pattern[row][col]) != Some(ColorAt(image, col + offset.0, row + offset.1))
  {
    assert CellFits(offset, row, col);
    CanvasViewAt(image, col + offset.0, row + offset.1);
    Hex.FormatEqualsIff(pattern[row][col], ColorAt(image, col + offset.0, row + offset.1));
  }

  /**
    The inner loop of queuer (pixels.py lines 57-63) over row `rowId`: look up
    each shifted cell on the canvas and append the cell's Pixel when the colour
    strings differ. A cell off the canvas makes getpixel raise.
   */
  method DiffRow(image: seq<byte>, pattern: Pattern, offset: Offset, rowId: nat) returns (r: Result<seq<Pixel>, Fault>)
    requires IsImage(image) && rowId < |pattern|
    ensures r.Success? <==> RowFits(offset, rowId, |pattern[rowId]|)
    ensures r.Failure? ==> r.error == ImageIndexOutOfRange
    ensures r.Success? ==> r.value == RowDiff(CanvasView(image), pattern, offset, rowId, |pattern[rowId]|)
  {
    var queue: seq<Pixel> := [];
    var row := pattern[rowId];
    for colId := 0 to |row|
      invariant RowFits(offset, rowId, colId)
      invariant queue == RowDiff(CanvasView(image), pattern, offset, rowId, colId)
    {
      var x, y := colId + offset.0, rowId + offset.1;
      var pixel := Pixel(x, y, row[colId]);
      if !(x < Width && y < Height) {
        assert !CellFits(offset, rowId, colId);
        return Failure(ImageIndexOutOfRange);
      }
      var canvasColor := CanvasColor(image, x, y);
      if canvasColor != pixel.color {
        queue := queue + [pixel];
      }
    }
    return Success(queue);
  }

  /**
    The nested loops of queuer (pixels.py lines 54-63): the rows in order, each
    walked by DiffRow, their pixels appended to one list. The first cell off
    the canvas makes the whole walk raise, and no list is returned.
   */
  method BuildDiff(image: seq<byte>, pattern: Pattern, offset: Offset) returns (r: Result<seq<Pixel>, Fault>)
    requires IsImage(image)
    ensures r.Success? <==> Fits(pattern, offset)
    ensures r.Failure? ==> r.error == ImageIndexOutOfRange
    ensures r.Success? ==> r.value == DiffOf(image, pattern, offset)
  {
    var queue: seq<Pixel> := [];
    for rowId := 0 to |pattern|
      invariant RowsFit(pattern, offset, rowId)
      invariant queue == PatternDiff(CanvasView(image), pattern, offset, rowId)
    {
      var rowPixels := DiffRow(image, pattern, offset, rowId);
      if rowPixels.Failure? {
        assert !RowFits(offset, rowId, |pattern[rowId]|);
        return Failure(ImageIndexOutOfRange);
      }
      queue := queue + rowPixels.value;
    }
    return Success(queue);
  }

  /**
    Any reordering of the diff of a decoded image holds only pattern cells,
    and is empty exactly when the canvas already shows the whole pattern.
   */
  lemma ReorderedDiff(image: seq<byte>, pattern: Pattern, offset: Offset, s: seq<Pixel>)
    requires IsImage(image) && multiset(s) == multiset(DiffOf(image, pattern, offset))
    ensures forall i :: 0 <= i < |s| ==> FromPattern(pattern, offset, s[i])
    ensures s == [] <==> AllMatch(CanvasView(image), pattern, offset)
  {
    var view := CanvasView(image);
    DiffMembership(view, pattern, offset);
    DiffEmptyIff(view, pattern, offset);
    forall i | 0 <= i < |s| ensures FromPattern(pattern, offset, s[i]) {
      assert s[i] in multiset(DiffOf(image, pattern, offset));
      assert FromDifferingCell(view, pattern, offset, s[i]);
    }
    if s == [] {
      assert |DiffOf(image, pattern, offset)| == |multiset(s)| == 0;
    } else {
      assert s[0] in multiset(DiffOf(image, pattern, offset));
    }
  }

  lemma SwapKeepsDistinct(s: seq<Pixel>, i: nat, j: nat)
    requires i < |s| && j < |s|
    ensures DistinctCoordinates(s) ==> DistinctCoordinates(s[i := s[j]][j := s[i]])
  {
    if DistinctCoordinates(s) {
      var t := s[i := s[j]][j := s[i]];
      forall a, b | 0 <= a < |t| && 0 <= b < |t| && a != b ensures (t[a].x, t[a].y) != (t[b].x, t[b].y) {
        var sa := if a == j then i else if a == i then j else a;
        var sb := if b == j then i else if b == i then j else b;
        assert t[a] == s[sa] && t[b] == s[sb];
      }
    }
  }

  /**
    random.shuffle (CPython's Fisher-Yates walk from the end): each step swaps
    position i with a position j <= i that the random source picks; a
    nondeterministic choice stands for randbelow(i + 1).
   */
  method Shuffle(s: seq<Pixel>) returns (r: seq<Pixel>)
    ensures |r| == |s| && multiset(r) == multiset(s)
    ensures DistinctCoordinates(s) ==> DistinctCoordinates(r)
  {
    r := s;
    var i := |r|;
    while i > 1
      invariant 0 <= i <= |r| == |s|
      invariant multiset(r) == multiset(s)
      invariant DistinctCoordinates(s) ==> DistinctCoordinates(r)
    {
      i := i - 1;
      var j :| 0 <= j <= i;
      SwapKeepsDistinct(r, i, j);
      r := r[i := r[j]][j := r[i]];
    }
  }
}
