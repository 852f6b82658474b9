/**
  * The screen buffer of the terminal-output interpreter (class `AnsiTerm`
  * in frontend/static/frontend/ansi_term.js): a grid addressed as
  * grid[row][wrap][col], where every wrap segment is an array of `width`
  * cells, and the pure operations the interpreter applies to it. Columns
  * are "unwrapped": column c of a row lives in segment c / width at
  * position c % width.
  */
module AnsiScreen {
  import opened Wrappers

  /** A cell: `None` is an array slot never written (JavaScript `undefined`). */
  type Cell = Option<char>
  type Segment = seq<Cell>
  /** One logical row: its wrap segments in order. */
  type Line = seq<Segment>
  type Grid = seq<Line>

  /** `new Array(width)`: a segment of `width` unset cells. */
  function EmptySegment(width: nat): Segment {
    seq(width, _ => None)
  }

  /** A row has at least one segment and every segment has `width` cells. */
  ghost predicate LineShaped(l: Line, width: nat) {
    |l| >= 1 && forall s | 0 <= s < |l| :: |l[s]| == width
  }

  ghost predicate Shaped(g: Grid, width: nat) {
    forall r | 0 <= r < |g| :: LineShaped(g[r], width)
  }

  function Max(a: int, b: int): int {
    if a < b then b else a
  }

  // ---------------------------------------------------------------------
  // Growth (moveCursor)
  // ---------------------------------------------------------------------

  /** The rows `moveCursor(r, _)` appends: row r and one spare row after it exist afterwards. */
  function GrowRows(g: Grid, width: nat, r: nat): Grid {
    if r + 2 <= |g| then g else g + seq(r + 2 - |g|, _ => [EmptySegment(width)])
  }

  /** The segments `moveCursor(_, c)` appends to the target row: segment c / width exists afterwards. */
  function GrowLine(l: Line, width: nat, c: int): Line
    requires width > 0
  {
    if c / width < |l| then l else l + seq(c / width + 1 - |l|, _ => EmptySegment(width))
  }

  /** The grid after `moveCursor(r, c)` with r >= 0. */
  function Grow(g: Grid, width: nat, r: nat, c: int): Grid
    requires width > 0
  {
    var g1 := GrowRows(g, width, r);
    g1[r := GrowLine(g1[r], width, c)]
  }

  /**
    * The growth invariant of `moveCursor`: afterwards there are
    * max(|g|, r + 2) rows, row r has a segment for column c, every
    * existing segment is untouched, every new segment is empty, and no
    * other row gains segments.
    */
  lemma GrowSpec(g: Grid, width: nat, r: nat, c: int)
    requires width > 0 && Shaped(g, width)
    ensures var h := Grow(g, width, r, c);
      && Shaped(h, width)
      && |h| == Max(|g|, r + 2)
      && |h[r]| > c / width
      && |h[r]| == (if r < |g| then Max(|g[r]|, c / width + 1) else Max(1, c / width + 1))
      && (forall q | 0 <= q < |h| && q != r :: |h[q]| == (if q < |g| then |g[q]| else 1))
      && (forall q, s | 0 <= q < |g| && 0 <= s < |g[q]| :: h[q][s] == g[q][s])
      && (forall q, s | 0 <= q < |h| && 0 <= s < |h[q]| && (q >= |g| || s >= |g[q]|) ::
            h[q][s] == EmptySegment(width))
  {
    var g1 := GrowRows(g, width, r);
    assert forall q | 0 <= q < |g| :: g1[q] == g[q];
    assert forall q | |g| <= q < |g1| :: g1[q] == [EmptySegment(width)];
  }

  // ---------------------------------------------------------------------
  // Writing cells (insertText)
  // ---------------------------------------------------------------------

  /** Column c of a row exists when its segment does. */
  predicate HasColumn(l: Line, width: nat, c: int)
    requires width > 0
  {
    0 <= c && c / width < |l|
  }

  /** `insertText(ch, row, c)` on the row: cell c % width of segment c / width becomes ch. */
  function Put(l: Line, width: nat, c: int, ch: char): Line
    requires width > 0 && LineShaped(l, width) && HasColumn(l, width, c)
  {
    l[c / width := l[c / width][c % width := Some(ch)]]
  }

  /** The row with every cell whose unwrapped column lies in [lo, hi) overwritten by " ". */
  function BlankRange(l: Line, width: nat, lo: int, hi: int): Line {
    seq(|l|, s requires 0 <= s < |l| =>
      seq(|l[s]|, j requires 0 <= j < |l[s]| =>
        if lo <= s * width + j < hi then Some(' ') else l[s][j]))
  }

  /** The unwrapped column of cell j of segment s is c exactly when (s, j) is where c is stored. */
  lemma Unwrapped(s: nat, j: nat, width: nat, c: int)
    requires 0 <= j < width && 0 <= c
    ensures s * width + j == c <==> s == c / width && j == c % width
  {
    var q, m := c / width, c % width;
    assert c == q * width + m;
    if s * width + j == c {
      if s < q {
        assert (s + 1) * width == s * width + width;
        MulMonotone(s + 1, q, width);
        assert false;
      } else if s > q {
        assert (q + 1) * width == q * width + width;
        MulMonotone(q + 1, s, width);
        assert false;
      }
    }
  }

  lemma MulMonotone(a: nat, b: nat, w: nat)
    requires a <= b
    ensures a * w <= b * w
  {
  }

  /** A row of n segments covers the unwrapped columns 0 .. n * width - 1. */
  lemma ColumnInRow(l: Line, width: nat, c: int)
    requires width > 0 && 0 <= c < width * |l|
    ensures HasColumn(l, width, c)
  {
    assert c == (c / width) * width + c % width;
    if c / width >= |l| {
      MulMonotone(|l|, c / width, width);
      assert false;
    }
  }

  /** One more step of an erase loop: writing " " at column i extends the blanked range [lo, i) to [lo, i + 1). */
  lemma BlankRangeStep(l: Line, width: nat, lo: int, i: int)
    requires width > 0 && LineShaped(l, width) && 0 <= i && i / width < |l|
    ensures LineShaped(BlankRange(l, width, lo, i), width)
    ensures lo <= i ==>
      Put(BlankRange(l, width, lo, i), width, i, ' ') == BlankRange(l, width, lo, i + 1)
  {
    var b := BlankRange(l, width, lo, i);
    assert LineShaped(b, width);
    if lo <= i {
      var p := Put(b, width, i, ' ');
      var b1 := BlankRange(l, width, lo, i + 1);
      assert |p| == |b1|;
      forall s | 0 <= s < |p|
        ensures p[s] == b1[s]
      {
        assert |p[s]| == |b1[s]|;
        forall j | 0 <= j < |p[s]|
          ensures p[s][j] == b1[s][j]
        {
          Unwrapped(s, j, width, i);
        }
      }
    }
  }

  /** A range that starts at or after the end of the row leaves it unchanged. */
  lemma BlankRangeEmpty(l: Line, width: nat, lo: int, hi: int)
    requires LineShaped(l, width) && width * |l| <= lo
    ensures BlankRange(l, width, lo, hi) == l
  {
    var b := BlankRange(l, width, lo, hi);
    forall s | 0 <= s < |l|
      ensures b[s] == l[s]
    {
      assert (s + 1) * width == s * width + width;
      MulMonotone(s + 1, |l|, width);
      assert |l| * width == width * |l|;
      assert forall j | 0 <= j < |l[s]| :: b[s][j] == l[s][j];
    }
  }

  /** Blanking [lo, n) and then [0, n) blanks [0, n). */
  lemma BlankRangeAbsorb(l: Line, width: nat, lo: int, n: int)
    requires LineShaped(l, width) && 0 <= lo
    ensures BlankRange(BlankRange(l, width, lo, n), width, 0, n) == BlankRange(l, width, 0, n)
  {
    var b, b2, b3 := BlankRange(l, width, lo, n), BlankRange(BlankRange(l, width, lo, n), width, 0, n), BlankRange(l, width, 0, n);
    forall s | 0 <= s < |l|
      ensures b2[s] == b3[s]
    {
      assert forall j | 0 <= j < |l[s]| :: b2[s][j] == b3[s][j];
    }
  }

  /** An empty range changes nothing. */
  lemma BlankRangeNone(l: Line, width: nat, lo: int, hi: int)
    requires hi <= lo
    ensures BlankRange(l, width, lo, hi) == l
  {
    var b := BlankRange(l, width, lo, hi);
    forall s | 0 <= s < |l|
      ensures b[s] == l[s]
    {
      assert forall j | 0 <= j < |l[s]| :: b[s][j] == l[s][j];
    }
  }

  /** Every cell of rows `row` and below overwritten by " " (`CSI J`). */
  function EraseRowsFrom(g: Grid, width: nat, row: int): Grid {
    seq(|g|, q requires 0 <= q < |g| =>
      if q >= row then BlankRange(g[q], width, 0, width * |g[q]|) else g[q])
  }

  // ---------------------------------------------------------------------
  // Rendering (updateHtml)
  // ---------------------------------------------------------------------

  /** JavaScript's `\s`: the ECMAScript WhiteSpace and LineTerminator characters. */
  predicate IsJsWhitespace(c: char) {
    c == '\t' || c == '\n' || c == '\U{B}' || c == '\U{C}' || c == '\r' || c == ' '
    || c == '\U{A0}' || c == '\U{1680}' || '\U{2000}' <= c <= '\U{200A}'
    || c == '\U{2028}' || c == '\U{2029}' || c == '\U{202F}' || c == '\U{205F}'
    || c == '\U{3000}' || c == '\U{FEFF}'
  }

  /** `t.match(/^\s+$/)`: at least one character, all whitespace. */
  predicate IsBlankText(t: string) {
    |t| > 0 && forall j | 0 <= j < |t| :: IsJsWhitespace(t[j])
  }

  /** The text of one segment: its cells left to right, an unset cell shown as ' '. */
  function SegmentText(seg: Segment): string {
    seq(|seg|, j requires 0 <= j < |seg| => if seg[j].Some? then seg[j].value else ' ')
  }

  /** `complete_row`: the texts of a row's segments. */
  function LineTexts(l: Line): seq<string> {
    seq(|l|, s requires 0 <= s < |l| => SegmentText(l[s]))
  }

  /**
    * How many segments the trailing-wrap trim keeps: it drops blank texts
    * from the end, stops at the first non-blank one and never drops
    * segment 0.
    */
  function Kept(texts: seq<string>): (n: nat)
    requires |texts| >= 1
    ensures 1 <= n <= |texts|
    ensures forall s | n <= s < |texts| :: IsBlankText(texts[s])
    ensures n == 1 || !IsBlankText(texts[n - 1])
    decreases |texts|
  {
    if |texts| > 1 && IsBlankText(texts[|texts| - 1]) then Kept(texts[..|texts| - 1]) else |texts|
  }

  /** Trimming what the trim kept removes nothing more. */
  lemma {:induction false} KeptIdempotent(texts: seq<string>)
    requires |texts| >= 1
    ensures Kept(texts[..Kept(texts)]) == Kept(texts)
    decreases |texts|
  {
    if |texts| > 1 && IsBlankText(texts[|texts| - 1]) {
      var init := texts[..|texts| - 1];
      KeptIdempotent(init);
      assert init[..Kept(init)] == texts[..Kept(texts)];
    } else {
      assert texts[..|texts|] == texts;
    }
  }

  /** `Kept` is the only count with its three properties. */
  lemma {:induction false} KeptUnique(texts: seq<string>, n: nat)
    requires 1 <= n <= |texts|
    requires forall s | n <= s < |texts| :: IsBlankText(texts[s])
    requires n == 1 || !IsBlankText(texts[n - 1])
    ensures Kept(texts) == n
    decreases |texts|
  {
    if |texts| > 1 && IsBlankText(texts[|texts| - 1]) {
      assert n < |texts|;
      KeptUnique(texts[..|texts| - 1], n);
    }
  }

  /** A row after the trim: the segments that survive. */
  function TrimLine(l: Line): Line
    requires |l| >= 1
  {
    l[..Kept(LineTexts(l))]
  }

  ghost predicate RowsNonEmpty(g: Grid) {
    forall r | 0 <= r < |g| :: |g[r]| >= 1
  }

  /** The grid after `updateHtml` popped the trailing blank segments of every row. */
  function TrimGrid(g: Grid): Grid
    requires RowsNonEmpty(g)
  {
    seq(|g|, r requires 0 <= r < |g| => TrimLine(g[r]))
  }

  /** What `updateHtml` writes: per row, the texts of the segments that survive the trim. */
  function Render(g: Grid): (out: seq<seq<string>>)
    requires RowsNonEmpty(g)
    ensures |out| == |g|
    ensures forall r | 0 <= r < |g| :: 1 <= |out[r]| <= |g[r]|
    ensures forall r, s | 0 <= r < |g| && 0 <= s < |out[r]| :: out[r][s] == SegmentText(g[r][s])
    ensures forall r, s | 0 <= r < |g| && |out[r]| <= s < |g[r]| :: IsBlankText(SegmentText(g[r][s]))
  {
    assert forall r, s | 0 <= r < |g| && 0 <= s < |g[r]| :: LineTexts(g[r])[s] == SegmentText(g[r][s]);
    seq(|g|, r requires 0 <= r < |g| => var ts := LineTexts(g[r]); ts[..Kept(ts)])
  }

  /**
    * The render contract: one entry per row; per row one string of exactly
    * `width` characters per surviving segment, showing each cell's
    * character or ' ' for an unset cell; the surviving segments are a
    * prefix of the row that always keeps segment 0; every dropped segment
    * renders as whitespace only, and the last kept one after segment 0
    * does not.
    */
  lemma RenderSpec(g: Grid, width: nat)
    requires width > 0 && Shaped(g, width)
    ensures var out, t := Render(g), TrimGrid(g);
      && |out| == |g| && |t| == |g| && Shaped(t, width)
      && (forall r | 0 <= r < |g| ::
            && |out[r]| == |t[r]|
            && 1 <= |t[r]| <= |g[r]|
            && t[r] == g[r][..|t[r]|]
            && (forall s | |t[r]| <= s < |g[r]| :: IsBlankText(SegmentText(g[r][s])))
            && (|t[r]| == 1 || !IsBlankText(SegmentText(g[r][|t[r]| - 1]))))
      && (forall r, s | 0 <= r < |g| && 0 <= s < |out[r]| ::
            |out[r][s]| == width
            && forall j | 0 <= j < width ::
                 out[r][s][j] == (if g[r][s][j].Some? then g[r][s][j].value else ' '))
  {
    var out, t := Render(g), TrimGrid(g);
    forall r | 0 <= r < |g|
      ensures |out[r]| == |t[r]| && 1 <= |t[r]| <= |g[r]| && t[r] == g[r][..|t[r]|]
      ensures forall s | |t[r]| <= s < |g[r]| :: IsBlankText(SegmentText(g[r][s]))
      ensures |t[r]| == 1 || !IsBlankText(SegmentText(g[r][|t[r]| - 1]))
    {
      var ts := LineTexts(g[r]);
      assert forall s | 0 <= s < |g[r]| :: ts[s] == SegmentText(g[r][s]);
    }
  }

  /** The trim keeps every row and the shape of the grid. */
  lemma TrimShaped(g: Grid, width: nat)
    requires Shaped(g, width)
    ensures |TrimGrid(g)| == |g| && Shaped(TrimGrid(g), width)
  {
    var t := TrimGrid(g);
    forall r | 0 <= r < |g|
      ensures LineShaped(t[r], width)
    {
      assert t[r] == g[r][..Kept(LineTexts(g[r]))];
    }
  }

  /** A second trim changes nothing: `updateHtml` run twice equals once. */
  lemma TrimGridIdempotent(g: Grid)
    requires RowsNonEmpty(g)
    ensures RowsNonEmpty(TrimGrid(g)) && TrimGrid(TrimGrid(g)) == TrimGrid(g)
  {
    var t := TrimGrid(g);
    forall r | 0 <= r < |g|
      ensures TrimLine(t[r]) == t[r]
    {
      var ts := LineTexts(g[r]);
      assert LineTexts(t[r]) == ts[..Kept(ts)];
      KeptIdempotent(ts);
    }
  }

  /** Blanking the cursor row from column lo first changes nothing once every row from the cursor row down is blanked. */
  lemma EraseRowsFromAbsorb(g: Grid, width: nat, row: int, lo: int)
    requires 0 <= row < |g| && 0 <= lo && LineShaped(g[row], width)
    ensures var g1 := g[row := BlankRange(g[row], width, lo, width * |g[row]|)];
      EraseRowsFrom(g1, width, row) == EraseRowsFrom(g, width, row)
  {
    var g1 := g[row := BlankRange(g[row], width, lo, width * |g[row]|)];
    BlankRangeAbsorb(g[row], width, lo, width * |g[row]|);
    var e1, e := EraseRowsFrom(g1, width, row), EraseRowsFrom(g, width, row);
    forall q | 0 <= q < |g|
      ensures e1[q] == e[q]
    {
      if q == row {
        assert |g1[q]| == |g[q]|;
      }
    }
  }
}
