/**
  * What one `feed` step does, stated per kind of input, for the model of
  * `AnsiTerm` in frontend/static/frontend/ansi_term.js.
  */
module AnsiFacts {
  import opened Wrappers
  import opened Text
  import opened AnsiScreen
  import opened AnsiControl
  import opened AnsiModel

  /** Every cell that exists in `g` holds the same value in `h`. */
  ghost predicate CellsKept(g: Grid, h: Grid) {
    && |g| <= |h|
    && (forall q | 0 <= q < |g| :: |g[q]| <= |h[q]|)
    && forall q, s | 0 <= q < |g| && 0 <= s < |g[q]| :: h[q][s] == g[q][s]
  }

  /**
    * `moveCursor(r, c)` with r >= 0: the cursor is exactly (r, c); there
    * are max(|grid|, r + 2) rows, so at least r + 2; row r has a segment
    * for column c; every new segment is `width` empty cells; no existing
    * cell changes and the saved cursor stays. With r < 0 it throws.
    */
  lemma MoveToSpec(t: Term, r: int, c: int)
    requires Grown(t)
    ensures MoveTo(t, r, c).None? <==> r < 0
    ensures r >= 0 ==>
      var u := MoveTo(t, r, c).value;
      && u.row == r && u.col == c && u.saved == t.saved && u.width == t.width
      && |u.grid| == Max(|t.grid|, r + 2) && |u.grid| >= r + 2
      && |u.grid[r]| > c / t.width
      && CellsKept(t.grid, u.grid)
      && (forall q, s | 0 <= q < |u.grid| && 0 <= s < |u.grid[q]| && (q >= |t.grid| || s >= |t.grid[q]|) ::
            u.grid[q][s] == EmptySegment(t.width))
  {
    if r >= 0 {
      GrowSpec(t.grid, t.width, r, c);
    }
  }

  /** The part of `MoveToSpec` the cursor sequences rely on. */
  lemma MoveToKeeps(t: Term, r: int, c: int)
    requires Grown(t) && r >= 0
    ensures MoveTo(t, r, c).Some?
    ensures var u := MoveTo(t, r, c).value;
      u.row == r && u.col == c && u.saved == t.saved && CellsKept(t.grid, u.grid)
  {
    MoveToSpec(t, r, c);
  }

  /** A character other than ESC and newline (so `\r` and `\t` too) is written as a literal and the index moves by one. */
  lemma StepLiteral(t: Term, text: string, i: nat)
    requires Valid(t) && i < |text| && text[i] != ESC && text[i] != '\n'
    ensures Step(t, text, i) == match Literal(t, text[i])
      case None => Crashed
      case Some(u) => Next(u, i + 1)
  {
  }

  /**
    * A literal is stored in cell col % width of segment col / width of the
    * cursor row, nothing else changes, and the cursor moves to
    * (row, col + 1). The write throws exactly when that segment does not
    * exist.
    */
  lemma LiteralSpec(t: Term, ch: char)
    requires Valid(t)
    ensures Literal(t, ch).None? <==> (t.col < 0 || t.col / t.width >= |t.grid[t.row]|)
    ensures Literal(t, ch).Some? ==>
      var u := Literal(t, ch).value;
      && u.row == t.row && u.col == t.col + 1 && u.saved == t.saved
      && u.grid[t.row][t.col / t.width][t.col % t.width] == Some(ch)
      && |u.grid| == Max(|t.grid|, t.row + 2)
      && (forall q | 0 <= q < |t.grid| :: |u.grid[q]| >= |t.grid[q]|)
      && (forall q, s, j | 0 <= q < |t.grid| && 0 <= s < |t.grid[q]| && 0 <= j < t.width
            && (q != t.row || s != t.col / t.width || j != t.col % t.width) ::
            u.grid[q][s][j] == t.grid[q][s][j])
  {
    var l := t.grid[t.row];
    if HasColumn(l, t.width, t.col) {
      var g1 := t.grid[t.row := Put(l, t.width, t.col, ch)];
      var t1 := t.(grid := g1);
      PutSpec(l, t.width, t.col, ch);
      PutShaped(l, t.width, t.col, ch);
      assert Grown(t1);
      MoveToSpec(t1, t.row, t.col + 1);
      assert Literal(t, ch) == MoveTo(t1, t.row, t.col + 1);
      var u := Literal(t, ch).value;
      assert CellsKept(g1, u.grid);
      forall q, s, j | 0 <= q < |t.grid| && 0 <= s < |t.grid[q]| && 0 <= j < t.width
        && (q != t.row || s != t.col / t.width || j != t.col % t.width)
        ensures u.grid[q][s][j] == t.grid[q][s][j]
      {
        assert u.grid[q][s] == g1[q][s];
      }
    }
  }

  /** `insertText` on a row: one cell takes the character, every other cell and the row's length stay. */
  lemma PutSpec(l: Line, width: nat, c: int, ch: char)
    requires width > 0 && LineShaped(l, width) && HasColumn(l, width, c)
    ensures var m := Put(l, width, c, ch);
      && |m| == |l| && m[c / width][c % width] == Some(ch)
      && forall s, j | 0 <= s < |l| && 0 <= j < width && (s != c / width || j != c % width) ::
           m[s][j] == l[s][j]
  {
  }

  /** A newline writes nothing and moves the cursor to (row + 1, 0). */
  lemma NewlineSpec(t: Term, text: string, i: nat)
    requires Valid(t) && i < |text| && text[i] == '\n'
    ensures Step(t, text, i).Next? && Step(t, text, i).next == i + 1
    ensures var u := Step(t, text, i).term;
      u.row == t.row + 1 && u.col == 0 && u.saved == t.saved && CellsKept(t.grid, u.grid)
  {
    MoveToSpec(t, t.row + 1, 0);
  }

  /** `CSI n A` moves up only when row - n > 0, so it never reaches row 0; cells stay. */
  lemma CursorUpSpec(t: Term, n: string)
    requires Valid(t) && AllDigits(n)
    ensures Apply(t, CursorMove(n, 'A')).Some?
    ensures var u := Apply(t, CursorMove(n, 'A')).value;
      && u.col == t.col && u.row == (if t.row - Count(n) > 0 then t.row - Count(n) else t.row)
      && (t.row != 0 ==> u.row != 0)
      && u.saved == t.saved && CellsKept(t.grid, u.grid)
  {
    if t.row - Count(n) > 0 {
      MoveToKeeps(t, t.row - Count(n), t.col);
    }
  }

  /** `CSI n B` moves down n rows (n defaults to 1) with no upper bound; cells stay. */
  lemma CursorDownSpec(t: Term, n: string)
    requires Valid(t) && AllDigits(n)
    ensures Apply(t, CursorMove(n, 'B')).Some?
    ensures var u := Apply(t, CursorMove(n, 'B')).value;
      u.row == t.row + Count(n) && u.col == t.col && u.saved == t.saved && CellsKept(t.grid, u.grid)
  {
    MoveToKeeps(t, t.row + Count(n), t.col);
  }

  /** `CSI n C` moves forward n columns with no upper bound; cells stay. */
  lemma CursorForwardSpec(t: Term, n: string)
    requires Valid(t) && AllDigits(n)
    ensures Apply(t, CursorMove(n, 'C')).Some?
    ensures var u := Apply(t, CursorMove(n, 'C')).value;
      u.row == t.row && u.col == t.col + Count(n) && u.saved == t.saved && CellsKept(t.grid, u.grid)
  {
    MoveToKeeps(t, t.row, t.col + Count(n));
  }

  /** `CSI n D` moves back only when col - n > 0, so it never reaches column 0; cells stay. */
  lemma CursorBackSpec(t: Term, n: string)
    requires Valid(t) && AllDigits(n)
    ensures Apply(t, CursorMove(n, 'D')).Some?
    ensures var u := Apply(t, CursorMove(n, 'D')).value;
      && u.row == t.row && u.col == (if t.col - Count(n) > 0 then t.col - Count(n) else t.col)
      && (t.col != 0 ==> u.col != 0)
      && u.saved == t.saved && CellsKept(t.grid, u.grid)
  {
    if t.col - Count(n) > 0 {
      MoveToKeeps(t, t.row, t.col - Count(n));
    }
  }

  /** `CSI n E` goes to column 0 of the row n below; cells stay. */
  lemma CursorNextLineSpec(t: Term, n: string)
    requires Valid(t) && AllDigits(n)
    ensures Apply(t, CursorMove(n, 'E')).Some?
    ensures var u := Apply(t, CursorMove(n, 'E')).value;
      u.row == t.row + Count(n) && u.col == 0 && u.saved == t.saved && CellsKept(t.grid, u.grid)
  {
    MoveToKeeps(t, t.row + Count(n), 0);
  }

  /** `CSI n F` is consumed and changes nothing. */
  lemma CursorPrevLineIgnored(t: Term, n: string)
    requires Valid(t) && AllDigits(n)
    ensures Apply(t, CursorMove(n, 'F')) == Some(t)
  {
  }

  /** `CSI n G` goes to column n - 1 of the same row, -1 for `CSI 0G`; cells stay. */
  lemma CursorColumnSpec(t: Term, n: string)
    requires Valid(t) && AllDigits(n)
    ensures Apply(t, CursorMove(n, 'G')).Some?
    ensures var u := Apply(t, CursorMove(n, 'G')).value;
      u.row == t.row && u.col == Count(n) - 1 && u.saved == t.saved && CellsKept(t.grid, u.grid)
  {
    MoveToKeeps(t, t.row, Count(n) - 1);
  }

  /**
    * `CSI K`: with a parameter nothing changes; without one, every cell of
    * the cursor row at unwrapped column col or later becomes " ", and it
    * throws when col is -1. The cursor never moves.
    */
  lemma EraseLineSpec(t: Term, mode: string)
    requires Valid(t) && AllDigits(mode)
    ensures var m := Apply(t, EraseLine(mode));
      && (mode != [] ==> m == Some(t))
      && (m.None? <==> mode == [] && t.col < 0)
      && (m.Some? ==>
            && m.value.row == t.row && m.value.col == t.col && m.value.saved == t.saved
            && |m.value.grid| == |t.grid|
            && (forall q | 0 <= q < |t.grid| :: |m.value.grid[q]| == |t.grid[q]|)
            && forall q, s, j | 0 <= q < |t.grid| && 0 <= s < |t.grid[q]| && 0 <= j < t.width ::
                 m.value.grid[q][s][j] ==
                   if mode == [] && q == t.row && s * t.width + j >= t.col then Some(' ')
                   else t.grid[q][s][j])
  {
    var m := Apply(t, EraseLine(mode));
    if mode == [] && t.col >= 0 {
      var l := t.grid[t.row];
      var b := BlankRange(l, t.width, t.col, t.width * |l|);
      BlankRangeShaped(l, t.width, t.col, t.width * |l|);
      assert m == Some(t.(grid := t.grid[t.row := b]));
      forall s, j | 0 <= s < |l| && 0 <= j < t.width
        ensures b[s][j] == if s * t.width + j >= t.col then Some(' ') else l[s][j]
      {
        assert s + 1 <= |l|;
        MulMonotone(s + 1, |l|, t.width);
        assert (s + 1) * t.width == s * t.width + t.width;
        assert |l| * t.width == t.width * |l|;
      }
    } else if mode != [] {
      assert m == Some(t);
    }
  }

  /**
    * `CSI J`: with a parameter nothing changes; without one, every cell of
    * the cursor row (before the cursor too) and of every row below becomes
    * " ", and it throws when col is -1. The cursor never moves.
    */
  lemma EraseDisplaySpec(t: Term, mode: string)
    requires Valid(t) && AllDigits(mode)
    ensures var m := Apply(t, EraseDisplay(mode));
      && (mode != [] ==> m == Some(t))
      && (m.None? <==> mode == [] && t.col < 0)
      && (m.Some? ==>
            && m.value.row == t.row && m.value.col == t.col && m.value.saved == t.saved
            && |m.value.grid| == |t.grid|
            && (forall q | 0 <= q < |t.grid| :: |m.value.grid[q]| == |t.grid[q]|)
            && forall q, s, j | 0 <= q < |t.grid| && 0 <= s < |t.grid[q]| && 0 <= j < t.width ::
                 m.value.grid[q][s][j] ==
                   if mode == [] && q >= t.row then Some(' ') else t.grid[q][s][j])
  {
    var m := Apply(t, EraseDisplay(mode));
    if mode == [] && t.col >= 0 {
      var e := EraseRowsFrom(t.grid, t.width, t.row);
      EraseRowsFromShaped(t.grid, t.width, t.row);
      assert m == Some(t.(grid := e));
      forall q, s, j | 0 <= q < |t.grid| && 0 <= s < |t.grid[q]| && 0 <= j < t.width
        ensures e[q][s][j] == if q >= t.row then Some(' ') else t.grid[q][s][j]
      {
        var l := t.grid[q];
        MulMonotone(s + 1, |l|, t.width);
        assert (s + 1) * t.width == s * t.width + t.width;
        assert |l| * t.width == t.width * |l|;
      }
    } else if mode != [] {
      assert m == Some(t);
    }
  }

  /**
    * `CSI r;c H` and `CSI r;c f` move to (r - 1, c - 1), an empty parameter
    * giving 0, so `CSI H` and `CSI ;H` go to (0, 0); row parameter 0 asks
    * for row -1 and throws. The saved cursor and existing cells stay.
    */
  lemma CursorPositionSpec(t: Term, p: Option<(string, string)>, f: char)
    requires Valid(t) && WellFormed(CursorPosition(p, f))
    ensures var m := Apply(t, CursorPosition(p, f));
      && (m.None? <==> p.Some? && p.value.0 != [] && DecimalValue(p.value.0) == 0)
      && (m.Some? ==>
            && m.value.row == (if p.None? || p.value.0 == [] then 0 else DecimalValue(p.value.0) - 1)
            && m.value.col == (if p.None? || p.value.1 == [] then 0 else DecimalValue(p.value.1) - 1)
            && m.value.saved == t.saved
            && CellsKept(t.grid, m.value.grid))
  {
    if p.Some? {
      MoveToSpec(t, Coordinate(p.value.0), Coordinate(p.value.1));
    } else {
      MoveToSpec(t, 0, 0);
    }
  }

  /** `CSI 5H`: a position with a row but no ';' matches none of the patterns. */
  lemma PositionWithoutSemicolon(d: string, f: char, rest: string)
    requires AllDigits(d) && d != [] && IsPositionFinal(f)
    ensures Classify([ESC, '['] + d + [f] + rest) == None
  {
    var w := [ESC, '['] + d + [f] + rest;
    assert forall k | 2 <= k < 2 + |d| :: w[k] == d[k - 2];
    assert w[2 + |d|] == f;
    PositionDigitsUnmatched(w, 2 + |d|);
  }

  /**
    * `CSI s` saves the cursor; `CSI u` sets row and col back to exactly
    * the saved pair without growing the grid, and throws when nothing was
    * saved since construction.
    */
  lemma SaveRestoreSpec(t: Term)
    requires Valid(t)
    ensures Apply(t, SaveCursor) == Some(t.(saved := Some(Pos(t.row, t.col))))
    ensures Apply(t, RestoreCursor).None? <==> t.saved.None?
    ensures Apply(t, RestoreCursor).Some? ==>
      var u := Apply(t, RestoreCursor).value;
      u.row == t.saved.value.row && u.col == t.saved.value.col && u.grid == t.grid && u.saved == t.saved
  {
  }

  /**
    * Saving, then any steps that do not save again, then restoring: the
    * cursor is back where it was saved and the cells written meanwhile stay.
    */
  lemma SaveThenRestore(t: Term, u: Term)
    requires Valid(t) && Valid(u)
    requires u.saved == Apply(t, SaveCursor).value.saved
    ensures Apply(u, RestoreCursor).Some?
    ensures var r := Apply(u, RestoreCursor).value;
      r.row == t.row && r.col == t.col && r.grid == u.grid
  {
    SaveRestoreSpec(t);
    SaveRestoreSpec(u);
  }

  /**
    * A matched sequence is consumed in one step: when the text at i spells
    * a well-formed sequence that fits the 20-character window, the step
    * applies it and continues right after it.
    */
  lemma SequenceSkipped(t: Term, text: string, i: nat, k: Control)
    requires Valid(t) && WellFormed(k) && |Spelling(k)| <= WindowLength
    requires i + |Spelling(k)| <= |text| && text[i..i + |Spelling(k)|] == Spelling(k)
    ensures Step(t, text, i) ==
      match Apply(t, k)
      case None => Crashed
      case Some(u) => Next(u, i + |Spelling(k)|)
  {
    var w := Window(text, i);
    assert Spelling(k) <= w;
    ClassifySpelling(k, w);
  }

  /** SGR, DEC private modes and `ESC ( B` are skipped whole and change neither the cursor nor the grid. */
  lemma IgnoredSequenceSkipped(t: Term, text: string, i: nat, k: Control)
    requires Valid(t) && WellFormed(k) && (k.Graphics? || k.PrivateMode? || k.Charset?)
    requires |Spelling(k)| <= WindowLength
    requires i + |Spelling(k)| <= |text| && text[i..i + |Spelling(k)|] == Spelling(k)
    ensures Step(t, text, i) == Next(t, i + |Spelling(k)|)
  {
    SequenceSkipped(t, text, i, k);
  }

  /**
    * When no well-formed sequence is spelled within the window, only the
    * ESC is dropped: the state is unchanged and the next character is
    * processed on its own.
    */
  lemma UnknownEscapeDropped(t: Term, text: string, i: nat)
    requires Valid(t) && i < |text| && text[i] == ESC
    requires forall k :: WellFormed(k) ==> !(Spelling(k) <= Window(text, i))
    ensures Step(t, text, i) == Next(t, i + 1)
  {
    ClassifyNone(Window(text, i));
  }

  /**
    * An SGR sequence whose digits run past the 20-character window is not
    * recognised: only its ESC is dropped, and the '[', the digits and the
    * 'm' then go to the screen as text.
    */
  lemma LongGraphicsNotRecognised(t: Term, text: string, i: nat, p: string)
    requires Valid(t) && AllDigits(p) && |p| >= WindowLength - 2
    requires i + |p| + 3 <= |text| && text[i..i + |p| + 3] == [ESC, '['] + p + ['m']
    ensures Step(t, text, i) == Next(t, i + 1)
  {
    var w := Window(text, i);
    var sp := [ESC, '['] + p + ['m'];
    assert w == sp[..WindowLength];
    assert forall k | 2 <= k < WindowLength :: w[k] == sp[k] == p[k - 2];
    assert w[0] == sp[0] && w[1] == sp[1];
    DigitsToEndUnmatched(w);
  }

  /** The constructor's `moveCursor(0, 0)` turns the single empty row into the initial two rows. */
  lemma InitialIsMoveCursor(width: nat)
    requires width > 0
    ensures MoveTo(Term(width, 0, 0, None, [[EmptySegment(width)]]), 0, 0) == Some(Initial(width))
    ensures Valid(Initial(width))
  {
    var t := Term(width, 0, 0, None, [[EmptySegment(width)]]);
    MoveToSpec(t, 0, 0);
    var u := MoveTo(t, 0, 0).value;
    assert |u.grid| == 2 && |u.grid[0]| == 1 && |u.grid[1]| == 1;
    assert u.grid[0] == [EmptySegment(width)];
    assert u.grid[1] == [EmptySegment(width)];
    assert u.grid == [[EmptySegment(width)], [EmptySegment(width)]];
  }

  /**
    * A literal written after the render trim popped the cursor's segment
    * throws: with width 2, feeding "ab" leaves the cursor at column 2 in
    * a blank second segment, `updateHtml` pops that segment, and the next
    * literal finds no segment 1.
    */
  lemma LiteralAfterTrimThrows()
    ensures Valid(Initial(2))
    ensures var r := RunFrom(Initial(2), "ab", 0);
      && r.Done? && r.term.row == 0 && r.term.col == 2 && |r.term.grid[0]| == 2
      && |TrimState(r.term).grid[0]| == 1
      && Step(TrimState(r.term), "c", 0) == Crashed
  {
    FeedTwoLiterals();
    TrimPopsCursorSegment(RunFrom(Initial(2), "ab", 0).term, 'c');
  }

  /** With width 2, "ab" fills segment 0 of row 0 and leaves the cursor at column 2, in a new empty segment 1. */
  lemma FeedTwoLiterals()
    ensures Valid(Initial(2))
    ensures var r := RunFrom(Initial(2), "ab", 0);
      && r.Done? && r.term.row == 0 && r.term.col == 2
      && |r.term.grid[0]| == 2 && r.term.grid[0][1] == EmptySegment(2)
  {
    InitialIsMoveCursor(2);
    var t0 := Initial(2);
    StepLiteral(t0, "ab", 0);
    LiteralSpec(t0, 'a');
    var t1 := Step(t0, "ab", 0).term;
    StepLiteral(t1, "ab", 1);
    LiteralSpec(t1, 'b');
    var t2 := Step(t1, "ab", 1).term;
    assert RunFrom(t0, "ab", 0) == RunFrom(t1, "ab", 1) == RunFrom(t2, "ab", 2) == Done(t2);
    MoveToSpec(t1.(grid := t1.grid[0 := Put(t1.grid[0], 2, 1, 'b')]), 0, 2);
  }

  /**
    * When the cursor sits at the start of a blank second segment of its
    * row, the render trim pops that segment and a literal then throws.
    */
  lemma TrimPopsCursorSegment(t: Term, ch: char)
    requires Valid(t) && t.col == t.width && ch != ESC && ch != '\n'
    requires |t.grid[t.row]| == 2 && t.grid[t.row][1] == EmptySegment(t.width)
    ensures |TrimState(t).grid[t.row]| == 1
    ensures Step(TrimState(t), [ch], 0) == Crashed
  {
    var ts := LineTexts(t.grid[t.row]);
    assert ts[1] == SegmentText(EmptySegment(t.width));
    assert IsBlankText(ts[1]);
    assert Kept(ts) == 1;
    StepLiteral(TrimState(t), [ch], 0);
    LiteralSpec(TrimState(t), ch);
  }

  /** There is a spare row below the cursor row and below a saved cursor row. */
  ghost predicate Spare(t: Term) {
    t.row + 2 <= |t.grid| && (t.saved.Some? ==> t.saved.value.row + 2 <= |t.grid|)
  }

  lemma MoveToKeepsSpare(t: Term, r: int, c: int)
    requires Grown(t) && r >= 0 && (t.saved.Some? ==> t.saved.value.row + 2 <= |t.grid|)
    ensures Spare(MoveTo(t, r, c).value)
  {
    MoveToSpec(t, r, c);
  }

  lemma ApplyKeepsSpare(t: Term, k: Control)
    requires Valid(t) && Spare(t) && WellFormed(k)
    ensures Apply(t, k).Some? ==> Spare(Apply(t, k).value)
  {
    match k
    case CursorMove(n, f) =>
      var v: int := Count(n);
      if f == 'A' && t.row - v > 0 {
        MoveToKeepsSpare(t, t.row - v, t.col);
      } else if f == 'B' {
        MoveToKeepsSpare(t, t.row + v, t.col);
      } else if f == 'C' {
        MoveToKeepsSpare(t, t.row, t.col + v);
      } else if f == 'D' && t.col - v > 0 {
        MoveToKeepsSpare(t, t.row, t.col - v);
      } else if f == 'E' {
        MoveToKeepsSpare(t, t.row + v, 0);
      } else if f == 'G' {
        MoveToKeepsSpare(t, t.row, v - 1);
      }
    case EraseLine(_) =>
    case EraseDisplay(_) =>
      EraseRowsFromShaped(t.grid, t.width, t.row);
    case CursorPosition(p, _) =>
      if p.Some? && Coordinate(p.value.0) >= 0 {
        MoveToKeepsSpare(t, Coordinate(p.value.0), Coordinate(p.value.1));
      } else if p.None? {
        MoveToKeepsSpare(t, 0, 0);
      }
    case _ =>
  }

  /** Every step keeps a spare row below the cursor and below the saved cursor. */
  lemma StepKeepsSpare(t: Term, text: string, i: nat)
    requires Valid(t) && Spare(t) && i < |text|
    ensures Step(t, text, i).Next? ==> Spare(Step(t, text, i).term)
  {
    if text[i] == ESC {
      var m := Classify(Window(text, i));
      if m.Some? {
        ApplyKeepsSpare(t, m.value);
      }
    } else if text[i] == '\n' {
      MoveToKeepsSpare(t, t.row + 1, 0);
    } else {
      LiteralSpec(t, text[i]);
    }
  }

  /**
    * A whole `feed` and the trim after it keep the spare rows: starting
    * from the constructor's or `clear`'s two rows, the row below the
    * cursor always exists.
    */
  lemma {:induction false} RunKeepsSpare(t: Term, text: string, i: nat)
    requires Valid(t) && Spare(t) && i <= |text|
    ensures Spare(RunFrom(t, text, i).term)
    ensures Spare(TrimState(RunFrom(t, text, i).term))
    decreases |text| - i
  {
    if i < |text| {
      StepKeepsSpare(t, text, i);
      match Step(t, text, i)
      case Crashed =>
      case Next(u, j) => RunKeepsSpare(u, text, j);
    }
    var r := RunFrom(t, text, i).term;
    RenderSpec(r.grid, r.width);
  }
}
