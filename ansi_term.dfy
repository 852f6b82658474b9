/**
  * Class `AnsiTerm` of frontend/static/frontend/ansi_term.js: the cursor,
  * the saved cursor and the grid are fields updated in place, and every
  * method is proved against the pure model of ansi_model.dfy through
  * `State()`. The DOM spans that mirror the grid are not modelled.
  */
module AnsiTerminal {
  import opened Wrappers
  import opened Text
  import opened AnsiScreen
  import opened AnsiControl
  import opened AnsiModel
  import AnsiFacts

  class AnsiTerm {
    const width: nat
    var row: int
    var col: int
    /** `saved_cursor`; `None` while it is undefined. */
    var savedCursor: Option<Pos>
    /** Addressed as grid[row][wrapping][col]. */
    var grid: Grid

    function State(): Term
      reads this
    {
      Term(width, row, col, savedCursor, grid)
    }

    ghost predicate Valid()
      reads this
    {
      AnsiModel.Valid(State())
    }

    /** Starts from one empty row and lets `moveCursor(0, 0)` grow the grid. */
    constructor(width: nat)
      requires width > 0
      ensures Valid() && State() == Initial(width)
    {
      this.width := width;
      row := 0;
      col := 0;
      savedCursor := None;
      grid := [[EmptySegment(width)]];
      new;
      var ok := MoveCursor(row, col);
      AnsiFacts.InitialIsMoveCursor(width);
    }

    /** Back to the constructor's state, with the saved cursor at (0, 0). */
    method Clear()
      requires Valid()
      modifies this
      ensures Valid() && State() == Cleared(width)
    {
      row := 0;
      col := 0;
      savedCursor := Some(Pos(0, 0));
      grid := [[EmptySegment(width)]];
      var ok := MoveCursor(row, col);
      AnsiFacts.InitialIsMoveCursor(width);
      AnsiFacts.MoveToSpec(Term(width, 0, 0, Some(Pos(0, 0)), [[EmptySegment(width)]]), 0, 0);
    }

    /**
      * `insertText(text, r, c)`: writes cell c % width of segment c / width
      * of row r; reading a missing row or segment throws (`ok` false, no
      * change).
      */
    method InsertText(ch: char, r: int, c: int) returns (ok: bool)
      requires Valid()
      modifies this
      ensures Valid()
      ensures ok <==> 0 <= r < |old(grid)| && HasColumn(old(grid)[r], width, c)
      ensures ok ==> grid == old(grid)[r := Put(old(grid)[r], width, c, ch)]
      ensures !ok ==> grid == old(grid)
      ensures row == old(row) && col == old(col) && savedCursor == old(savedCursor)
    {
      if !(0 <= r < |grid|) {
        return false;
      }
      var wrapping := c / width;
      if !(0 <= wrapping < |grid[r]|) {
        return false;
      }
      PutShaped(grid[r], width, c, ch);
      grid := grid[r := grid[r][wrapping := grid[r][wrapping][c % width := Some(ch)]]];
      ok := true;
    }

    method InsertTextAtCursor(ch: char) returns (ok: bool)
      requires Valid()
      modifies this
      ensures Valid()
      ensures row == old(row) && col == old(col) && savedCursor == old(savedCursor)
      ensures ok <==> HasColumn(old(grid)[old(row)], width, old(col))
      ensures ok ==> grid == old(grid)[old(row) := Put(old(grid)[old(row)], width, old(col), ch)]
      ensures !ok ==> grid == old(grid)
    {
      ok := InsertText(ch, row, col);
    }

    /**
      * `moveCursor(r, c)`: appends rows until row r + 1 exists, then
      * segments to row r until segment c / width exists, then sets the
      * cursor. With r < 0 no row is appended and `grid[r]` throws.
      */
    method MoveCursor(r: int, c: int) returns (ok: bool)
      requires Grown(State())
      modifies this
      ensures ok <==> r >= 0
      ensures ok ==> Some(State()) == MoveTo(old(State()), r, c)
      ensures !ok ==> State() == old(State())
    {
      ghost var g0 := grid;
      var i := |grid| - 1;
      while i <= r
        invariant row == old(row) && col == old(col) && savedCursor == old(savedCursor)
        invariant |g0| - 1 <= i <= Max(|g0| - 1, r + 1)
        invariant |grid| == i + 1 && grid[..|g0|] == g0
        invariant forall x | |g0| <= x < |grid| :: grid[x] == [EmptySegment(width)]
      {
        grid := grid + [[EmptySegment(width)]];
        i := i + 1;
      }
      if r < 0 {
        assert grid == g0;
        return false; // `this.grid[row].length` on undefined
      }
      assert grid == GrowRows(g0, width, r);
      ghost var g1 := grid;
      var s := |grid[r]|;
      while s <= c / width
        invariant row == old(row) && col == old(col) && savedCursor == old(savedCursor)
        invariant |g1[r]| <= s <= Max(|g1[r]|, c / width + 1)
        invariant |grid| == |g1| && forall x | 0 <= x < |g1| && x != r :: grid[x] == g1[x]
        invariant |grid[r]| == s && grid[r][..|g1[r]|] == g1[r]
        invariant forall y | |g1[r]| <= y < s :: grid[r][y] == EmptySegment(width)
      {
        grid := grid[r := grid[r] + [EmptySegment(width)]];
        s := s + 1;
      }
      assert grid[r] == GrowLine(g1[r], width, c);
      assert grid == Grow(g0, width, r, c);
      row := r;
      col := c;
      ok := true;
    }

    /**
      * The erase loop `for (i = lo; i < width * grid[r].length; i++)
      * insertText(" ", r, i)`: blanks the unwrapped columns lo .. of row r;
      * the first write throws when lo < 0.
      */
    method EraseCells(r: int, lo: int) returns (ok: bool)
      requires Valid() && 0 <= r < |grid|
      modifies this
      ensures Valid()
      ensures ok <==> lo >= 0
      ensures ok ==> grid == old(grid)[r := BlankRange(old(grid)[r], width, lo, width * |old(grid)[r]|)]
      ensures !ok ==> grid == old(grid)
      ensures row == old(row) && col == old(col) && savedCursor == old(savedCursor)
    {
      ghost var l := grid[r];
      BlankRangeNone(l, width, lo, lo);
      var i := lo;
      while i < width * |grid[r]|
        invariant Valid() && row == old(row) && col == old(col) && savedCursor == old(savedCursor)
        invariant lo <= i <= Max(lo, width * |l|) && (lo < 0 ==> i == lo)
        invariant |grid| == |old(grid)| && |grid[r]| == |l|
        invariant lo >= 0 ==> grid == old(grid)[r := BlankRange(l, width, lo, i)]
        invariant lo < 0 ==> grid == old(grid)
      {
        if i >= 0 {
          ColumnInRow(grid[r], width, i);
          BlankRangeStep(l, width, lo, i);
        }
        ok := InsertText(' ', r, i);
        if !ok {
          return;
        }
        i := i + 1;
      }
      ok := true;
      if lo >= width * |l| {
        BlankRangeEmpty(l, width, lo, lo);
        BlankRangeEmpty(l, width, lo, width * |l|);
      }
    }

    /** The handler of one recognised escape sequence in `feed`. */
    method ApplyControl(k: Control) returns (ok: bool)
      requires Valid() && WellFormed(k)
      modifies this
      ensures Valid()
      ensures ok <==> Apply(old(State()), k).Some?
      ensures ok ==> State() == Apply(old(State()), k).value
      ensures !ok ==> State() == old(State())
    {
      match k
      case CursorMove(n, f) =>
        ok := MoveBy(n, f);
      case EraseLine(mode) =>
        ok := true;
        if mode == [] {
          ok := EraseCells(row, col);
        }
      case EraseDisplay(mode) =>
        ok := true;
        if mode == [] {
          ghost var g0 := grid;
          ok := EraseCells(row, col);
          if ok {
            EraseRowsFromAbsorb(g0, width, row, col);
            EraseBelow();
          }
        }
      case CursorPosition(p, _) =>
        var r := if p.Some? then Coordinate(p.value.0) else 0;
        var c := if p.Some? then Coordinate(p.value.1) else 0;
        ok := MoveCursor(r, c);
      case SaveCursor =>
        savedCursor := Some(Pos(row, col));
        ok := true;
      case RestoreCursor =>
        if savedCursor.None? {
          ok := false;
        } else {
          row := savedCursor.value.row;
          col := savedCursor.value.col;
          ok := true;
        }
      case _ =>
        ok := true;
    }

    /** `CSI n A` to `CSI n G`: the cursor moves by the count; up and left stop short of 0. */
    method MoveBy(n: string, f: char) returns (ok: bool)
      requires Valid() && WellFormed(CursorMove(n, f))
      modifies this
      ensures Valid()
      ensures ok <==> Apply(old(State()), CursorMove(n, f)).Some?
      ensures ok ==> Some(State()) == Apply(old(State()), CursorMove(n, f))
      ensures !ok ==> State() == old(State())
    {
      ghost var t0 := State();
      var v: int := Count(n);
      if f == 'A' {
        ok := true;
        if row - v > 0 {
          ok := MoveCursor(row - v, col);
        }
      } else if f == 'B' {
        assert Apply(t0, CursorMove(n, f)) == MoveTo(t0, row + v, col);
        ok := MoveCursor(row + v, col);
      } else if f == 'C' {
        assert Apply(t0, CursorMove(n, f)) == MoveTo(t0, row, col + v);
        ok := MoveCursor(row, col + v);
      } else if f == 'D' {
        ok := true;
        if col - v > 0 {
          ok := MoveCursor(row, col - v);
        }
      } else if f == 'E' {
        assert Apply(t0, CursorMove(n, f)) == MoveTo(t0, row + v, 0);
        ok := MoveCursor(row + v, 0);
      } else if f == 'G' {
        assert Apply(t0, CursorMove(n, f)) == MoveTo(t0, row, v - 1);
        ok := MoveCursor(row, v - 1);
      } else {
        ok := true;
      }
    }

    /** The second loop of `CSI J`: every cell of the cursor row and of the rows below becomes " ". */
    method EraseBelow()
      requires Valid()
      modifies this
      ensures Valid()
      ensures row == old(row) && col == old(col) && savedCursor == old(savedCursor)
      ensures grid == EraseRowsFrom(old(grid), width, row)
    {
      ghost var g0 := grid;
      var q := row;
      while q < |grid|
        invariant Valid() && row == old(row) && col == old(col) && savedCursor == old(savedCursor)
        invariant row <= q <= |grid| == |g0|
        invariant forall x | 0 <= x < |g0| ::
          grid[x] == if row <= x < q then BlankRange(g0[x], width, 0, width * |g0[x]|) else g0[x]
      {
        var ok := EraseCells(q, 0);
        q := q + 1;
      }
    }

    /**
      * One turn of the `feed` loop at index i: a control sequence, a
      * newline or a literal. Returns the next index, or `None` when the
      * turn throws, in which case the state is unchanged.
      */
    method FeedChar(text: string, i: nat) returns (next: Option<nat>)
      requires Valid() && i < |text|
      modifies this
      ensures Valid()
      ensures match Step(old(State()), text, i)
        case Crashed => next.None? && State() == old(State())
        case Next(u, j) => next == Some(j) && State() == u
    {
      var c := text[i];
      if c == ESC {
        var rest := text[i..if i + WindowLength <= |text| then i + WindowLength else |text|];
        assert rest == Window(text, i);
        var matches := Classify(rest);
        if matches.Some? {
          var ok := ApplyControl(matches.value);
          if !ok {
            return None;
          }
          next := Some(i + |Spelling(matches.value)|);
        } else {
          next := Some(i + 1); // unknown escape code
        }
      } else if c == '\n' {
        var ok := MoveCursor(row + 1, 0);
        next := Some(i + 1);
      } else {
        var ok := InsertTextAtCursor(c);
        if !ok {
          return None;
        }
        ok := MoveCursor(row, col + 1);
        next := Some(i + 1);
      }
    }

    /**
      * `feed(text)`: the loop over the characters, then `updateHtml`. The
      * result is the rendered screen, or `None` when a step throws, in
      * which case the state is the one reached before that step and
      * nothing is rendered.
      */
    method Feed(text: string) returns (screen: Option<seq<seq<string>>>)
      requires Valid()
      modifies this
      ensures Valid()
      ensures match RunFrom(old(State()), text, 0)
        case Stuck(t) => screen.None? && State() == t
        case Done(t) => screen == Some(Render(t.grid)) && State() == TrimState(t)
    {
      var i := 0;
      while i < |text|
        invariant 0 <= i <= |text| && Valid()
        invariant RunFrom(State(), text, i) == RunFrom(old(State()), text, 0)
        decreases |text| - i
      {
        RunStep(State(), text, i);
        var next := FeedChar(text, i);
        if next.None? {
          return None;
        }
        i := next.value;
      }
      var rendered := UpdateHtml();
      screen := Some(rendered);
    }

    /**
      * `updateHtml` without the DOM: per row the text of every segment,
      * then the trailing blank segments after segment 0 popped from the
      * texts and from `grid[row]`.
      */
    method UpdateHtml() returns (screen: seq<seq<string>>)
      requires Valid()
      modifies this
      ensures Valid()
      ensures screen == Render(old(grid))
      ensures State() == TrimState(old(State()))
    {
      ghost var g0 := grid;
      ghost var want := Render(g0);
      screen := [];
      var r := 0;
      while r < |grid|
        invariant 0 <= r <= |grid| == |g0| == |want| && Valid()
        invariant row == old(row) && col == old(col) && savedCursor == old(savedCursor)
        invariant screen == want[..r]
        invariant forall x | 0 <= x < |g0| :: grid[x] == if x < r then TrimLine(g0[x]) else g0[x]
      {
        var completeRow := TrimRow(r);
        screen := screen + [completeRow];
        r := r + 1;
      }
      assert grid == TrimGrid(g0);
      assert screen == want;
    }

    /** One row of `updateHtml`: its rendered texts, its trailing blank segments popped. */
    method TrimRow(r: nat) returns (texts: seq<string>)
      requires Valid() && r < |grid|
      modifies this
      ensures Valid()
      ensures row == old(row) && col == old(col) && savedCursor == old(savedCursor)
      ensures var ts := LineTexts(old(grid)[r]); texts == ts[..Kept(ts)]
      ensures grid == old(grid)[r := TrimLine(old(grid)[r])]
    {
      texts := RowTexts(grid[r]);
      texts := PopBlankWraps(r, texts);
    }

    /** The texts of one row's segments (`complete_row`), an unset cell shown as ' '. */
    static method RowTexts(line: Line) returns (texts: seq<string>)
      ensures texts == LineTexts(line)
    {
      texts := [];
      var wrap := 0;
      while wrap < |line|
        invariant 0 <= wrap <= |line|
        invariant texts == LineTexts(line)[..wrap]
      {
        var text: string := "";
        var j := 0;
        while j < |line[wrap]|
          invariant 0 <= j <= |line[wrap]|
          invariant text == SegmentText(line[wrap])[..j]
        {
          if line[wrap][j].Some? {
            text := text + [line[wrap][j].value];
          } else {
            text := text + " ";
          }
          j := j + 1;
        }
        assert text == LineTexts(line)[wrap];
        texts := texts + [text];
        wrap := wrap + 1;
      }
    }

    /**
      * The trim loop of row r: from the last segment down to segment 1,
      * pops each whitespace-only text from `texts` and its segment from
      * `grid[r]`, and stops at the first text that is not.
      */
    method PopBlankWraps(r: nat, texts: seq<string>) returns (kept: seq<string>)
      requires Valid() && r < |grid| && texts == LineTexts(grid[r])
      modifies this
      ensures Valid()
      ensures row == old(row) && col == old(col) && savedCursor == old(savedCursor)
      ensures kept == texts[..Kept(texts)]
      ensures grid == old(grid)[r := TrimLine(old(grid)[r])]
    {
      ghost var l := grid[r];
      kept := texts;
      var wrap := |kept| - 1;
      assert l[..wrap + 1] == l;
      while wrap > 0
        invariant 0 <= wrap < |texts|
        invariant row == old(row) && col == old(col) && savedCursor == old(savedCursor)
        invariant kept == texts[..wrap + 1]
        invariant grid == old(grid)[r := l[..wrap + 1]]
        invariant forall x | wrap < x < |texts| :: IsBlankText(texts[x])
      {
        if IsBlankText(kept[wrap]) {
          kept := kept[..wrap];
          assert grid[r][..wrap] == l[..wrap];
          grid := grid[r := grid[r][..wrap]];
          wrap := wrap - 1;
        } else {
          break;
        }
      }
      KeptUnique(texts, wrap + 1);
    }
  }
}
