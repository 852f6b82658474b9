/**
  * The abstract state of `AnsiTerm` (frontend/static/frontend/ansi_term.js)
  * and the effect of every input character on it, as pure functions. The
  * class in ansi_term.dfy is proved against these functions.
  *
  * A JavaScript exception thrown while feeding (reading a missing row or
  * segment, reading an undefined `saved_cursor`) is a failure outcome:
  * every such throw happens before the step that throws has assigned
  * anything, so the state is the one before that step.
  */
module AnsiModel {
  import opened Wrappers
  import opened Text
  import opened AnsiScreen
  import opened AnsiControl

  datatype Pos = Pos(row: int, col: int)

  /** The fields `width`, `row`, `col`, `saved_cursor` (None while undefined) and `grid`. */
  datatype Term = Term(width: nat, row: int, col: int, saved: Option<Pos>, grid: Grid)

  /**
    * What holds of the state whenever `moveCursor` is called, also inside
    * the constructor and `clear` before their `moveCursor(0, 0)`: a saved
    * cursor row exists, because rows are never removed.
    */
  ghost predicate Grown(t: Term) {
    && t.width > 0
    && Shaped(t.grid, t.width)
    && |t.grid| >= 1
    && (t.saved.Some? ==> 0 <= t.saved.value.row < |t.grid|)
  }

  /** The invariant of a constructed terminal: besides, the cursor row exists. */
  ghost predicate Valid(t: Term) {
    Grown(t) && 0 <= t.row < |t.grid|
  }

  /** `moveCursor(r, c)`: grows the grid and sets the cursor; `grid[-1]` throws when r < 0. */
  function MoveTo(t: Term, r: int, c: int): (m: Option<Term>)
    requires Grown(t)
    ensures m.None? <==> r < 0
    ensures m.Some? ==> Valid(m.value)
  {
    if r < 0 then None
    else
      GrowSpec(t.grid, t.width, r, c);
      Some(t.(row := r, col := c, grid := Grow(t.grid, t.width, r, c)))
  }

  /** `parseInt(matches[1])` after an empty count was replaced by "1". */
  function Count(n: string): nat
    requires AllDigits(n)
  {
    if n == [] then 1 else DecimalValue(n)
  }

  /** `parseInt(p) - 1`, where an empty or absent parameter (NaN) gives 0. */
  function Coordinate(p: string): int
    requires AllDigits(p)
  {
    if p == [] then 0 else DecimalValue(p) - 1
  }

  lemma BlankRangeShaped(l: Line, width: nat, lo: int, hi: int)
    requires LineShaped(l, width)
    ensures LineShaped(BlankRange(l, width, lo, hi), width)
  {
  }

  lemma EraseRowsFromShaped(g: Grid, width: nat, row: int)
    requires Shaped(g, width)
    ensures Shaped(EraseRowsFrom(g, width, row), width) && |EraseRowsFrom(g, width, row)| == |g|
  {
    var e := EraseRowsFrom(g, width, row);
    forall q | 0 <= q < |g|
      ensures LineShaped(e[q], width)
    {
      BlankRangeShaped(g[q], width, 0, width * |g[q]|);
    }
  }

  /** The effect of one recognised escape sequence; `None` when its handler throws. */
  function Apply(t: Term, k: Control): (m: Option<Term>)
    requires Valid(t) && WellFormed(k)
    ensures m.Some? ==> Valid(m.value)
  {
    match k
    case CursorMove(n, f) =>
      var v := Count(n);
      if f == 'A' then (if t.row - v > 0 then MoveTo(t, t.row - v, t.col) else Some(t))
      else if f == 'B' then MoveTo(t, t.row + v, t.col)
      else if f == 'C' then MoveTo(t, t.row, t.col + v)
      else if f == 'D' then (if t.col - v > 0 then MoveTo(t, t.row, t.col - v) else Some(t))
      else if f == 'E' then MoveTo(t, t.row + v, 0)
      else if f == 'G' then MoveTo(t, t.row, v - 1)
      else Some(t) // 'F': the label meant for it is a second `case "E"`, so no case runs
    case EraseLine(mode) =>
      // the mode stays a string unless empty, and the strict switch only knows 0, 1, 2
      if mode != [] then Some(t)
      else if t.col < 0 then None // insertText at column -1 reads segment -1
      else
        var l := t.grid[t.row];
        BlankRangeShaped(l, t.width, t.col, t.width * |l|);
        Some(t.(grid := t.grid[t.row := BlankRange(l, t.width, t.col, t.width * |l|)]))
    case EraseDisplay(mode) =>
      if mode != [] then Some(t)
      else if t.col < 0 then None
      else
        EraseRowsFromShaped(t.grid, t.width, t.row);
        Some(t.(grid := EraseRowsFrom(t.grid, t.width, t.row)))
    case CursorPosition(p, _) =>
      if p.Some? then MoveTo(t, Coordinate(p.value.0), Coordinate(p.value.1))
      else MoveTo(t, 0, 0)
    case SaveCursor =>
      Some(t.(saved := Some(Pos(t.row, t.col))))
    case RestoreCursor =>
      if t.saved.None? then None // `this.saved_cursor[0]` on undefined
      else Some(t.(row := t.saved.value.row, col := t.saved.value.col))
    case _ =>
      Some(t) // SGR, DEC private modes and ESC ( B are consumed and ignored
  }

  lemma PutShaped(l: Line, width: nat, c: int, ch: char)
    requires width > 0 && LineShaped(l, width) && HasColumn(l, width, c)
    ensures LineShaped(Put(l, width, c, ch), width)
  {
  }

  /** A character other than ESC and newline: stored at the cursor, then `moveCursor(row, col + 1)`. */
  function Literal(t: Term, ch: char): (m: Option<Term>)
    requires Valid(t)
    ensures m.Some? ==> Valid(m.value)
  {
    var l := t.grid[t.row];
    if HasColumn(l, t.width, t.col) then
      PutShaped(l, t.width, t.col, ch);
      MoveTo(t.(grid := t.grid[t.row := Put(l, t.width, t.col, ch)]), t.row, t.col + 1)
    else None // the segment does not exist (column -1, or popped by the render trim)
  }

  /** Newline: `moveCursor(row + 1, 0)`; nothing is written. */
  function Newline(t: Term): (u: Term)
    requires Valid(t)
    ensures Valid(u)
  {
    MoveTo(t, t.row + 1, 0).value
  }

  /** `text.substring(i, i + 20)`. */
  function Window(text: string, i: nat): (w: string)
    requires i <= |text|
    ensures |w| <= WindowLength
  {
    text[i..if i + WindowLength <= |text| then i + WindowLength else |text|]
  }

  datatype Outcome = Crashed | Next(term: Term, next: nat)

  /** One iteration of the `feed` loop at index i: the new state and the next index. */
  function Step(t: Term, text: string, i: nat): (o: Outcome)
    requires Valid(t) && i < |text|
    ensures o.Next? ==> Valid(o.term) && i < o.next <= |text|
  {
    if text[i] == ESC then
      match Classify(Window(text, i))
      case None => Next(t, i + 1) // unknown escape code: only the ESC is dropped
      case Some(k) =>
        match Apply(t, k)
        case None => Crashed
        case Some(u) => Next(u, i + |Spelling(k)|)
    else if text[i] == '\n' then
      Next(Newline(t), i + 1)
    else
      match Literal(t, text[i])
      case None => Crashed
      case Some(u) => Next(u, i + 1)
  }

  /** A run of the `feed` loop: it ends with a state, or stops at the step that throws. */
  datatype Run = Done(term: Term) | Stuck(term: Term)

  function RunFrom(t: Term, text: string, i: nat): (r: Run)
    requires Valid(t) && i <= |text|
    ensures Valid(r.term)
    decreases |text| - i
  {
    if i == |text| then Done(t)
    else
      match Step(t, text, i)
      case Crashed => Stuck(t)
      case Next(u, j) => RunFrom(u, text, j)
  }

  /** One turn of the loop: a run continues from the step's result, or stops where the step throws. */
  lemma RunStep(t: Term, text: string, i: nat)
    requires Valid(t) && i < |text|
    ensures RunFrom(t, text, i) ==
      match Step(t, text, i)
      case Crashed => Stuck(t)
      case Next(u, j) => RunFrom(u, text, j)
  {
  }

  /** The state the constructor leaves: cursor (0, 0), two rows of one empty segment, no saved cursor. */
  function Initial(width: nat): Term {
    Term(width, 0, 0, None, [[EmptySegment(width)], [EmptySegment(width)]])
  }

  /** The state after `clear()`. */
  function Cleared(width: nat): Term {
    Initial(width).(saved := Some(Pos(0, 0)))
  }

  /** The state after `updateHtml`: the trailing blank segments popped from every row. */
  function TrimState(t: Term): (u: Term)
    requires Valid(t)
    ensures Valid(u)
  {
    TrimShaped(t.grid, t.width);
    t.(grid := TrimGrid(t.grid))
  }
}
