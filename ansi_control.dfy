/**
  * The escape-sequence classifier of `AnsiTerm.feed` in
  * frontend/static/frontend/ansi_term.js. After an ESC, `feed` tries a
  * fixed list of anchored regular expressions, in order, on the lookahead
  * window (at most 20 characters starting at the ESC); the first match
  * wins and `feed` skips the whole match. Here every regular expression is
  * a matcher function returning the decoded sequence, and `Spelling` is
  * the inverse: the characters that make up a decoded sequence.
  */
module AnsiControl {
  import opened Wrappers
  import opened Text

  const ESC: char := '\U{1B}'

  /** The window length: `text.substring(i, i + 20)`. */
  const WindowLength: nat := 20

  /** A recognised sequence, with its parameters as the raw matched text. */
  datatype Control =
    | CursorMove(count: string, final: char)                        // ESC [ \d* [A-G]
    | EraseLine(mode: string)                                       // ESC [ \d* K
    | EraseDisplay(mode: string)                                    // ESC [ \d* J
    | CursorPosition(rowCol: Option<(string, string)>, final: char) // ESC [ (\d*;\d*)? [Hf]
    | SaveCursor                                                    // ESC [ s
    | RestoreCursor                                                 // ESC [ u
    | Graphics(params: string)                                      // ESC [ [0-9;]* m
    | PrivateMode(params: string, final: char)                      // ESC [ ? [0-9;]* [hl]
    | Charset                                                       // ESC ( B

  predicate IsParamChar(c: char) {
    IsDigit(c) || c == ';'
  }

  predicate AllParamChars(s: string) {
    forall k | 0 <= k < |s| :: IsParamChar(s[k])
  }

  predicate IsPositionFinal(c: char) {
    c == 'H' || c == 'f'
  }

  /** The parameter and final-character shapes each regular expression admits. */
  predicate WellFormed(k: Control) {
    match k
    case CursorMove(n, f) => AllDigits(n) && 'A' <= f <= 'G'
    case EraseLine(m) => AllDigits(m)
    case EraseDisplay(m) => AllDigits(m)
    case CursorPosition(p, f) =>
      IsPositionFinal(f) && (p.Some? ==> AllDigits(p.value.0) && AllDigits(p.value.1))
    case Graphics(p) => AllParamChars(p)
    case PrivateMode(p, f) => AllParamChars(p) && (f == 'h' || f == 'l')
    case _ => true
  }

  /** The characters of a sequence, ESC included. */
  function Spelling(k: Control): (s: string)
    ensures |s| >= 3 && s[0] == ESC
  {
    match k
    case CursorMove(n, f) => [ESC, '['] + n + [f]
    case EraseLine(m) => [ESC, '['] + m + ['K']
    case EraseDisplay(m) => [ESC, '['] + m + ['J']
    case CursorPosition(p, f) =>
      [ESC, '['] + (if p.Some? then p.value.0 + [';'] + p.value.1 else []) + [f]
    case SaveCursor => [ESC, '[', 's']
    case RestoreCursor => [ESC, '[', 'u']
    case Graphics(p) => [ESC, '['] + p + ['m']
    case PrivateMode(p, f) => [ESC, '[', '?'] + p + [f]
    case Charset => [ESC, '(', 'B']
  }

  /** Length of the longest run of digits in `w` starting at i (what a greedy `\d*` takes). */
  function DigitRun(w: string, i: nat): (n: nat)
    requires i <= |w|
    ensures i + n <= |w|
    ensures forall k | i <= k < i + n :: IsDigit(w[k])
    ensures i + n == |w| || !IsDigit(w[i + n])
    decreases |w| - i
  {
    if i < |w| && IsDigit(w[i]) then 1 + DigitRun(w, i + 1) else 0
  }

  /** Length of the longest run of digits and ';' in `w` starting at i. */
  function ParamRun(w: string, i: nat): (n: nat)
    requires i <= |w|
    ensures i + n <= |w|
    ensures forall k | i <= k < i + n :: IsParamChar(w[k])
    ensures i + n == |w| || !IsParamChar(w[i + n])
    decreases |w| - i
  {
    if i < |w| && IsParamChar(w[i]) then 1 + ParamRun(w, i + 1) else 0
  }

  predicate IsCsi(w: string) {
    |w| >= 2 && w[0] == ESC && w[1] == '['
  }

  /*
   * A note on greediness: in every pattern below a run of digits (or of
   * digits and ';') is followed by a character that is neither, so the
   * only way the regular expression can match is with the longest run;
   * taking `DigitRun` / `ParamRun` is therefore what backtracking finds.
   */

  /** `/^\u001B\[(\d*)[A-G]/` */
  function MatchCursorMove(w: string): (m: Option<Control>)
    ensures m.Some? ==> WellFormed(m.value) && Spelling(m.value) <= w
  {
    if !IsCsi(w) then None
    else
      var e := 2 + DigitRun(w, 2);
      if e < |w| && 'A' <= w[e] <= 'G' then
        assert w[..e + 1] == [ESC, '['] + w[2..e] + [w[e]];
        Some(CursorMove(w[2..e], w[e]))
      else None
  }

  /** `/^\u001B\[(\d*)K/` */
  function MatchEraseLine(w: string): (m: Option<Control>)
    ensures m.Some? ==> WellFormed(m.value) && Spelling(m.value) <= w
  {
    if !IsCsi(w) then None
    else
      var e := 2 + DigitRun(w, 2);
      if e < |w| && w[e] == 'K' then
        assert w[..e + 1] == [ESC, '['] + w[2..e] + ['K'];
        Some(EraseLine(w[2..e]))
      else None
  }

  /** `/^\u001B\[(\d*)J/` */
  function MatchEraseDisplay(w: string): (m: Option<Control>)
    ensures m.Some? ==> WellFormed(m.value) && Spelling(m.value) <= w
  {
    if !IsCsi(w) then None
    else
      var e := 2 + DigitRun(w, 2);
      if e < |w| && w[e] == 'J' then
        assert w[..e + 1] == [ESC, '['] + w[2..e] + ['J'];
        Some(EraseDisplay(w[2..e]))
      else None
  }

  /** The parameter part of `/^\u001B\[(((\d*);(\d*))?)[Hf]/` after ESC [: `\d*;\d*` and the final. */
  function MatchPositionParams(w: string): (m: Option<Control>)
    requires IsCsi(w)
    ensures m.Some? ==> WellFormed(m.value) && Spelling(m.value) <= w
  {
    var e1 := 2 + DigitRun(w, 2);
    if e1 < |w| && w[e1] == ';' then
      var e2 := e1 + 1 + DigitRun(w, e1 + 1);
      if e2 < |w| && IsPositionFinal(w[e2]) then
        PositionPrefix(w, e1, e2);
        Some(CursorPosition(Some((w[2..e1], w[e1 + 1..e2])), w[e2]))
      else None
    else None
  }

  lemma PositionPrefix(w: string, e1: nat, e2: nat)
    requires IsCsi(w) && 2 <= e1 < e2 < |w| && w[e1] == ';'
    ensures w[..e2 + 1] == [ESC, '['] + (w[2..e1] + [';'] + w[e1 + 1..e2]) + [w[e2]]
  {
    assert w[..e2 + 1] == w[..2] + w[2..e1] + [w[e1]] + w[e1 + 1..e2] + [w[e2]];
  }

  /**
    * `/^\u001B\[(((\d*);(\d*))?)[Hf]/`: the optional group is tried first,
    * then the form without parameters.
    */
  function MatchCursorPosition(w: string): (m: Option<Control>)
    ensures m.Some? ==> WellFormed(m.value) && Spelling(m.value) <= w
  {
    if !IsCsi(w) then None
    else
      var withParams := MatchPositionParams(w);
      if withParams.Some? then withParams
      else if |w| > 2 && IsPositionFinal(w[2]) then
        assert w[..3] == [ESC, '['] + [] + [w[2]];
        Some(CursorPosition(None, w[2]))
      else None
  }

  /** `/^\u001B\[s/` */
  function MatchSaveCursor(w: string): (m: Option<Control>)
    ensures m.Some? ==> WellFormed(m.value) && Spelling(m.value) <= w
  {
    if IsCsi(w) && |w| > 2 && w[2] == 's' then Some(SaveCursor) else None
  }

  /** `/^\u001B\[u/` */
  function MatchRestoreCursor(w: string): (m: Option<Control>)
    ensures m.Some? ==> WellFormed(m.value) && Spelling(m.value) <= w
  {
    if IsCsi(w) && |w| > 2 && w[2] == 'u' then Some(RestoreCursor) else None
  }

  /** `/^\u001B\[((\d*)(((;+)(\d*))*))m/`, whose parameter part is any string of digits and ';'. */
  function MatchGraphics(w: string): (m: Option<Control>)
    ensures m.Some? ==> WellFormed(m.value) && Spelling(m.value) <= w
  {
    if !IsCsi(w) then None
    else
      var e := 2 + ParamRun(w, 2);
      if e < |w| && w[e] == 'm' then
        assert w[..e + 1] == [ESC, '['] + w[2..e] + ['m'];
        Some(Graphics(w[2..e]))
      else None
  }

  /** `/^\u001B\[\?((\d*)(((;+)(\d*))*))[hl]/` */
  function MatchPrivateMode(w: string): (m: Option<Control>)
    ensures m.Some? ==> WellFormed(m.value) && Spelling(m.value) <= w
  {
    if !(IsCsi(w) && |w| > 2 && w[2] == '?') then None
    else
      var e := 3 + ParamRun(w, 3);
      if e < |w| && (w[e] == 'h' || w[e] == 'l') then
        assert w[..e + 1] == [ESC, '[', '?'] + w[3..e] + [w[e]];
        Some(PrivateMode(w[3..e], w[e]))
      else None
  }

  /** `/^\u001B\(B/` */
  function MatchCharset(w: string): (m: Option<Control>)
    ensures m.Some? ==> WellFormed(m.value) && Spelling(m.value) <= w
  {
    if |w| >= 3 && w[0] == ESC && w[1] == '(' && w[2] == 'B' then Some(Charset) else None
  }

  /**
    * The classifier: the patterns in the order `feed` tries them; `None`
    * when none matches ("unknown escape code"). A match is always a
    * well-formed sequence whose spelling starts the window.
    */
  function Classify(w: string): (m: Option<Control>)
    ensures m.Some? ==> WellFormed(m.value) && Spelling(m.value) <= w
  {
    var cm := MatchCursorMove(w);
    if cm.Some? then cm else
    var el := MatchEraseLine(w);
    if el.Some? then el else
    var ed := MatchEraseDisplay(w);
    if ed.Some? then ed else
    var cp := MatchCursorPosition(w);
    if cp.Some? then cp else
    var sc := MatchSaveCursor(w);
    if sc.Some? then sc else
    var rc := MatchRestoreCursor(w);
    if rc.Some? then rc else
    var gr := MatchGraphics(w);
    if gr.Some? then gr else
    var pm := MatchPrivateMode(w);
    if pm.Some? then pm else
    MatchCharset(w)
  }

  // ---------------------------------------------------------------------
  // Completeness: the spelling of every well-formed sequence is recognised
  // ---------------------------------------------------------------------

  /** The digit run from j stops at `stop` when w[j..stop] are digits and w[stop] is not. */
  lemma {:induction false} DigitRunExact(w: string, j: nat, stop: nat)
    requires j <= stop < |w|
    requires forall k | j <= k < stop :: IsDigit(w[k])
    requires !IsDigit(w[stop])
    ensures DigitRun(w, j) == stop - j
    decreases stop - j
  {
    if j < stop {
      DigitRunExact(w, j + 1, stop);
    }
  }

  /** The run of digits and ';' from j stops at `stop` under the same conditions. */
  lemma {:induction false} ParamRunExact(w: string, j: nat, stop: nat)
    requires j <= stop < |w|
    requires forall k | j <= k < stop :: IsParamChar(w[k])
    requires !IsParamChar(w[stop])
    ensures ParamRun(w, j) == stop - j
    decreases stop - j
  {
    if j < stop {
      ParamRunExact(w, j + 1, stop);
    }
  }

  /** A digit run that reaches the end of the window takes all of it. */
  lemma {:induction false} DigitRunToEnd(w: string, j: nat)
    requires j <= |w|
    requires forall k | j <= k < |w| :: IsDigit(w[k])
    ensures DigitRun(w, j) == |w| - j
    decreases |w| - j
  {
    if j < |w| {
      DigitRunToEnd(w, j + 1);
    }
  }

  /** A run of digits and ';' that reaches the end of the window takes all of it. */
  lemma {:induction false} ParamRunToEnd(w: string, j: nat)
    requires j <= |w|
    requires forall k | j <= k < |w| :: IsParamChar(w[k])
    ensures ParamRun(w, j) == |w| - j
    decreases |w| - j
  {
    if j < |w| {
      ParamRunToEnd(w, j + 1);
    }
  }

  /** Inside a run of digits and ';' ending at `stop`, a digit run stops at a ';' or at `stop`. */
  lemma {:induction false} DigitRunInParams(w: string, j: nat, stop: nat)
    requires j <= stop < |w|
    requires forall k | j <= k < stop :: IsParamChar(w[k])
    requires !IsParamChar(w[stop])
    ensures j + DigitRun(w, j) <= stop
    ensures j + DigitRun(w, j) == stop || w[j + DigitRun(w, j)] == ';'
    decreases stop - j
  {
    if j < stop && IsDigit(w[j]) {
      DigitRunInParams(w, j + 1, stop);
    }
  }

  /** A window starting with the spelling of `k` has the spelling's characters at its front. */
  lemma SpellingAt(k: Control, w: string)
    requires Spelling(k) <= w
    ensures w[..|Spelling(k)|] == Spelling(k)
    ensures forall t | 0 <= t < |Spelling(k)| :: w[t] == Spelling(k)[t]
  {
  }

  lemma ClassifyCursorMove(n: string, f: char, w: string)
    requires WellFormed(CursorMove(n, f)) && Spelling(CursorMove(n, f)) <= w
    ensures Classify(w) == Some(CursorMove(n, f))
  {
    SpellingAt(CursorMove(n, f), w);
    assert forall t | 0 <= t < |n| :: w[2 + t] == n[t];
    DigitRunExact(w, 2, 2 + |n|);
    assert w[2..2 + |n|] == n;
    assert MatchCursorMove(w) == Some(CursorMove(n, f));
  }

  lemma ClassifyEraseLine(mode: string, w: string)
    requires WellFormed(EraseLine(mode)) && Spelling(EraseLine(mode)) <= w
    ensures Classify(w) == Some(EraseLine(mode))
  {
    SpellingAt(EraseLine(mode), w);
    assert forall t | 0 <= t < |mode| :: w[2 + t] == mode[t];
    DigitRunExact(w, 2, 2 + |mode|);
    assert w[2..2 + |mode|] == mode;
    assert MatchCursorMove(w) == None;
    assert MatchEraseLine(w) == Some(EraseLine(mode));
  }

  lemma ClassifyEraseDisplay(mode: string, w: string)
    requires WellFormed(EraseDisplay(mode)) && Spelling(EraseDisplay(mode)) <= w
    ensures Classify(w) == Some(EraseDisplay(mode))
  {
    SpellingAt(EraseDisplay(mode), w);
    assert forall t | 0 <= t < |mode| :: w[2 + t] == mode[t];
    DigitRunExact(w, 2, 2 + |mode|);
    assert w[2..2 + |mode|] == mode;
    assert MatchCursorMove(w) == None;
    assert MatchEraseLine(w) == None;
    assert MatchEraseDisplay(w) == Some(EraseDisplay(mode));
  }

  lemma ClassifyCursorPositionBare(f: char, w: string)
    requires IsPositionFinal(f) && |w| >= 3 && w[0] == ESC && w[1] == '[' && w[2] == f
    ensures Classify(w) == Some(CursorPosition(None, f))
  {
    DigitRunExact(w, 2, 2);
    assert MatchCursorMove(w) == None;
    assert MatchEraseLine(w) == None;
    assert MatchEraseDisplay(w) == None;
    assert w[..3] == [ESC, '['] + [] + [f];
  }

  lemma ClassifyCursorPositionParams(a: string, b: string, f: char, w: string)
    requires AllDigits(a) && AllDigits(b) && IsPositionFinal(f)
    requires 3 + |a| + |b| < |w| && w[0] == ESC && w[1] == '['
    requires w[2..2 + |a|] == a && w[2 + |a|] == ';'
    requires w[3 + |a|..3 + |a| + |b|] == b && w[3 + |a| + |b|] == f
    ensures Classify(w) == Some(CursorPosition(Some((a, b)), f))
  {
    assert forall t | 2 <= t < 2 + |a| :: w[t] == a[t - 2];
    assert forall t | 3 + |a| <= t < 3 + |a| + |b| :: w[t] == b[t - 3 - |a|];
    PositionParamsMatch(w, 2 + |a|, 3 + |a| + |b|);
  }

  /** ESC [, digits up to e1, ';', digits up to e2, then 'H' or 'f': the two runs are the row and column. */
  lemma PositionParamsMatch(w: string, e1: nat, e2: nat)
    requires IsCsi(w) && 2 <= e1 < e2 < |w| && w[e1] == ';' && IsPositionFinal(w[e2])
    requires forall t | 2 <= t < e1 :: IsDigit(w[t])
    requires forall t | e1 + 1 <= t < e2 :: IsDigit(w[t])
    ensures Classify(w) == Some(CursorPosition(Some((w[2..e1], w[e1 + 1..e2])), w[e2]))
  {
    DigitRunExact(w, 2, e1);
    DigitRunExact(w, e1 + 1, e2);
    assert MatchPositionParams(w) == Some(CursorPosition(Some((w[2..e1], w[e1 + 1..e2])), w[e2]));
    assert MatchCursorMove(w) == None;
    assert MatchEraseLine(w) == None;
    assert MatchEraseDisplay(w) == None;
  }

  lemma ClassifyCursorPosition(p: Option<(string, string)>, f: char, w: string)
    requires WellFormed(CursorPosition(p, f)) && Spelling(CursorPosition(p, f)) <= w
    ensures Classify(w) == Some(CursorPosition(p, f))
  {
    var sp := Spelling(CursorPosition(p, f));
    assert w[..|sp|] == sp;
    if p.Some? {
      var (a, b) := p.value;
      assert sp == [ESC, '['] + a + [';'] + b + [f];
      assert w[2..2 + |a|] == sp[2..2 + |a|] == a;
      assert w[3 + |a|..3 + |a| + |b|] == sp[3 + |a|..3 + |a| + |b|] == b;
      assert w[3 + |a| + |b|] == sp[3 + |a| + |b|];
      ClassifyCursorPositionParams(a, b, f, w);
    } else {
      assert sp == [ESC, '[', f];
      ClassifyCursorPositionBare(f, w);
    }
  }

  lemma ClassifySaveRestore(k: Control, w: string)
    requires k == SaveCursor || k == RestoreCursor
    requires Spelling(k) <= w
    ensures Classify(w) == Some(k)
  {
    SpellingAt(k, w);
    DigitRunExact(w, 2, 2);
    assert MatchCursorMove(w) == None;
    assert MatchEraseLine(w) == None;
    assert MatchEraseDisplay(w) == None;
    assert MatchCursorPosition(w) == None;
  }

  /** A window holding ESC [, then digits and ';' up to `stop`, then 'm', matches none of the patterns tried before SGR. */
  lemma GraphicsNotEarlier(w: string, stop: nat)
    requires 2 <= stop < |w| && w[0] == ESC && w[1] == '['
    requires forall k | 2 <= k < stop :: IsParamChar(w[k])
    requires w[stop] == 'm'
    ensures MatchCursorMove(w) == None && MatchEraseLine(w) == None && MatchEraseDisplay(w) == None
    ensures MatchCursorPosition(w) == None
    ensures MatchSaveCursor(w) == None && MatchRestoreCursor(w) == None
  {
    DigitRunInParams(w, 2, stop);
    var e1 := 2 + DigitRun(w, 2);
    if e1 < |w| && w[e1] == ';' {
      DigitRunInParams(w, e1 + 1, stop);
    }
  }

  lemma ClassifyGraphics(p: string, w: string)
    requires WellFormed(Graphics(p)) && Spelling(Graphics(p)) <= w
    ensures Classify(w) == Some(Graphics(p))
  {
    var stop := 2 + |p|;
    var sp := Spelling(Graphics(p));
    assert w[..|sp|] == sp;
    assert w[2..stop] == sp[2..stop] == p;
    assert w[stop] == sp[stop] == 'm';
    assert forall k | 2 <= k < stop :: w[k] == p[k - 2];
    GraphicsNotEarlier(w, stop);
    ParamRunExact(w, 2, stop);
  }

  lemma ClassifyPrivateMode(p: string, f: char, w: string)
    requires WellFormed(PrivateMode(p, f)) && Spelling(PrivateMode(p, f)) <= w
    ensures Classify(w) == Some(PrivateMode(p, f))
  {
    SpellingAt(PrivateMode(p, f), w);
    var stop := 3 + |p|;
    assert forall t | 0 <= t < |p| :: w[3 + t] == p[t];
    DigitRunExact(w, 2, 2);
    ParamRunExact(w, 2, 2);
    assert MatchCursorMove(w) == None;
    assert MatchEraseLine(w) == None;
    assert MatchEraseDisplay(w) == None;
    assert MatchCursorPosition(w) == None;
    assert MatchGraphics(w) == None;
    ParamRunExact(w, 3, stop);
    assert w[3..stop] == p;
    assert MatchPrivateMode(w) == Some(PrivateMode(p, f));
  }

  /** A window of ESC [ and digits up to a 'H' or 'f', with no ';', matches none of the patterns. */
  lemma PositionDigitsUnmatched(w: string, stop: nat)
    requires IsCsi(w) && 2 < stop < |w| && IsPositionFinal(w[stop])
    requires forall k | 2 <= k < stop :: IsDigit(w[k])
    ensures Classify(w) == None
  {
    DigitRunExact(w, 2, stop);
    ParamRunExact(w, 2, stop);
    assert MatchCursorMove(w) == None;
    assert MatchEraseLine(w) == None;
    assert MatchEraseDisplay(w) == None;
    assert MatchCursorPosition(w) == None;
    assert MatchGraphics(w) == None;
  }

  /** A window of ESC [ followed only by digits, up to its end, matches none of the patterns. */
  lemma DigitsToEndUnmatched(w: string)
    requires IsCsi(w) && |w| > 2
    requires forall k | 2 <= k < |w| :: IsDigit(w[k])
    ensures Classify(w) == None
  {
    DigitRunToEnd(w, 2);
    ParamRunToEnd(w, 2);
    assert MatchCursorMove(w) == None;
    assert MatchEraseLine(w) == None;
    assert MatchEraseDisplay(w) == None;
    assert MatchCursorPosition(w) == None;
    assert MatchGraphics(w) == None;
  }

  /**
    * Every well-formed sequence is recognised from its spelling, whatever
    * follows it: together with the contract of `Classify`, the classifier
    * returns `k` exactly when the window starts with the spelling of `k`.
    */
  lemma ClassifySpelling(k: Control, w: string)
    requires WellFormed(k) && Spelling(k) <= w
    ensures Classify(w) == Some(k)
  {
    match k
    case CursorMove(n, f) => ClassifyCursorMove(n, f, w);
    case EraseLine(mode) => ClassifyEraseLine(mode, w);
    case EraseDisplay(mode) => ClassifyEraseDisplay(mode, w);
    case CursorPosition(p, f) => ClassifyCursorPosition(p, f, w);
    case SaveCursor => ClassifySaveRestore(k, w);
    case RestoreCursor => ClassifySaveRestore(k, w);
    case Graphics(p) => ClassifyGraphics(p, w);
    case PrivateMode(p, f) => ClassifyPrivateMode(p, f, w);
    case Charset =>
      SpellingAt(k, w);
  }

  /** Two well-formed sequences whose spellings both start a window are the same sequence. */
  lemma SpellingUnambiguous(k1: Control, k2: Control, w: string)
    requires WellFormed(k1) && Spelling(k1) <= w
    requires WellFormed(k2) && Spelling(k2) <= w
    ensures k1 == k2
  {
    ClassifySpelling(k1, w);
    ClassifySpelling(k2, w);
  }

  /** No pattern matches exactly when no well-formed sequence's spelling starts the window. */
  lemma ClassifyNone(w: string)
    ensures Classify(w).None? <==> forall k :: WellFormed(k) ==> !(Spelling(k) <= w)
  {
    if Classify(w).None? {
      forall k | WellFormed(k)
        ensures !(Spelling(k) <= w)
      {
        if Spelling(k) <= w {
          ClassifySpelling(k, w);
        }
      }
    }
  }
}
