/**
  * Python's `shlex.split(s)`: the lexer of the `shlex` module in POSIX
  * mode, with `whitespace_split` set and no comment characters. The
  * application splits a program's argument string with it before sending
  * the `execute` command, and validates stored argument strings by it.
  */
module Shlex {
  import opened Wrappers
  import opened Text

  /** The two `ValueError`s the lexer raises. */
  datatype ShlexError = NoClosingQuotation | NoEscapedCharacter

  /**
    * The lexer's `state`: between tokens (' '), inside a word ('a'), inside
    * single or double quotes, or just after a backslash, remembering whether
    * it was met in a word or inside double quotes (`escapedstate`).
    */
  datatype LexState = Space | Word | SingleQuoted | DoubleQuoted | EscapeInWord | EscapeInDouble

  /** `shlex.whitespace`. */
  predicate IsShlexSpace(c: char) {
    c == ' ' || c == '\t' || c == '\r' || c == '\n'
  }

  /** A character with no meaning to the lexer: it is simply part of the word. */
  predicate IsPlain(c: char) {
    !IsShlexSpace(c) && c != '\'' && c != '"' && c != '\\'
  }

  /** What `read_token` yields for a finished token: nothing for an empty token that met no quote. */
  function Emit(token: string, quoted: bool): seq<string> {
    if token != [] || quoted then [token] else []
  }

  /** The tokens `ts` followed by those of `r`; an error stays the error. */
  function Prepend(ts: seq<string>, r: Result<seq<string>, ShlexError>): Result<seq<string>, ShlexError> {
    match r
    case Ok(rest) => Ok(ts + rest)
    case Err(e) => Err(e)
  }

  /**
    * The tokens of `s` read from state `st`, with `token` read so far and
    * `quoted` recording whether the current token met a quote.
    */
  function Lex(s: string, st: LexState, token: string, quoted: bool): Result<seq<string>, ShlexError>
    decreases |s|, 1
  {
    if s == [] then
      match st
      case SingleQuoted => Err(NoClosingQuotation)
      case DoubleQuoted => Err(NoClosingQuotation)
      case EscapeInWord => Err(NoEscapedCharacter)
      case EscapeInDouble => Err(NoEscapedCharacter)
      case Space => Ok(Emit(token, quoted))
      case Word => Ok(Emit(token, quoted))
    else
      LexChar(s[0], s[1..], st, token, quoted)
  }

  /**
    * One character `c` read in state `st`, followed by the rest of the
    * input. Between tokens the token read so far is always empty, so the
    * ' ' and 'a' states act alike.
    */
  function LexChar(c: char, rest: string, st: LexState, token: string, quoted: bool): Result<seq<string>, ShlexError>
    decreases |rest| + 1, 0
  {
    match st
    case SingleQuoted =>
      if c == '\'' then Lex(rest, Word, token, true) else Lex(rest, SingleQuoted, token + [c], true)
    case DoubleQuoted =>
      if c == '"' then Lex(rest, Word, token, true)
      else if c == '\\' then Lex(rest, EscapeInDouble, token, true)
      else Lex(rest, DoubleQuoted, token + [c], true)
    case EscapeInWord =>
      Lex(rest, Word, token + [c], quoted)
    case EscapeInDouble =>
      // inside double quotes only `\` and `"` can be escaped; before any other character the backslash stays
      var kept := if c != '\\' && c != '"' then token + ['\\'] else token;
      Lex(rest, DoubleQuoted, kept + [c], quoted)
    case Space | Word =>
      if IsShlexSpace(c) then Prepend(Emit(token, quoted), Lex(rest, Space, [], false))
      else if c == '\'' then Lex(rest, SingleQuoted, token, quoted)
      else if c == '"' then Lex(rest, DoubleQuoted, token, quoted)
      else if c == '\\' then Lex(rest, EscapeInWord, token, quoted)
      else Lex(rest, Word, token + [c], quoted)
  }

  /** Reading a non-empty input is reading its first character. */
  lemma LexCons(c: char, rest: string, st: LexState, token: string, quoted: bool)
    ensures Lex([c] + rest, st, token, quoted) == LexChar(c, rest, st, token, quoted)
  {
    assert ([c] + rest)[0] == c && ([c] + rest)[1..] == rest;
  }

  /** `shlex.split(s)`: every token of `s`, or the `ValueError` the lexer raises. */
  function Split(s: string): Result<seq<string>, ShlexError> {
    Lex(s, Space, [], false)
  }

  /* ---------------- reading a piece of input ---------------- */

  /** A run of plain characters is added to the word being read. */
  lemma {:induction false} LexPlain(w: string, rest: string, st: LexState, token: string, quoted: bool)
    requires st == Space || st == Word
    requires w != [] && forall k | 0 <= k < |w| :: IsPlain(w[k])
    ensures Lex(w + rest, st, token, quoted) == Lex(rest, Word, token + w, quoted)
    decreases |w|
  {
    var s := w + rest;
    assert s[0] == w[0] && s[1..] == w[1..] + rest;
    if |w| == 1 {
      assert w[1..] + rest == rest;
      assert token + w == token + [w[0]];
    } else {
      LexPlain(w[1..], rest, Word, token + [w[0]], quoted);
      assert token + [w[0]] + w[1..] == token + w;
    }
  }

  /** A single-quoted text without `'` is added to the word as it is. */
  lemma {:induction false} LexSingleQuoted(w: string, rest: string, token: string, quoted: bool)
    requires '\'' !in w
    ensures Lex(w + "'" + rest, SingleQuoted, token, quoted) == Lex(rest, Word, token + w, true)
    decreases |w|
  {
    var s := w + "'" + rest;
    if w == [] {
      assert s[0] == '\'' && s[1..] == rest;
      assert token + w == token;
    } else {
      assert w[0] in w;
      assert s[0] == w[0] && s[1..] == w[1..] + "'" + rest;
      assert '\'' !in w[1..] by {
        forall k | 0 <= k < |w[1..]| ensures w[1..][k] != '\'' {
          assert w[1..][k] == w[k + 1];
        }
      }
      LexSingleQuoted(w[1..], rest, token + [w[0]], true);
      assert token + [w[0]] + w[1..] == token + w;
    }
  }

  /* ---------------- quoting: the inverse of the lexer ---------------- */

  /** How `shlex.quote` writes a `'` inside single quotes: close, a double-quoted `'`, reopen. */
  const QuotedQuote: string := "'\"'\"'"

  /**
    * `shlex.quote` for a word it must quote: the word in single quotes,
    * each `'` written as `QuotedQuote`. (`shlex.quote` leaves a word of
    * safe characters bare; `SplitPlainWords` covers those.)
    */
  function Quote(w: string): string {
    "'" + Replace(w, "'", QuotedQuote) + "'"
  }

  /** The quoted body of a word, closing quote included, reads back as the word. */
  lemma {:induction false} LexQuoteBody(w: string, rest: string, token: string, quoted: bool)
    ensures Lex(Replace(w, "'", QuotedQuote) + "'" + rest, SingleQuoted, token, quoted) == Lex(rest, Word, token + w, true)
    decreases |w|
  {
    var body := Replace(w, "'", QuotedQuote);
    if |w| == 0 {
      assert body == [];
      LexSingleQuoted([], rest, token, quoted);
      assert token + w == token;
    } else if w[..1] == "'" {
      var tail := Replace(w[1..], "'", QuotedQuote) + "'" + rest;
      assert body + "'" + rest == "'" + ("\"" + ("'" + ("\"" + ("'" + tail))));
      var t := token + "'";
      calc {
        Lex("'" + ("\"" + ("'" + ("\"" + ("'" + tail)))), SingleQuoted, token, quoted);
        { LexCons('\'', "\"" + ("'" + ("\"" + ("'" + tail))), SingleQuoted, token, quoted); }
        Lex("\"" + ("'" + ("\"" + ("'" + tail))), Word, token, true);
        { LexCons('"', "'" + ("\"" + ("'" + tail)), Word, token, true); }
        Lex("'" + ("\"" + ("'" + tail)), DoubleQuoted, token, true);
        { LexCons('\'', "\"" + ("'" + tail), DoubleQuoted, token, true); }
        Lex("\"" + ("'" + tail), DoubleQuoted, t, true);
        { LexCons('"', "'" + tail, DoubleQuoted, t, true); }
        Lex("'" + tail, Word, t, true);
        { LexCons('\'', tail, Word, t, true); }
        Lex(tail, SingleQuoted, t, true);
        { LexQuoteBody(w[1..], rest, t, true); }
        Lex(rest, Word, t + w[1..], true);
        { assert t + w[1..] == token + w by { assert w == [w[0]] + w[1..]; } }
        Lex(rest, Word, token + w, true);
      }
    } else {
      var tail := Replace(w[1..], "'", QuotedQuote) + "'" + rest;
      assert w[0] != '\'' by { assert w[..1] == [w[0]]; }
      assert body + "'" + rest == [w[0]] + tail;
      assert ([w[0]] + tail)[1..] == tail;
      LexQuoteBody(w[1..], rest, token + [w[0]], true);
      assert token + [w[0]] + w[1..] == token + w;
    }
  }

  /** The quoted words, one per word. */
  function QuoteAll(words: seq<string>): (qs: seq<string>)
    ensures |qs| == |words|
  {
    if words == [] then [] else [Quote(words[0])] + QuoteAll(words[1..])
  }

  /** Quoting any words and joining them with spaces splits back into exactly those words. */
  lemma {:induction false} SplitQuotedWords(words: seq<string>)
    ensures Split(Join(QuoteAll(words), ' ')) == Ok(words)
  {
    LexQuotedWords(words);
  }

  lemma {:induction false} LexQuotedWords(words: seq<string>)
    ensures Lex(Join(QuoteAll(words), ' '), Space, [], false) == Ok(words)
  {
    var qs := QuoteAll(words);
    if |words| == 0 {
      assert Join(qs, ' ') == [];
    } else {
      var w := words[0];
      var body := Replace(w, "'", QuotedQuote);
      var after := if |words| == 1 then "" else " " + Join(qs[1..], ' ');
      assert Join(qs, ' ') == "'" + (body + "'" + after) by {
        if |words| > 1 {
          assert Join(qs, ' ') == qs[0] + [' '] + Join(qs[1..], ' ');
        }
      }
      assert ("'" + (body + "'" + after))[1..] == body + "'" + after;
      LexQuoteBody(w, after, [], false);
      assert [] + w == w;
      if |words| == 1 {
        assert words == [w];
      } else {
        assert qs[1..] == QuoteAll(words[1..]);
        LexQuotedWords(words[1..]);
        assert after[0] == ' ' && after[1..] == Join(qs[1..], ' ');
        assert [w] + words[1..] == words;
      }
    }
  }

  /** Words of plain characters joined by single spaces split back into those words. */
  lemma {:induction false} SplitPlainWords(words: seq<string>)
    requires forall i | 0 <= i < |words| :: words[i] != [] && forall k | 0 <= k < |words[i]| :: IsPlain(words[i][k])
    ensures Split(Join(words, ' ')) == Ok(words)
  {
    if |words| == 0 {
      assert Join(words, ' ') == [];
    } else {
      var w := words[0];
      var after := if |words| == 1 then "" else " " + Join(words[1..], ' ');
      assert Join(words, ' ') == w + after by {
        if |words| > 1 {
          assert Join(words, ' ') == words[0] + [' '] + Join(words[1..], ' ');
        }
      }
      LexPlain(w, after, Space, [], false);
      assert [] + w == w;
      if |words| == 1 {
        assert words == [w];
      } else {
        SplitPlainWords(words[1..]);
        assert after[0] == ' ' && after[1..] == Join(words[1..], ' ');
        assert [w] + words[1..] == words;
      }
    }
  }

  /* ---------------- the errors ---------------- */

  /** A quote opened after a plain word and never closed raises "No closing quotation". */
  lemma UnclosedQuote(w: string, q: char, text: string)
    requires forall k | 0 <= k < |w| :: IsPlain(w[k])
    requires q == '\'' || q == '"'
    requires q !in text && '\\' !in text
    ensures Split(w + [q] + text) == Err(NoClosingQuotation)
  {
    var st := if q == '\'' then SingleQuoted else DoubleQuoted;
    if w == [] {
      assert w + [q] + text == [q] + text;
      LexCons(q, text, Space, [], false);
    } else {
      LexPlain(w, [q] + text, Space, [], false);
      assert w + [q] + text == w + ([q] + text);
      assert [] + w == w;
      LexCons(q, text, Word, w, false);
    }
    LexQuotedToEnd(text, st, w, false);
  }

  /** Inside quotes, text without the closing quote or a backslash runs into the end of the input. */
  lemma {:induction false} LexQuotedToEnd(text: string, st: LexState, token: string, quoted: bool)
    requires st == SingleQuoted || st == DoubleQuoted
    requires st == SingleQuoted ==> '\'' !in text
    requires st == DoubleQuoted ==> '"' !in text && '\\' !in text
    ensures Lex(text, st, token, quoted) == Err(NoClosingQuotation)
    decreases |text|
  {
    if text != [] {
      assert text[0] in text;
      assert forall c | c in text[1..] :: c in text;
      LexQuotedToEnd(text[1..], st, token + [text[0]], true);
    }
  }

  /** A backslash as the last character raises "No escaped character". */
  lemma TrailingBackslash(w: string)
    requires forall k | 0 <= k < |w| :: IsPlain(w[k])
    ensures Split(w + "\\") == Err(NoEscapedCharacter)
  {
    if w == [] {
      assert w + "\\" == ['\\'] + [];
      LexCons('\\', [], Space, [], false);
    } else {
      LexPlain(w, "\\", Space, [], false);
      assert [] + w == w;
      LexCons('\\', [], Word, w, false);
    }
  }

  /**
    * Inside double quotes a backslash escapes only `\` and `"`: before any
    * other character `c` it is kept, so `"\c"` is the token `\c`, while
    * `"\""` is `"` and `"\\"` is `\`.
    */
  lemma BackslashInDoubleQuotes(c: char)
    requires c != '\\' && c != '"'
    ensures Split(['"', '\\', c, '"']) == Ok([['\\', c]])
    ensures Split(['"', '\\', '"', '"']) == Ok([['"']])
    ensures Split(['"', '\\', '\\', '"']) == Ok([['\\']])
  {
    DoubleQuotedEscape(c);
    DoubleQuotedEscape('"');
    DoubleQuotedEscape('\\');
    assert ['\\'] + [c] == ['\\', c];
    assert [] + ['"'] == ['"'] && [] + ['\\'] == ['\\'];
  }

  /** The steps of reading `"\x"`: open, backslash, the escaped character, close. */
  lemma DoubleQuotedEscape(x: char)
    ensures Split(['"', '\\', x, '"']) ==
      Ok([(if x != '\\' && x != '"' then ['\\'] else []) + [x]])
  {
    var kept: string := if x != '\\' && x != '"' then ['\\'] else [];
    assert ['"', '\\', x, '"'] == ['"'] + (['\\'] + ([x] + (['"'] + [])));
    LexCons('"', ['\\'] + ([x] + (['"'] + [])), Space, [], false);
    LexCons('\\', [x] + (['"'] + []), DoubleQuoted, [], false);
    LexCons(x, ['"'] + [], EscapeInDouble, [], true);
    assert (if x != '\\' && x != '"' then [] + ['\\'] else []) == kept;
    LexCons('"', [], DoubleQuoted, kept + [x], true);
  }

  /** Outside quotes a backslash escapes any character: `a\ b` is the one token `a b`. */
  lemma EscapeInWordRule()
    ensures Split("a\\ b") == Ok(["a b"])
  {
    assert "a\\ b" == ['a'] + (['\\'] + ([' '] + (['b'] + [])));
    LexCons('a', ['\\'] + ([' '] + (['b'] + [])), Space, [], false);
    LexCons('\\', [' '] + (['b'] + []), Word, "a", false);
    LexCons(' ', ['b'] + [], EscapeInWord, "a", false);
    LexCons('b', [], Word, "a ", false);
    assert [] + ['a'] == "a" && "a" + [' '] == "a " && "a " + ['b'] == "a b";
  }

  /** A pair of quotes with nothing inside is an empty token of its own. */
  lemma EmptyQuotedToken()
    ensures Split("'' x") == Ok(["", "x"])
  {
    assert "'' x" == ['\''] + (['\''] + ([' '] + (['x'] + [])));
    LexCons('\'', ['\''] + ([' '] + (['x'] + [])), Space, [], false);
    LexCons('\'', [' '] + (['x'] + []), SingleQuoted, [], false);
    LexCons(' ', ['x'] + [], Word, [], true);
    LexCons('x', [], Space, [], false);
    assert [] + ['x'] == "x";
    assert Lex(['x'] + [], Space, [], false) == Ok(["x"]);
    assert [""] + ["x"] == ["", "x"];
  }
}
