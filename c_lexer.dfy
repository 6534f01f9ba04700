/**
 * The tokenizer of the C rewrite (rewrite/lexer.c).
 *
 * A character cursor runs over the text. Whether it is outside any delimiter
 * or inside `{{ }}` / `{% %}` is read from a CStack.Stack: empty means
 * outside, a pushed open kind means inside. Outside, characters accumulate
 * into a content run; inside, non-space characters accumulate into an
 * identifier that a space completes. Open and close delimiters become tokens
 * of their own; a newline outside delimiters bumps a 16-bit line counter.
 *
 * The growable `str_buf` with its index `j` is modelled as the sequence of
 * the `j` characters written so far.
 */
module CLexer {
  import opened Wrappers
  import opened CStack

  /** `enum Expression` of lexer.c (`enum Token` of temple.h); TOKEN_DATA is TOKEN_CONTENT. */
  datatype TokenType = ExprOpen | ExprClose | BlockOpen | BlockClose | Identifier | Data

  /** A token: its text (empty for delimiters, whose C value is NULL), type and line. */
  datatype Token = Token(value: string, kind: TokenType, lineNo: u16)

  /** The enumerator's value, as stored on the stack. */
  function Ordinal(k: TokenType): u16
  {
    match k
    case ExprOpen => 0
    case ExprClose => 1
    case BlockOpen => 2
    case BlockClose => 3
    case Identifier => 4
    case Data => 5
  }

  /** `line_no++` on a uint16_t: wraps from 65535 to 0. */
  function Bump(line: u16): (r: u16)
    ensures r as int == (line as int + 1) % 0x1_0000
  {
    if line == 0xFFFF then 0 else line + 1
  }

  /** The line counter after the characters of `s` were read outside delimiters. */
  function LineAfter(line: u16, s: string): u16
    decreases |s|
  {
    if s == [] then line
    else LineAfter(if s[0] == '\n' then Bump(line) else line, s[1..])
  }

  /** Number of newline characters in `s`. */
  function Newlines(s: string): nat
  {
    if s == [] then 0 else (if s[|s| - 1] == '\n' then 1 else 0) + Newlines(s[..|s| - 1])
  }

  /** An open delimiter `{{` or `{%` starts at `i` (lexer.c:64-65). */
  predicate OpenAt(text: string, i: int)
  {
    0 <= i && i + 1 < |text| && text[i] == '{' && (text[i + 1] == '{' || text[i + 1] == '%')
  }

  /** A close delimiter `}}` or `%}` starts at `i` (lexer.c:100-101). */
  predicate CloseAt(text: string, i: int)
  {
    0 <= i && i + 1 < |text| && (text[i] == '}' || text[i] == '%') && text[i + 1] == '}'
  }

  /** A token for the accumulated run, only when the run is non-empty (lexer.c:81, 113). */
  function Flush(buf: string, kind: TokenType, line: u16): (r: seq<Token>)
    ensures |r| <= 1
    ensures r != [] <==> buf != []
  {
    if buf != [] then [Token(buf, kind, line)] else []
  }

  /**
   * The tokens the C loop emits from position `i` on, when it is outside any
   * delimiter with `buf` pending. Outside is entered from the for loop only
   * while `i` is before the end of the text.
   */
  function Outside(text: string, i: nat, buf: string, line: u16): (r: seq<Token>)
    requires i <= |text|
    ensures |r| <= |text| - i + 1
    decreases |text| - i
  {
    if OpenAt(text, i) then
      var kind := if text[i + 1] == '{' then ExprOpen else BlockOpen;
      Flush(buf, Data, line) + [Token("", kind, line)] +
      (if i + 2 < |text| then Inside(text, i + 2, [], line) else [])
    else if i < |text| then
      Outside(text, i + 1, buf + [text[i]], if text[i] == '\n' then Bump(line) else line)
    else
      Flush(buf, Data, line)
  }

  /**
   * The tokens the C loop emits from position `i` on, inside a delimiter with
   * the identifier fragment `buf` pending. At the end of the text the close
   * type is read from the terminating NUL, which is not `}`.
   */
  function Inside(text: string, i: nat, buf: string, line: u16): (r: seq<Token>)
    requires i <= |text|
    ensures |r| <= |text| - i + 1
    decreases |text| - i
  {
    if CloseAt(text, i) then
      [Token("", if text[i] == '}' then ExprClose else BlockClose, line)] +
      (if i + 2 < |text| then Outside(text, i + 2, buf, line) else [])
    else if i < |text| then
      if text[i] != ' ' then Inside(text, i + 1, buf + [text[i]], line)
      else if buf != [] then [Token(buf, Identifier, line)] + Inside(text, i + 1, [], line)
      else Inside(text, i + 1, buf, line)
    else
      [Token("", BlockClose, line)]
  }

  /**
   * The token sequence `tokenize` writes for `text`: at most one token per
   * character plus one, so an array of `MAX_TOKENS` slots always has room
   * for the tokens of a text shorter than that.
   */
  function Lex(text: string): (r: seq<Token>)
    ensures |r| <= |text| + 1
  {
    Outside(text, 0, [], 0)
  }

  /** What remains to be emitted from the top of the for loop at position `i`. */
  function Remaining(text: string, i: int, inside: bool, buf: string, line: u16): seq<Token>
  {
    if 0 <= i < |text| then
      if inside then Inside(text, i, buf, line) else Outside(text, i, buf, line)
    else []
  }

  /**
   * The content `while` loop (lexer.c:63-79): appends characters to the run
   * until an open delimiter or the end of the text, counting newlines. It
   * emits nothing, so what remains to be emitted is unchanged.
   */
  method ScanContent(text: string, i0: nat, buf0: string, line0: u16) returns (i: nat, buf: string, line: u16)
    requires i0 <= |text|
    ensures i0 <= i <= |text|
    ensures i == |text| || OpenAt(text, i)
    ensures forall k :: i0 <= k < i ==> !OpenAt(text, k)
    ensures buf == buf0 + text[i0..i]
    ensures line == LineAfter(line0, text[i0..i])
    ensures Outside(text, i, buf, line) == Outside(text, i0, buf0, line0)
  {
    i, buf, line := i0, buf0, line0;
    var len := |text|;
    while i < len
      invariant i0 <= i <= len
      invariant forall k :: i0 <= k < i ==> !OpenAt(text, k)
      invariant buf == buf0 + text[i0..i]
      invariant line == LineAfter(line0, text[i0..i])
      invariant Outside(text, i, buf, line) == Outside(text, i0, buf0, line0)
    {
      if i < len - 1 && text[i] == '{' && (text[i + 1] == '{' || text[i + 1] == '%') {
        break;
      }
      assert text[i0..i + 1] == text[i0..i] + [text[i]];
      LineAfterSnoc(line0, text[i0..i], text[i]);
      if text[i] == '\n' {
        line := Bump(line);
      }
      buf := buf + [text[i]];
      i := i + 1;
    }
  }

  /**
   * The branch of the for loop taken outside any delimiter (lexer.c:63-95):
   * scans a content run, writes it as a DATA token when it is non-empty and
   * empties the buffer, then, unless the text ended, writes the open token
   * `kind` and pushes it on the empty stack. What was written plus what the
   * for loop emits after its two increments is what was to be emitted before.
   */
  method ContentThenOpen(text: string, i0: nat, buf0: string, line0: u16, tokens: array<Token>, count0: nat, stack: Stack)
    returns (i: nat, line: u16, count: nat, entered: bool, kind: TokenType)
    requires i0 <= |text| && count0 <= tokens.Length
    requires count0 + |Outside(text, i0, buf0, line0)| <= tokens.Length
    requires stack.Valid() && stack.top == -1
    modifies tokens, stack`top, stack.data
    ensures i0 <= i <= |text| && count0 <= count <= tokens.Length
    ensures entered <==> i < |text| - 1
    ensures entered ==> OpenAt(text, i) && (kind == ExprOpen || kind == BlockOpen)
    ensures stack.Valid() && stack.data == old(stack.data)
    ensures stack.top == (if entered then 0 else -1) && (entered ==> stack.data[0] == Ordinal(kind))
    ensures tokens[..count] + Remaining(text, i + 2, entered, [], line) == old(tokens[..count0]) + Outside(text, i0, buf0, line0)
    ensures forall k :: count <= k < tokens.Length ==> tokens[k] == old(tokens[k])
  {
    var buf;
    i, buf, line := ScanContent(text, i0, buf0, line0);
    count := count0;
    ghost var rest := Outside(text, i, [], line);
    OutsideAtStop(text, i, buf, line);
    if |buf| > 0 {
      tokens[count] := Token(buf, Data, line);
      count := count + 1;
      assert tokens[..count] == old(tokens[..count0]) + [Token(buf, Data, line)];
    }
    assert tokens[..count] + rest == old(tokens[..count0]) + Outside(text, i0, buf0, line0);
    entered := i < |text| - 1;
    kind := ExprOpen;
    if entered {
      kind := if text[i + 1] == '{' then ExprOpen else BlockOpen;
      ghost var done := tokens[..count];
      tokens[count] := Token("", kind, line);
      count := count + 1;
      assert tokens[..count] == done + [Token("", kind, line)];
      AppendAssociative(done, [Token("", kind, line)], Remaining(text, i + 2, true, [], line));
      var pushed := stack.Push(Ordinal(kind));
    }
  }

  /**
   * Where the content loop stops (an open delimiter or the end of the text),
   * the pending run is flushed first, then the open token and what follows
   * the delimiter are emitted.
   */
  lemma OutsideAtStop(text: string, i: nat, buf: string, line: u16)
    requires i == |text| || OpenAt(text, i)
    ensures Outside(text, i, buf, line) == Flush(buf, Data, line) + Outside(text, i, [], line)
    ensures OpenAt(text, i) ==> (Outside(text, i, [], line) ==
      [Token("", if text[i + 1] == '{' then ExprOpen else BlockOpen, line)] + Remaining(text, i + 2, true, [], line))
    ensures !OpenAt(text, i) ==> Outside(text, i, [], line) == []
  {
    if OpenAt(text, i) {
      var kind := if text[i + 1] == '{' then ExprOpen else BlockOpen;
      var after := Remaining(text, i + 2, true, [], line);
      assert Outside(text, i, buf, line) == Flush(buf, Data, line) + [Token("", kind, line)] + after;
      assert Outside(text, i, [], line) == [] + [Token("", kind, line)] + after;
      AppendAssociative(Flush(buf, Data, line), [Token("", kind, line)], after);
    }
  }

  /**
   * The identifier `while` loop (lexer.c:99-123): from position `i0` inside a
   * delimiter, writes an identifier token at `count0`, `count0 + 1`, ... for
   * every run of non-space characters ended by a space, up to a close
   * delimiter or the end of the text.
   */
  method ScanIdentifiers(text: string, i0: nat, buf0: string, line: u16, tokens: array<Token>, count0: nat)
    returns (i: nat, buf: string, count: nat)
    requires i0 <= |text| && count0 <= tokens.Length
    requires forall k :: 0 <= k < |buf0| ==> buf0[k] != ' '
    requires count0 + |Inside(text, i0, buf0, line)| <= tokens.Length
    modifies tokens
    ensures i0 <= i <= |text| && count0 <= count <= tokens.Length
    ensures i == |text| || CloseAt(text, i)
    ensures forall k :: 0 <= k < |buf| ==> buf[k] != ' '
    ensures tokens[..count] + Inside(text, i, buf, line) == old(tokens[..count0]) + Inside(text, i0, buf0, line)
    ensures forall k :: count <= k < tokens.Length ==> tokens[k] == old(tokens[k])
  {
    i, buf, count := i0, buf0, count0;
    var len := |text|;
    while i < len
      invariant i0 <= i <= len && count0 <= count <= tokens.Length
      invariant forall k :: 0 <= k < |buf| ==> buf[k] != ' '
      invariant tokens[..count] + Inside(text, i, buf, line) == old(tokens[..count0]) + Inside(text, i0, buf0, line)
      invariant forall k :: count <= k < tokens.Length ==> tokens[k] == old(tokens[k])
    {
      if i < len - 1 && (text[i] == '}' || text[i] == '%') && text[i + 1] == '}' {
        break;
      }
      InsideStep(text, i, buf, line);
      if text[i] != ' ' {
        buf := buf + [text[i]];
      } else if |buf| > 0 {
        ghost var done := tokens[..count];
        tokens[count] := Token(buf, Identifier, line);
        count := count + 1;
        assert tokens[..count] == done + [Token(buf, Identifier, line)];
        AppendAssociative(done, [Token(buf, Identifier, line)], Inside(text, i + 1, [], line));
        buf := [];   // reset_str_buf
      }
      i := i + 1;
    }
  }

  /** One character inside a delimiter, before any close: extend the fragment, or end it at a space. */
  lemma InsideStep(text: string, i: nat, buf: string, line: u16)
    requires i < |text| && !CloseAt(text, i)
    ensures text[i] != ' ' ==> Inside(text, i, buf, line) == Inside(text, i + 1, buf + [text[i]], line)
    ensures text[i] == ' ' && buf != [] ==> Inside(text, i, buf, line) == [Token(buf, Identifier, line)] + Inside(text, i + 1, [], line)
    ensures text[i] == ' ' && buf == [] ==> Inside(text, i, buf, line) == Inside(text, i + 1, buf, line)
  {
  }

  /**
   * The branch of the for loop taken inside a delimiter (lexer.c:99-127):
   * scans the identifiers, then writes the close token, whose type is read
   * from the character at the stop position (at the end of the text, the
   * terminating NUL, which gives BLOCK_CLOSE), and pops the open kind.
   */
  method IdentifiersThenClose(text: string, i0: nat, buf0: string, line: u16, tokens: array<Token>, count0: nat, stack: Stack)
    returns (i: nat, buf: string, count: nat)
    requires i0 <= |text| && count0 <= tokens.Length
    requires forall k :: 0 <= k < |buf0| ==> buf0[k] != ' '
    requires count0 + |Inside(text, i0, buf0, line)| <= tokens.Length
    requires stack.Valid() && stack.top == 0
    modifies tokens, stack`top
    ensures stack.Valid() && stack.top == -1
    ensures i0 <= i <= |text| && count0 <= count <= tokens.Length
    ensures forall k :: 0 <= k < |buf| ==> buf[k] != ' '
    ensures tokens[..count] + Remaining(text, i + 2, false, buf, line) == old(tokens[..count0]) + Inside(text, i0, buf0, line)
    ensures forall k :: count <= k < tokens.Length ==> tokens[k] == old(tokens[k])
  {
    i, buf, count := ScanIdentifiers(text, i0, buf0, line, tokens, count0);
    var close := if i < |text| && text[i] == '}' then ExprClose else BlockClose;
    ghost var done := tokens[..count];
    ghost var rest := Remaining(text, i + 2, false, buf, line);
    assert Inside(text, i, buf, line) == [Token("", close, line)] + rest;
    tokens[count] := Token("", close, line);
    count := count + 1;
    assert tokens[..count] == done + [Token("", close, line)];
    AppendAssociative(done, [Token("", close, line)], rest);
    var popped := stack.Pop();
  }

  /**
   * tokenize: writes the tokens of `text` to the front of `tokens` and returns
   * their number; the slots after them keep what they held. The caller's
   * array must have room for the tokens (the C code does not check); one slot
   * per character plus one always suffices (Lex). The stack never holds more
   * than one open kind.
   */
  method Tokenize(text: string, tokens: array<Token>) returns (count: int)
    requires |Lex(text)| <= tokens.Length
    modifies tokens
    ensures 0 <= count <= tokens.Length
    ensures tokens[..count] == Lex(text)
    ensures forall k :: count <= k < tokens.Length ==> tokens[k] == old(tokens[k])
  {
    count := 0;
    var line: u16 := 0;
    var len := |text|;
    var stack := new Stack.Init();
    var buf: string := [];
    ghost var goal := Lex(text);
    var i := 0;
    while i < len
      invariant 0 <= i <= len + 2
      invariant stack.Valid() && fresh(stack.data)
      invariant -1 <= stack.top <= 0
      invariant stack.top == 0 ==> stack.data[0] == Ordinal(ExprOpen) || stack.data[0] == Ordinal(BlockOpen)
      invariant stack.top == -1 || forall k :: 0 <= k < |buf| ==> buf[k] != ' '
      invariant 0 <= count <= tokens.Length
      invariant tokens[..count] + Remaining(text, i, stack.top != -1, buf, line) == goal
      invariant |goal| <= tokens.Length
      invariant forall k :: count <= k < tokens.Length ==> tokens[k] == old(tokens[k])
      decreases len + 2 - i
    {
      var empty := stack.IsEmpty();
      if empty {
        assert Remaining(text, i, false, buf, line) == Outside(text, i, buf, line);
        var entered, kind;
        i, line, count, entered, kind := ContentThenOpen(text, i, buf, line, tokens, count, stack);
        buf := [];   // reset_str_buf
      } else {
        var state := stack.Peek();
        assert stack.Contents() == [stack.data[0]];
        if state == Ordinal(BlockOpen) as int || state == Ordinal(ExprOpen) as int {
          assert Remaining(text, i, true, buf, line) == Inside(text, i, buf, line);
          i, buf, count := IdentifiersThenClose(text, i, buf, line, tokens, count, stack);
        }
      }
      i := i + 1;   // the body's own increment (lexer.c:129)
      i := i + 1;   // the for loop's increment
    }
  }

  /** Reading one more character moves the line counter by that character alone. */
  lemma {:induction false} LineAfterSnoc(line: u16, s: string, c: char)
    ensures LineAfter(line, s + [c]) == if c == '\n' then Bump(LineAfter(line, s)) else LineAfter(line, s)
    decreases |s|
  {
    if s != [] {
      assert (s + [c])[1..] == s[1..] + [c];
      LineAfterSnoc(if s[0] == '\n' then Bump(line) else line, s[1..], c);
    }
  }

  /** The line counter counts newlines, modulo 2^16 (line_no is a uint16_t). */
  lemma {:induction false} LineAfterCountsNewlines(line: u16, s: string)
    ensures LineAfter(line, s) as int == (line as int + Newlines(s)) % 0x1_0000
    decreases |s|
  {
    if s != [] {
      var p := s[..|s| - 1];
      assert s == p + [s[|s| - 1]];
      LineAfterSnoc(line, p, s[|s| - 1]);
      LineAfterCountsNewlines(line, p);
    }
  }

  /**
   * Up to the next open delimiter, the content loop only moves characters
   * into the pending run and counts their newlines.
   */
  lemma {:induction false} OutsideUpTo(text: string, i: nat, k: nat, buf: string, line: u16)
    requires i <= k <= |text|
    requires forall m :: i <= m < k ==> !OpenAt(text, m)
    ensures Outside(text, i, buf, line) == Outside(text, k, buf + text[i..k], LineAfter(line, text[i..k]))
    decreases k - i
  {
    if i < k {
      var c := text[i];
      var line' := if c == '\n' then Bump(line) else line;
      OutsideUpTo(text, i + 1, k, buf + [c], line');
      assert buf + [c] + text[i + 1..k] == buf + text[i..k];
      assert text[i..k][1..] == text[i + 1..k];
      assert LineAfter(line, text[i..k]) == LineAfter(line', text[i + 1..k]);
    } else {
      assert buf + text[i..k] == buf;
    }
  }

  /** Without an open delimiter from `i` on, the rest of the text joins the pending run. */
  lemma OutsidePlain(text: string, i: nat, buf: string, line: u16)
    requires i <= |text|
    requires forall k :: i <= k < |text| ==> !OpenAt(text, k)
    ensures Outside(text, i, buf, line) == Flush(buf + text[i..], Data, LineAfter(line, text[i..]))
  {
    OutsideUpTo(text, i, |text|, buf, line);
    assert text[i..|text|] == text[i..];
  }

  /**
   * The first `{{` of the text becomes EXPR_OPEN and the first `{%` becomes
   * BLOCK_OPEN, preceded by the text before it as one DATA token (if any)
   * and stamped with the line reached there.
   */
  lemma FirstOpen(text: string, k: nat)
    requires OpenAt(text, k)
    requires forall m :: 0 <= m < k ==> !OpenAt(text, m)
    ensures var line := LineAfter(0, text[..k]);
            Lex(text) == Flush(text[..k], Data, line) +
              [Token("", if text[k + 1] == '{' then ExprOpen else BlockOpen, line)] + Remaining(text, k + 2, true, [], line)
  {
    OutsideUpTo(text, 0, k, [], 0);
    assert [] + text[0..k] == text[..k];
    OutsideAtStop(text, k, text[..k], LineAfter(0, text[..k]));
    var line := LineAfter(0, text[..k]);
    AppendAssociative(Flush(text[..k], Data, line),
      [Token("", if text[k + 1] == '{' then ExprOpen else BlockOpen, line)], Remaining(text, k + 2, true, [], line));
  }

  /**
   * A close delimiter's kind comes from its first character alone (`}}`
   * gives EXPR_CLOSE, `%}` gives BLOCK_CLOSE), whichever open it closes, and
   * the pending fragment is not emitted: it is carried into the content run
   * that follows.
   */
  lemma CloseKind(text: string, i: nat, buf: string, line: u16)
    requires CloseAt(text, i)
    ensures Inside(text, i, buf, line) ==
      [Token("", if text[i] == '}' then ExprClose else BlockClose, line)] + Remaining(text, i + 2, false, buf, line)
  {
  }

  /**
   * When the text ends inside a delimiter, the identifiers read so far are
   * followed by a BLOCK_CLOSE, whichever kind the open was.
   */
  lemma {:induction false} InsideUnclosed(text: string, i: nat, buf: string, line: u16)
    requires i <= |text|
    requires forall m :: i <= m < |text| ==> !CloseAt(text, m)
    ensures var r := Inside(text, i, buf, line);
            r != [] && r[|r| - 1] == Token("", BlockClose, line) &&
            forall m :: 0 <= m < |r| - 1 ==> r[m].kind == Identifier
    decreases |text| - i
  {
    if i < |text| {
      if text[i] != ' ' {
        InsideUnclosed(text, i + 1, buf + [text[i]], line);
      } else if buf != [] {
        InsideUnclosed(text, i + 1, [], line);
        var rest := Inside(text, i + 1, [], line);
        assert Inside(text, i, buf, line) == [Token(buf, Identifier, line)] + rest;
      } else {
        InsideUnclosed(text, i + 1, buf, line);
      }
    }
  }

  /**
   * A text without `{{` or `{%` is a single DATA token (none when it is
   * empty) holding the whole text, on the line given by its newline count.
   */
  lemma PlainText(text: string)
    requires forall k :: 0 <= k < |text| ==> !OpenAt(text, k)
    ensures text == [] ==> Lex(text) == []
    ensures text != [] ==> Lex(text) == [Token(text, Data, LineAfter(0, text))]
    ensures LineAfter(0, text) as int == Newlines(text) % 0x1_0000
  {
    OutsidePlain(text, 0, [], 0);
    assert [] + text[0..] == text;
    LineAfterCountsNewlines(0, text);
  }

  /** tokenize("This is a test") yields one token (test_lexer.c, basic_tokenize_check). */
  lemma BasicTokenizeCheck()
    ensures |Lex("This is a test")| == 1
  {
    var text := "This is a test";
    assert '{' !in text;
    PlainText(text);
  }

  /**
   * The shape of every token sequence `tokenize` produces. Outside a
   * delimiter: a non-empty DATA token, never two in a row, or an open
   * delimiter. Inside: non-empty identifiers free of spaces, all on the line
   * of the open delimiter, up to a close delimiter. The sequence may stop in
   * either state.
   */
  ghost predicate Shape(ts: seq<Token>, inside: bool, afterData: bool, line: u16)
    decreases |ts|
  {
    if ts == [] then true
    else
      var t := ts[0];
      if inside then
        t.lineNo == line &&
        ((t.kind == Identifier && t.value != [] && ' ' !in t.value && Shape(ts[1..], true, false, line)) ||
         ((t.kind == ExprClose || t.kind == BlockClose) && t.value == [] && Shape(ts[1..], false, false, line)))
      else
        (t.kind == Data && t.value != [] && !afterData && Shape(ts[1..], false, true, line)) ||
        ((t.kind == ExprOpen || t.kind == BlockOpen) && t.value == [] && Shape(ts[1..], true, false, t.lineNo))
  }

  /** What Outside emits has the shape, from the state outside a delimiter. */
  lemma {:induction false} ShapeOfOutside(text: string, i: nat, buf: string, line: u16)
    requires i <= |text|
    ensures Shape(Outside(text, i, buf, line), false, false, line)
    decreases |text| - i
  {
    if OpenAt(text, i) {
      var kind := if text[i + 1] == '{' then ExprOpen else BlockOpen;
      var rest := Remaining(text, i + 2, true, [], line);
      if i + 2 < |text| { ShapeOfInside(text, i + 2, [], line); }
      OutsideAtStop(text, i, buf, line);
      var delimited := [Token("", kind, line)] + rest;
      assert delimited[1..] == rest;
      assert Shape(delimited, false, true, line);
      if buf != [] {
        assert (Flush(buf, Data, line) + delimited)[1..] == delimited;
      } else {
        assert Flush(buf, Data, line) + delimited == delimited;
      }
    } else if i < |text| {
      ShapeOfOutside(text, i + 1, buf + [text[i]], if text[i] == '\n' then Bump(line) else line);
    }
  }

  /** What Inside emits has the shape, from the state inside a delimiter with a space-free fragment. */
  lemma {:induction false} ShapeOfInside(text: string, i: nat, buf: string, line: u16)
    requires i <= |text| && ' ' !in buf
    ensures Shape(Inside(text, i, buf, line), true, false, line)
    decreases |text| - i
  {
    if CloseAt(text, i) {
      if i + 2 < |text| { ShapeOfOutside(text, i + 2, buf, line); }
      var kind := if text[i] == '}' then ExprClose else BlockClose;
      var rest := if i + 2 < |text| then Outside(text, i + 2, buf, line) else [];
      assert ([Token("", kind, line)] + rest)[1..] == rest;
    } else if i < |text| {
      if text[i] != ' ' {
        ShapeOfInside(text, i + 1, buf + [text[i]], line);
      } else if buf != [] {
        ShapeOfInside(text, i + 1, [], line);
        assert ([Token(buf, Identifier, line)] + Inside(text, i + 1, [], line))[1..] == Inside(text, i + 1, [], line);
      } else {
        ShapeOfInside(text, i + 1, buf, line);
      }
    } else {
      assert [Token("", BlockClose, line)][1..] == [];
    }
  }

  /** The tokens of any text have the shape. */
  lemma LexShape(text: string)
    ensures Shape(Lex(text), false, false, 0)
  {
    ShapeOfOutside(text, 0, [], 0);
  }

  /** A token that opens a delimiter. */
  predicate IsOpen(t: Token)
  {
    t.kind == ExprOpen || t.kind == BlockOpen
  }

  /** Outside reaches the first open delimiter at or after `i` and emits its token. */
  lemma {:induction false} OutsideReachesOpen(text: string, i: nat, k: nat, buf: string, line: u16)
    requires i <= k && OpenAt(text, k)
    ensures exists j :: 0 <= j < |Outside(text, i, buf, line)| && IsOpen(Outside(text, i, buf, line)[j])
    decreases k - i
  {
    var ts := Outside(text, i, buf, line);
    if OpenAt(text, i) {
      var kind := if text[i + 1] == '{' then ExprOpen else BlockOpen;
      var j := |Flush(buf, Data, line)|;
      assert ts[j] == Token("", kind, line);
    } else {
      OutsideReachesOpen(text, i + 1, k, buf + [text[i]], if text[i] == '\n' then Bump(line) else line);
    }
  }

  /** The tokens hold an open delimiter exactly when the text holds `{{` or `{%`. */
  lemma OpenIff(text: string)
    ensures (exists k :: OpenAt(text, k)) <==> (exists j :: 0 <= j < |Lex(text)| && IsOpen(Lex(text)[j]))
  {
    if k :| OpenAt(text, k) {
      OutsideReachesOpen(text, 0, k, [], 0);
      assert Lex(text) == Outside(text, 0, [], 0);
    } else {
      PlainText(text);
      if text != [] {
        var t := Token(text, Data, LineAfter(0, text));
        assert Lex(text) == [t] && !IsOpen(t);
      }
      assert !exists j :: 0 <= j < |Lex(text)| && IsOpen(Lex(text)[j]);
    }
  }

  /** `{{ a %}`: an expression opened and closed as a block; the identifier is emitted before the space. */
  lemma MismatchedClose()
    ensures Lex("{{ a %}") == [Token("", ExprOpen, 0), Token("a", Identifier, 0), Token("", BlockClose, 0)]
  {
    var text := "{{ a %}";
    assert Outside(text, 0, [], 0) == [Token("", ExprOpen, 0)] + Inside(text, 2, [], 0);
    assert text[3] == 'a' && [] + [text[3]] == "a";
    assert Inside(text, 2, [], 0) == Inside(text, 3, [], 0) == Inside(text, 4, "a", 0);
    assert Inside(text, 4, "a", 0) == [Token("a", Identifier, 0)] + Inside(text, 5, [], 0);
    assert Inside(text, 5, [], 0) == [Token("", BlockClose, 0)];
  }

  /** `{{ a}}b`: the fragment `a` before the close is not an identifier; it starts the next DATA token. */
  lemma FragmentJoinsContent()
    ensures Lex("{{ a}}b") == [Token("", ExprOpen, 0), Token("", ExprClose, 0), Token("ab", Data, 0)]
  {
    var text := "{{ a}}b";
    assert Outside(text, 0, [], 0) == [Token("", ExprOpen, 0)] + Inside(text, 2, [], 0);
    assert text[3] == 'a' && [] + [text[3]] == "a";
    assert Inside(text, 2, [], 0) == Inside(text, 3, [], 0) == Inside(text, 4, "a", 0);
    assert Inside(text, 4, "a", 0) == [Token("", ExprClose, 0)] + Outside(text, 6, "a", 0);
    assert text[6] == 'b' && "a" + [text[6]] == "ab";
    assert Outside(text, 6, "a", 0) == Outside(text, 7, "ab", 0) == [Token("ab", Data, 0)];
  }

  /** `a{{`: an open at the very end is emitted, and no close follows it. */
  lemma OpenAtEnd()
    ensures Lex("a{{") == [Token("a", Data, 0), Token("", ExprOpen, 0)]
  {
    var text := "a{{";
    assert text[0] == 'a' && [] + [text[0]] == "a";
    assert Outside(text, 0, [], 0) == Outside(text, 1, "a", 0);
    assert Outside(text, 1, "a", 0) == [Token("a", Data, 0)] + [Token("", ExprOpen, 0)];
  }

  /** `{{ a`: at the end of the text inside a delimiter, the fragment is dropped and a BLOCK_CLOSE ends the tokens. */
  lemma UnclosedAtEnd()
    ensures Lex("{{ a") == [Token("", ExprOpen, 0), Token("", BlockClose, 0)]
  {
    var text := "{{ a";
    assert Outside(text, 0, [], 0) == [Token("", ExprOpen, 0)] + Inside(text, 2, [], 0);
    assert text[3] == 'a' && [] + [text[3]] == "a";
    assert Inside(text, 2, [], 0) == Inside(text, 3, [], 0) == Inside(text, 4, "a", 0);
    assert Inside(text, 4, "a", 0) == [Token("", BlockClose, 0)];
  }

  /** INITIAL_BUF_SIZE */
  const InitialBufSize: int := 100

  /**
   * reset_str_buf (lexer.c:42-46): the write index goes back to 0, the first
   * `size` bytes of the buffer are zeroed (the old size, before the
   * assignment) and the size variable is set to INITIAL_BUF_SIZE. The two
   * parameters passed by address become out-parameters.
   */
  method ResetStrBuf(strBuf: array<char>, size: int) returns (j: int, newSize: int)
    requires 0 <= size <= strBuf.Length
    modifies strBuf
    ensures j == 0 && newSize == InitialBufSize
    ensures forall k :: 0 <= k < size ==> strBuf[k] == '\0'
    ensures forall k :: size <= k < strBuf.Length ==> strBuf[k] == old(strBuf[k])
  {
    j := 0;
    forall k | 0 <= k < size {
      strBuf[k] := '\0';
    }
    newSize := InitialBufSize;
  }
}
