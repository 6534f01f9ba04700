/**
 * The tokenizer of the Python version (src/lexer.py).
 *
 * A cursor `i` starts at 1 and looks at the pair `text[i - 1], text[i]`.
 * Outside a delimiter, an open pair `{{` or `{%` emits the content read since
 * `j` (possibly empty) and pushes the open kind. Inside, a close pair `}}` or
 * `%}` emits the whole group at once: the open token, one identifier per
 * whitespace-separated word of the inner text, and the close token of the
 * family on the stack. Every newline after position 0 bumps the `line_no`
 * field of the lexer object, which `tokenize` never resets.
 */
module PyLexer {
  import opened Wrappers

  /** `class Token(enum.Enum)`; DEFAULT is only the state of an empty stack. */
  datatype TokenType = ExprOpen | ExprClose | BlockOpen | BlockClose | Identifier | Content | Default

  /** `LexerToken = namedtuple('LexerToken', 'type value line_no')` */
  datatype Token = Token(kind: TokenType, value: string, lineNo: nat)

  /** The characters Python's `str.isspace` (and so `str.split()`) treats as whitespace. */
  predicate IsSpace(c: char)
  {
    ('\t' <= c <= '\r') || ('\U{1C}' <= c <= ' ') || c == '\U{85}' || c == '\U{A0}' ||
    c == '\U{1680}' || ('\U{2000}' <= c <= '\U{200A}') || c == '\U{2028}' || c == '\U{2029}' ||
    c == '\U{202F}' || c == '\U{205F}' || c == '\U{3000}'
  }

  /** Python's `s[a:b]` for indices within the string: empty when `a > b`. */
  function Slice(s: string, a: nat, b: nat): string
    requires a <= |s| && b <= |s|
  {
    if a <= b then s[a..b] else []
  }

  /** The end of the run of non-whitespace characters starting at `k`. */
  function WordEnd(s: string, k: nat): (r: nat)
    requires k <= |s|
    ensures k <= r <= |s|
    ensures forall m :: k <= m < r ==> !IsSpace(s[m])
    ensures r < |s| ==> IsSpace(s[r])
    decreases |s| - k
  {
    if k == |s| || IsSpace(s[k]) then k else WordEnd(s, k + 1)
  }

  /** A word of `str.split()`: non-empty and free of whitespace. */
  predicate IsWord(w: string)
  {
    w != [] && forall c :: c in w ==> !IsSpace(c)
  }

  /**
   * `s.split()`: the maximal runs of non-whitespace characters, in order;
   * whitespace runs of any length separate them.
   */
  function Split(s: string): (r: seq<string>)
    ensures forall w :: w in r ==> IsWord(w)
    decreases |s|
  {
    if s == [] then []
    else if IsSpace(s[0]) then Split(s[1..])
    else
      var n := WordEnd(s, 0);
      assert forall c :: c in s[..n] ==> !IsSpace(c);
      [s[..n]] + Split(s[n..])
  }

  /** The characters of `s` that are not whitespace, in order. */
  function NonSpace(s: string): string
  {
    if s == [] then [] else (if IsSpace(s[0]) then [] else [s[0]]) + NonSpace(s[1..])
  }

  function Concat(ws: seq<string>): string
  {
    if ws == [] then [] else ws[0] + Concat(ws[1..])
  }

  /** Words joined with single spaces. */
  function Join(ws: seq<string>): string
  {
    if ws == [] then [] else if |ws| == 1 then ws[0] else ws[0] + " " + Join(ws[1..])
  }

  /** NonSpace distributes over concatenation. */
  lemma {:induction false} NonSpaceAppend(a: string, b: string)
    ensures NonSpace(a + b) == NonSpace(a) + NonSpace(b)
    decreases |a|
  {
    if a != [] {
      AppendTail(a, b);
      NonSpaceAppend(a[1..], b);
      var x := if IsSpace(a[0]) then [] else [a[0]];
      assert NonSpace(a + b) == x + NonSpace(a[1..] + b);
      assert NonSpace(a) == x + NonSpace(a[1..]);
      AppendAssociative(x, NonSpace(a[1..]), NonSpace(b));
    } else {
      assert a + b == b;
    }
  }

  lemma {:induction false} NonSpaceOfWord(w: string)
    requires forall c :: c in w ==> !IsSpace(c)
    ensures NonSpace(w) == w
    decreases |w|
  {
    if w != [] {
      assert forall c :: c in w[1..] ==> c in w;
      NonSpaceOfWord(w[1..]);
    }
  }

  /** Splitting loses and reorders no character other than whitespace. */
  lemma {:induction false} SplitKeepsCharacters(s: string)
    ensures Concat(Split(s)) == NonSpace(s)
    decreases |s|
  {
    if s != [] {
      if IsSpace(s[0]) {
        SplitKeepsCharacters(s[1..]);
      } else {
        var n := WordEnd(s, 0);
        SplitKeepsCharacters(s[n..]);
        assert s == s[..n] + s[n..];
        NonSpaceAppend(s[..n], s[n..]);
        assert forall c :: c in s[..n] ==> !IsSpace(c);
        NonSpaceOfWord(s[..n]);
        assert ([s[..n]] + Split(s[n..]))[1..] == Split(s[n..]);
      }
    }
  }

  /** Whitespace at the front does not change the words. */
  lemma {:induction false} SplitSkipsSpace(sp: string, s: string)
    requires forall c :: c in sp ==> IsSpace(c)
    ensures Split(sp + s) == Split(s)
    decreases |sp|
  {
    if sp != [] {
      assert sp[0] in sp && (sp + s)[0] == sp[0] && (sp + s)[1..] == sp[1..] + s;
      assert forall c :: c in sp[1..] ==> c in sp;
      SplitSkipsSpace(sp[1..], s);
      assert Split(sp + s) == Split(sp[1..] + s);
    } else {
      assert sp + s == s;
    }
  }

  /** Splitting words joined with spaces gives the words back. */
  lemma {:induction false} SplitJoin(ws: seq<string>)
    requires forall w :: w in ws ==> IsWord(w)
    ensures Split(Join(ws)) == ws
    decreases |ws|
  {
    if ws != [] {
      var w := ws[0];
      if |ws| > 1 {
        var rest := " " + Join(ws[1..]);
        assert Join(ws) == w + rest;
        SplitWordFirst(w, rest);
        assert forall v :: v in ws[1..] ==> v in ws;
        SplitJoin(ws[1..]);
        SplitSkipsSpace(" ", Join(ws[1..]));
        assert [w] + ws[1..] == ws;
      } else {
        assert Join(ws) == w + [];
        SplitWordFirst(w, []);
        assert ws == [w];
      }
    }
  }

  /** A word followed by whitespace or nothing is split off as the first word. */
  lemma SplitWordFirst(w: string, rest: string)
    requires IsWord(w) && (rest == [] || IsSpace(rest[0]))
    ensures Split(w + rest) == [w] + Split(rest)
  {
    var s := w + rest;
    assert s[0] == w[0] && !IsSpace(w[0]);
    forall m | 0 <= m < |w|
      ensures !IsSpace(s[m])
    {
      assert s[m] == w[m] && w[m] in w;
    }
    WordEndAt(s, 0, |w|);
    assert s[..|w|] == w && s[|w|..] == rest;
  }

  /** A run of non-whitespace characters that stops at whitespace or the end is a word end. */
  lemma {:induction false} WordEndAt(s: string, k: nat, e: nat)
    requires k <= e <= |s|
    requires forall m :: k <= m < e ==> !IsSpace(s[m])
    requires e == |s| || IsSpace(s[e])
    ensures WordEnd(s, k) == e
    decreases e - k
  {
    if k < e {
      WordEndAt(s, k + 1, e);
    }
  }

  /** The identifier tokens of a group, all on line `line`. */
  function Identifiers(words: seq<string>, line: nat): (r: seq<Token>)
    ensures |r| == |words|
    ensures forall k :: 0 <= k < |words| ==> r[k] == Token(Identifier, words[k], line)
  {
    if words == [] then [] else Identifiers(words[..|words| - 1], line) + [Token(Identifier, words[|words| - 1], line)]
  }

  /** The close token type of an open kind (lexer.py:68). */
  function CloseOf(open: TokenType): TokenType
  {
    if open == ExprOpen then ExprClose else BlockClose
  }

  /** An open pair `{{` / `{%` ends at `i`. */
  predicate OpenPair(text: string, i: nat)
  {
    1 <= i < |text| && text[i - 1] == '{' && (text[i] == '{' || text[i] == '%')
  }

  /** A close pair `}}` / `%}` ends at `i`. */
  predicate ClosePair(text: string, i: nat)
  {
    1 <= i < |text| && (text[i - 1] == '}' || text[i - 1] == '%') && text[i] == '}'
  }

  function Bump(text: string, i: nat, line: nat): nat
    requires i < |text|
  {
    if text[i] == '\n' then line + 1 else line
  }

  /**
   * The tokens the `while` loop and the final check emit from the state
   * `i`, `j`, the stack top `top` and the line counter `line` on.
   */
  function Scan(text: string, i: nat, j: nat, top: Option<TokenType>, line: nat): (r: seq<Token>)
    requires 1 <= i && j <= i && j <= |text|
    ensures top == None && j < i ==> r != [] && r[0].kind == Content
    decreases |text| - i
  {
    if i >= |text| then
      if j < i then [Token(Content, text[j..], line)] else []
    else
      match top
      case None =>
        if OpenPair(text, i) then
          var kind := if text[i] == '{' then ExprOpen else BlockOpen;
          [Token(Content, Slice(text, j, i - 1), line)] + Scan(text, i + 1, i + 1, Some(kind), Bump(text, i, line))
        else
          Scan(text, i + 1, j, None, Bump(text, i, line))
      case Some(kind) =>
        if ClosePair(text, i) then
          [Token(kind, "", line)] + Identifiers(Split(Slice(text, j, i - 1)), line) + [Token(CloseOf(kind), "", line)] +
          Scan(text, i + 1, i + 1, None, Bump(text, i, line))
        else
          Scan(text, i + 1, j, Some(kind), Bump(text, i, line))
  }

  /** The tokens `tokenize` returns when `line_no` starts at `line`. */
  function Tokens(text: string, line: nat): (r: seq<Token>)
    ensures r != [] && r[0].kind == Content
  {
    Scan(text, 1, 0, None, line)
  }

  /** The number of newlines at positions `i` and after. */
  function NewlinesFrom(text: string, i: nat): nat
    decreases |text| - i
  {
    if i >= |text| then 0 else (if text[i] == '\n' then 1 else 0) + NewlinesFrom(text, i + 1)
  }

  /** `class Lexer`: the line counter and the tokens of the text it was made with. */
  class Lexer {
    var lineNo: nat
    var tokens: seq<Token>

    /**
     * `Lexer(text)`: the counter starts at 0 and a non-empty text is
     * tokenized; an empty or missing text leaves no tokens.
     */
    constructor (text: string)
      ensures tokens == (if text == [] then [] else Tokens(text, 0))
      ensures lineNo == NewlinesFrom(text, 1)
    {
      lineNo := 0;
      tokens := [];
      new;
      if text != [] {
        tokens := Tokenize(text);
      }
    }

    /**
     * `tokenize`: returns the tokens of `text` stamped from the current
     * `line_no` on, which it advances by the newlines after position 0.
     */
    method Tokenize(text: string) returns (toks: seq<Token>)
      modifies this`lineNo
      ensures toks == Tokens(text, old(lineNo))
      ensures lineNo == old(lineNo) + NewlinesFrom(text, 1)
    {
      var i: nat := 1;
      var j: nat := 0;
      var stack: seq<TokenType> := [];
      toks := [];
      var strLen := |text|;
      while i < strLen
        invariant 1 <= i && j <= i && j <= strLen
        invariant strLen >= 1 ==> i <= strLen
        invariant |stack| <= 1 && (stack != [] ==> stack[0] == ExprOpen || stack[0] == BlockOpen)
        invariant toks + Scan(text, i, j, Top(stack), lineNo) == Tokens(text, old(lineNo))
        invariant lineNo + NewlinesFrom(text, i) == old(lineNo) + NewlinesFrom(text, 1)
        decreases strLen - i
      {
        ghost var next := Bump(text, i, lineNo);
        toks, j, stack := Pair(text, i, j, stack, toks, lineNo);
        if text[i] == '\n' {
          lineNo := lineNo + 1;
        }
        assert lineNo == next;
        assert NewlinesFrom(text, i) == (if text[i] == '\n' then 1 else 0) + NewlinesFrom(text, i + 1);
        i := i + 1;
      }
      assert Scan(text, i, j, Top(stack), lineNo) == if j < i then [Token(Content, text[j..], lineNo)] else [];
      if j < i {
        toks := toks + [Token(Content, text[j..], lineNo)];
      }
    }
  }

  /**
   * One pass of the loop body before the newline check (lexer.py:52-71): acts
   * on an open pair outside a delimiter and on a close pair inside one.
   * What it emits plus what the loop emits from the next position is what
   * the loop emitted from this one.
   */
  method Pair(text: string, i: nat, j0: nat, stack0: seq<TokenType>, toks0: seq<Token>, line: nat)
    returns (toks: seq<Token>, j: nat, stack: seq<TokenType>)
    requires 1 <= i < |text| && j0 <= i
    requires |stack0| <= 1 && (stack0 != [] ==> stack0[0] == ExprOpen || stack0[0] == BlockOpen)
    ensures j0 <= j <= i + 1
    ensures |stack| <= 1 && (stack != [] ==> stack[0] == ExprOpen || stack[0] == BlockOpen)
    ensures toks + Scan(text, i + 1, j, Top(stack), Bump(text, i, line)) == toks0 + Scan(text, i, j0, Top(stack0), line)
  {
    var state := if stack0 == [] then Default else stack0[|stack0| - 1];
    if state == Default {
      toks, j, stack := OpenStep(text, i, j0, toks0, line);
    } else {
      toks, j, stack := CloseStep(text, i, j0, stack0, toks0, line);
    }
  }

  /** Pair with an empty stack: an open pair starts a group. */
  method OpenStep(text: string, i: nat, j0: nat, toks0: seq<Token>, line: nat)
    returns (toks: seq<Token>, j: nat, stack: seq<TokenType>)
    requires 1 <= i < |text| && j0 <= i
    ensures j0 <= j <= i + 1
    ensures |stack| <= 1 && (stack != [] ==> stack[0] == ExprOpen || stack[0] == BlockOpen)
    ensures toks + Scan(text, i + 1, j, Top(stack), Bump(text, i, line)) == toks0 + Scan(text, i, j0, None, line)
  {
    toks, j, stack := toks0, j0, [];
    if text[i - 1] == '{' && (text[i] == '{' || text[i] == '%') {
      var tType := if text[i] == '{' then ExprOpen else BlockOpen;
      stack := stack + [tType];
      var content := Token(Content, Slice(text, j, i - 1), line);
      toks := toks + [content];
      j := i + 1;
      var rest := Scan(text, i + 1, j, Top(stack), Bump(text, i, line));
      assert Scan(text, i, j0, None, line) == [content] + rest;
      AppendAssociative(toks0, [content], rest);
    } else {
      assert Scan(text, i, j0, None, line) == Scan(text, i + 1, j, Top(stack), Bump(text, i, line));
    }
  }

  /** Pair inside a group: a close pair ends it. */
  method CloseStep(text: string, i: nat, j0: nat, stack0: seq<TokenType>, toks0: seq<Token>, line: nat)
    returns (toks: seq<Token>, j: nat, stack: seq<TokenType>)
    requires 1 <= i < |text| && j0 <= i
    requires |stack0| == 1 && (stack0[0] == ExprOpen || stack0[0] == BlockOpen)
    ensures j0 <= j <= i + 1
    ensures |stack| <= 1 && (stack != [] ==> stack[0] == ExprOpen || stack[0] == BlockOpen)
    ensures toks + Scan(text, i + 1, j, Top(stack), Bump(text, i, line)) == toks0 + Scan(text, i, j0, Top(stack0), line)
  {
    toks, j, stack := toks0, j0, stack0;
    var state := stack[|stack| - 1];
    assert Top(stack0) == Some(state);
    if (text[i - 1] == '}' || text[i - 1] == '%') && text[i] == '}' {
      var words := Split(Slice(text, j, i - 1));
      var open := Token(state, "", line);
      toks := toks + [open];
      toks := AppendIdentifiers(toks, words, line);
      var endType := if state == ExprOpen then ExprClose else BlockClose;
      var close := Token(endType, "", line);
      toks := toks + [close];
      j := i + 1;
      stack := stack[..|stack| - 1];
      ghost var ids := Identifiers(words, line);
      ghost var group := [open] + ids + [close];
      ghost var rest := Scan(text, i + 1, j, Top(stack), Bump(text, i, line));
      AppendAssociative(toks0, [open], ids);
      AppendAssociative(toks0, [open] + ids, [close]);
      assert toks == toks0 + group;
      ScanAtClose(text, i, j0, state, line);
      AppendAssociative(toks0, group, rest);
    } else {
      assert Scan(text, i, j0, Top(stack0), line) == Scan(text, i + 1, j, Top(stack), Bump(text, i, line));
    }
  }

  /** What the loop emits at a close pair inside a group. */
  lemma ScanAtClose(text: string, i: nat, j: nat, kind: TokenType, line: nat)
    requires 1 <= i < |text| && j <= i && ClosePair(text, i)
    ensures Scan(text, i, j, Some(kind), line) ==
            [Token(kind, "", line)] + Identifiers(Split(Slice(text, j, i - 1)), line) + [Token(CloseOf(kind), "", line)] +
            Scan(text, i + 1, i + 1, None, Bump(text, i, line))
  {
  }

  /** What the loop emits at an open pair outside any group. */
  lemma ScanAtOpen(text: string, i: nat, j: nat, line: nat)
    requires 1 <= i < |text| && j <= i && OpenPair(text, i)
    ensures Scan(text, i, j, None, line) ==
            [Token(Content, Slice(text, j, i - 1), line)] +
            Scan(text, i + 1, i + 1, Some(if text[i] == '{' then ExprOpen else BlockOpen), Bump(text, i, line))
  {
  }

  /** The stack top, or none for the empty stack. */
  function Top(stack: seq<TokenType>): Option<TokenType>
  {
    if stack == [] then None else Some(stack[|stack| - 1])
  }

  /** The words of a group, appended as identifier tokens (lexer.py:64-66). */
  method AppendIdentifiers(toks0: seq<Token>, words: seq<string>, line: nat) returns (toks: seq<Token>)
    ensures toks == toks0 + Identifiers(words, line)
  {
    toks := toks0;
    var k := 0;
    while k < |words|
      invariant 0 <= k <= |words|
      invariant toks == toks0 + Identifiers(words[..k], line)
    {
      assert words[..k + 1][..k] == words[..k];
      toks := toks + [Token(Identifier, words[k], line)];
      k := k + 1;
    }
    assert words[..k] == words;
  }

  /**
   * Without an open pair from `i` on, the loop emits nothing and the final
   * check emits the rest of the text from `j` as one content token.
   */
  lemma {:induction false} ScanPlain(text: string, i: nat, j: nat, line: nat)
    requires 1 <= i && j < i && j <= |text|
    requires forall k :: i <= k ==> !OpenPair(text, k)
    ensures Scan(text, i, j, None, line) == [Token(Content, text[j..], line + NewlinesFrom(text, i))]
    decreases |text| - i
  {
    if i < |text| {
      ScanPlain(text, i + 1, j, Bump(text, i, line));
    }
  }

  /**
   * A text with no `{{` and no `{%` (the empty text included) is one content
   * token holding the whole text, stamped with the line after its newlines.
   */
  lemma PlainText(text: string, line: nat)
    requires forall k :: !OpenPair(text, k)
    ensures Tokens(text, line) == [Token(Content, text, line + NewlinesFrom(text, 1))]
  {
    ScanPlain(text, 1, 0, line);
  }

  /** Where the token automaton stands: between groups, after a content token, inside a group, or after the final content. */
  datatype Phase = Between | AfterContent | InGroup(open: TokenType, line: nat) | Ended

  /**
   * The shape of `tokenize`'s output. Each group is a content token (possibly
   * empty), the open token, the words as identifiers and the close token of
   * the open's family, the group sharing one line. A final content token may
   * follow, and after an unterminated open a second one may follow it.
   */
  ghost predicate Accepts(ts: seq<Token>, p: Phase)
    decreases |ts|
  {
    if ts == [] then !p.InGroup?
    else
      var t := ts[0];
      match p
      case Between => t.kind == Content && Accepts(ts[1..], AfterContent)
      case AfterContent =>
        (t.kind == Content && Accepts(ts[1..], Ended)) ||
        ((t.kind == ExprOpen || t.kind == BlockOpen) && t.value == [] && Accepts(ts[1..], InGroup(t.kind, t.lineNo)))
      case InGroup(k, l) =>
        t.lineNo == l &&
        ((t.kind == Identifier && IsWord(t.value) && Accepts(ts[1..], p)) ||
         (t.kind == CloseOf(k) && t.value == [] && Accepts(ts[1..], Between)))
      case Ended => false
  }

  /** The identifiers and the close of a group lead back to Between. */
  lemma {:induction false} GroupAccepted(words: seq<string>, k: TokenType, line: nat, rest: seq<Token>)
    requires forall w :: w in words ==> IsWord(w)
    requires Accepts(rest, Between)
    ensures Accepts(Identifiers(words, line) + [Token(CloseOf(k), "", line)] + rest, InGroup(k, line))
    decreases |words|
  {
    var close := [Token(CloseOf(k), "", line)];
    if words == [] {
      assert (close + rest)[1..] == rest;
    } else {
      assert forall w :: w in words[1..] ==> w in words;
      GroupAccepted(words[1..], k, line, rest);
      IdentifiersCons(words, line);
      var first := [Token(Identifier, words[0], line)];
      var later := Identifiers(words[1..], line);
      AppendAssociative(first, later, close);
      AppendAssociative(first, later + close, rest);
      var ts := first + (later + close + rest);
      assert ts == Identifiers(words, line) + close + rest;
      assert ts[1..] == later + close + rest;
    }
  }

  lemma IdentifiersCons(words: seq<string>, line: nat)
    requires words != []
    ensures Identifiers(words, line) == [Token(Identifier, words[0], line)] + Identifiers(words[1..], line)
  {
  }

  /** What the loop emits from any state is accepted from the matching phase. */
  lemma {:induction false} ScanAccepted(text: string, i: nat, j: nat, top: Option<TokenType>, line: nat)
    requires 1 <= i && j <= i && j <= |text|
    requires top.Some? ==> top.value == ExprOpen || top.value == BlockOpen
    ensures Accepts(Scan(text, i, j, top, line), if top.None? then Between else AfterContent)
    decreases |text| - i
  {
    var ts := Scan(text, i, j, top, line);
    if i >= |text| {
      if j < i {
        assert ts[1..] == [];
      }
    } else {
      var line' := Bump(text, i, line);
      match top
      case None =>
        if OpenPair(text, i) {
          var kind := if text[i] == '{' then ExprOpen else BlockOpen;
          ScanAccepted(text, i + 1, i + 1, Some(kind), line');
          assert ts[1..] == Scan(text, i + 1, i + 1, Some(kind), line');
        } else {
          ScanAccepted(text, i + 1, j, None, line');
        }
      case Some(kind) =>
        if ClosePair(text, i) {
          var rest := Scan(text, i + 1, i + 1, None, line');
          var words := Split(Slice(text, j, i - 1));
          ScanAccepted(text, i + 1, i + 1, None, line');
          GroupAccepted(words, kind, line, rest);
          var group := Identifiers(words, line) + [Token(CloseOf(kind), "", line)] + rest;
          assert ts == [Token(kind, "", line)] + group;
          assert ts[1..] == group;
        } else {
          ScanAccepted(text, i + 1, j, Some(kind), line');
        }
    }
  }

  /** Every output of `tokenize` has the shape. */
  lemma TokensAccepted(text: string, line: nat)
    ensures Accepts(Tokens(text, line), Between)
  {
    ScanAccepted(text, 1, 0, None, line);
  }

  /** The tokens with their line numbers moved up by `d`. */
  function Shift(ts: seq<Token>, d: nat): (r: seq<Token>)
    ensures |r| == |ts|
    ensures forall k :: 0 <= k < |ts| ==> r[k] == ts[k].(lineNo := ts[k].lineNo + d)
  {
    if ts == [] then [] else [ts[0].(lineNo := ts[0].lineNo + d)] + Shift(ts[1..], d)
  }

  /**
   * Since `line_no` is never reset, tokenizing again after `d` newlines gives
   * the same tokens stamped `d` lines later.
   */
  lemma ShiftAppend(a: seq<Token>, b: seq<Token>, d: nat)
    ensures Shift(a + b, d) == Shift(a, d) + Shift(b, d)
  {
  }

  lemma GroupShift(kind: TokenType, words: seq<string>, line: nat, d: nat)
    ensures [Token(kind, "", line + d)] + Identifiers(words, line + d) + [Token(CloseOf(kind), "", line + d)] ==
            Shift([Token(kind, "", line)] + Identifiers(words, line) + [Token(CloseOf(kind), "", line)], d)
  {
    var open, close := [Token(kind, "", line)], [Token(CloseOf(kind), "", line)];
    var ids := Identifiers(words, line);
    IdentifiersShift(words, line, d);
    assert Shift(open, d) == [Token(kind, "", line + d)];
    assert Shift(close, d) == [Token(CloseOf(kind), "", line + d)];
    ShiftAppend(open, ids, d);
    ShiftAppend(open + ids, close, d);
  }

  lemma IdentifiersShift(words: seq<string>, line: nat, d: nat)
    ensures Identifiers(words, line + d) == Shift(Identifiers(words, line), d)
  {
  }

  lemma {:induction false} ScanShift(text: string, i: nat, j: nat, top: Option<TokenType>, line: nat, d: nat)
    requires 1 <= i && j <= i && j <= |text|
    ensures Scan(text, i, j, top, line + d) == Shift(Scan(text, i, j, top, line), d)
    decreases |text| - i, 1
  {
    if i >= |text| {
    } else if top.None? && OpenPair(text, i) {
      ScanShiftOpen(text, i, j, line, d);
    } else if top.Some? && ClosePair(text, i) {
      ScanShiftClose(text, i, j, top.value, line, d);
    } else {
      var next := Bump(text, i, line);
      assert Bump(text, i, line + d) == next + d;
      assert Scan(text, i, j, top, line) == Scan(text, i + 1, j, top, next);
      assert Scan(text, i, j, top, line + d) == Scan(text, i + 1, j, top, next + d);
      ScanShift(text, i + 1, j, top, next, d);
    }
  }

  /** ScanShift at an open pair. */
  lemma {:induction false} ScanShiftOpen(text: string, i: nat, j: nat, line: nat, d: nat)
    requires 1 <= i < |text| && j <= i && OpenPair(text, i)
    ensures Scan(text, i, j, None, line + d) == Shift(Scan(text, i, j, None, line), d)
    decreases |text| - i, 0
  {
    var next := Bump(text, i, line);
    assert Bump(text, i, line + d) == next + d;
    var kind := if text[i] == '{' then ExprOpen else BlockOpen;
    var head := [Token(Content, Slice(text, j, i - 1), line)];
    var rest := Scan(text, i + 1, i + 1, Some(kind), next);
    ScanAtOpen(text, i, j, line);
    ScanAtOpen(text, i, j, line + d);
    ScanShift(text, i + 1, i + 1, Some(kind), next, d);
    ShiftAppend(head, rest, d);
    assert Shift(head, d) == [Token(Content, Slice(text, j, i - 1), line + d)];
    assert Scan(text, i, j, None, line + d) == Shift(head, d) + Shift(rest, d);
  }

  /** ScanShift at a close pair inside a delimiter. */
  lemma {:induction false} ScanShiftClose(text: string, i: nat, j: nat, kind: TokenType, line: nat, d: nat)
    requires 1 <= i < |text| && j <= i && ClosePair(text, i)
    ensures Scan(text, i, j, Some(kind), line + d) == Shift(Scan(text, i, j, Some(kind), line), d)
    decreases |text| - i, 0
  {
    var next := Bump(text, i, line);
    assert Bump(text, i, line + d) == next + d;
    var words := Split(Slice(text, j, i - 1));
    var group := [Token(kind, "", line)] + Identifiers(words, line) + [Token(CloseOf(kind), "", line)];
    var group' := [Token(kind, "", line + d)] + Identifiers(words, line + d) + [Token(CloseOf(kind), "", line + d)];
    var rest := Scan(text, i + 1, i + 1, None, next);
    ScanAtClose(text, i, j, kind, line);
    ScanAtClose(text, i, j, kind, line + d);
    GroupShift(kind, words, line, d);
    ScanShift(text, i + 1, i + 1, None, next, d);
    ShiftAppend(group, rest, d);
    assert Scan(text, i, j, Some(kind), line + d) == Shift(group, d) + Shift(rest, d);
  }

  lemma TokensShift(text: string, line: nat, d: nat)
    ensures Tokens(text, line + d) == Shift(Tokens(text, line), d)
  {
    ScanShift(text, 1, 0, None, line, d);
  }

  /**
   * An open pair that is never closed leaves two content tokens: the text
   * before it and the text after it; the pair itself is dropped.
   */
  lemma UnterminatedOpen()
    ensures Tokens("a{{b", 0) == [Token(Content, "a", 0), Token(Content, "b", 0)]
  {
    var t := "a{{b";
    assert !OpenPair(t, 1) && OpenPair(t, 2) && t[2] == '{' && !ClosePair(t, 3);
    assert Slice(t, 0, 1) == "a" && t[3..] == "b";
    assert Scan(t, 4, 3, Some(ExprOpen), 0) == [Token(Content, "b", 0)];
    assert Scan(t, 2, 0, None, 0) == [Token(Content, "a", 0)] + Scan(t, 3, 3, Some(ExprOpen), 0);
  }

  /** An open pair that ends the text leaves only the content before it. */
  lemma OpenEndsText()
    ensures Tokens("a{{", 0) == [Token(Content, "a", 0)]
  {
    var t := "a{{";
    assert !OpenPair(t, 1) && OpenPair(t, 2) && t[2] == '{';
    assert Slice(t, 0, 1) == "a";
    assert Scan(t, 3, 3, Some(ExprOpen), 0) == [];
    assert Scan(t, 2, 0, None, 0) == [Token(Content, "a", 0)] + Scan(t, 3, 3, Some(ExprOpen), 0);
  }

  /** In `{%}` the `%` ends the open pair and starts the close pair: an empty block group. */
  lemma OverlappingPairs()
    ensures Tokens("{%}", 0) == [Token(Content, "", 0), Token(BlockOpen, "", 0), Token(BlockClose, "", 0)]
  {
    var t := "{%}";
    assert OpenPair(t, 1) && t[1] == '%' && ClosePair(t, 2);
    assert Slice(t, 0, 0) == "" && Slice(t, 2, 1) == "";
    assert Split("") == [];
    assert Scan(t, 2, 2, Some(BlockOpen), 0) == [Token(BlockOpen, "", 0), Token(BlockClose, "", 0)] + Scan(t, 3, 3, None, 0);
  }
}
