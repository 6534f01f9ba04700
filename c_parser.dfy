/**
 * The tree builder of the C rewrite (rewrite/parser.c).
 *
 * A shared position (`int *t_position`) walks the token array. Content tokens
 * become leaves, `{{ ... }}` becomes an expression node, and `{% ... %}`
 * becomes an expression node that then collects the following nodes as its
 * children until a nested block returns an `endblock` or `else` node.
 *
 * Nodes are values: the children and argument arrays that the C code fills
 * in place are sequences, built up in the same order.
 */
module CParser {
  import opened Wrappers
  import opened CLexer

  /** `enum ASTNodeType` */
  datatype NodeType = BlockExpression | Expression | Content | Template

  /** `enum Identifier` */
  datatype Ident = If | Else | Insert | Extends | Endblock | ContentId | TemplateId | Var

  /**
   * `struct ASTNode`, without the inverse-node fields that the C builder
   * never sets.
   */
  datatype Node = Node(kind: NodeType, id: Ident, args: seq<string>, content: string, children: seq<Node>)

  /**
   * Where the C code has no defined behaviour, the model stops with an error:
   * reading the directive past the last token, comparing the NULL value of a
   * delimiter token as the directive, or the `default:` branch of
   * `build_ast`, which does not advance and so never terminates.
   */
  datatype ParseError = NoDirective | NullDirective | Stalled

  /** The root node the callers pass to `build_ast`. */
  const TemplateRoot := Node(Template, TemplateId, [], [], [])

  /** A delimiter token, whose value is NULL in the C code. */
  predicate IsDelimiter(t: Token)
  {
    t.kind == ExprOpen || t.kind == ExprClose || t.kind == BlockOpen || t.kind == BlockClose
  }

  predicate IsClose(t: Token)
  {
    t.kind == ExprClose || t.kind == BlockClose
  }

  /** The keyword `parse_identifier` recognises for an identifier, if any. */
  function Spelling(id: Ident): Option<string>
  {
    match id
    case If => Some("if")
    case Else => Some("else")
    case Insert => Some("insert")
    case Extends => Some("extends")
    case Endblock => Some("endblock")
    case TemplateId => Some("template")
    case ContentId => None
    case Var => None
  }

  /**
   * parse_identifier (parser.c:34-51): the identifier whose keyword the text
   * is, and ID_VAR for every text that spells no keyword ("content" included).
   */
  function ParseIdentifier(value: string): (id: Ident)
    ensures id == Var || Spelling(id) == Some(value)
  {
    if value == "if" then If
    else if value == "else" then Else
    else if value == "insert" then Insert
    else if value == "extends" then Extends
    else if value == "endblock" then Endblock
    else if value == "template" then TemplateId
    else Var
  }

  /**
   * parse_identifier yields a keyword's identifier only for that keyword's
   * text, and ID_VAR exactly for the texts that spell no keyword.
   */
  lemma ParseIdentifierMeaning(value: string)
    ensures ParseIdentifier(value) != Var ==> Spelling(ParseIdentifier(value)) == Some(value)
    ensures ParseIdentifier(value) == Var <==> forall id :: Spelling(id) != Some(value)
  {
  }

  /** Every keyword is recognised as its own identifier. */
  lemma SpellingRoundTrip(id: Ident, s: string)
    requires Spelling(id) == Some(s)
    ensures ParseIdentifier(s) == id
  {
  }

  /** The identifiers the parser test expects for its six sample tokens (test_parser.c:47-61). */
  lemma IdentifierParseCheck()
    ensures ParseIdentifier("if") == If && ParseIdentifier("else") == Else
    ensures ParseIdentifier("insert") == Insert && ParseIdentifier("extends") == Extends
    ensures ParseIdentifier("endblock") == Endblock && ParseIdentifier("variable") == Var
  {
    SpellingRoundTrip(If, "if");
    SpellingRoundTrip(Else, "else");
    SpellingRoundTrip(Insert, "insert");
    SpellingRoundTrip(Extends, "extends");
    SpellingRoundTrip(Endblock, "endblock");
  }

  /** The leaf parse_content makes for a content token. */
  function ContentNode(value: string): Node
  {
    Node(Content, ContentId, [], value, [])
  }

  /** The values of a run of tokens, in order. */
  function Values(ts: seq<Token>): (r: seq<string>)
    ensures |r| == |ts|
    ensures forall k :: 0 <= k < |ts| ==> r[k] == ts[k].value
  {
    seq(|ts|, k requires 0 <= k < |ts| => ts[k].value)
  }

  /** The values of a single token. */
  lemma ValuesOfOne(ts: seq<Token>)
    requires |ts| == 1
    ensures Values(ts) == [ts[0].value]
  {
  }

  /** The index of the first close token at or after `k`, or the token count when there is none. */
  function FirstClose(toks: seq<Token>, k: nat): (r: nat)
    requires k <= |toks|
    ensures k <= r <= |toks|
    ensures forall m :: k <= m < r ==> !IsClose(toks[m])
    ensures r < |toks| ==> IsClose(toks[r])
    decreases |toks| - k
  {
    if k == |toks| then k
    else if IsClose(toks[k]) then k
    else FirstClose(toks, k + 1)
  }

  /**
   * From `start` on, `args` are the values of the tokens before the first
   * close, in order, and `q` is just past that close, or the end of the
   * tokens when there is none.
   */
  predicate ArgumentsThenClose(toks: seq<Token>, start: nat, args: seq<string>, q: nat)
  {
    start + |args| <= |toks| &&
    (forall m :: start <= m < start + |args| ==> toks[m].value == args[m - start] && !IsClose(toks[m])) &&
    ((start + |args| < |toks| && IsClose(toks[start + |args|]) && q == start + |args| + 1) ||
     q == start + |args| == |toks|)
  }

  /**
   * parse_expression (parser.c:53-80) with the open token at `pos`: the
   * expression node and the position after it. The token after the open is
   * the directive; for ID_VAR it is also argument 0. The tokens after it up
   * to the first close are the remaining arguments, in order; the close is
   * consumed when present.
   */
  function ParseExpr(toks: seq<Token>, pos: nat): (r: Result<(Node, nat), ParseError>)
    requires pos < |toks|
    ensures r.Err? <==> pos + 1 == |toks| || IsDelimiter(toks[pos + 1])
    ensures r.Err? ==> r.error == (if pos + 1 == |toks| then NoDirective else NullDirective)
    ensures r.Ok? ==> pos + 2 <= r.value.1 <= |toks|
  {
    var i := pos + 1;
    if i == |toks| then Err(NoDirective)
    else if IsDelimiter(toks[i]) then Err(NullDirective)
    else
      var id := ParseIdentifier(toks[i].value);
      var first := if id == Var then [toks[i].value] else [];
      var j := FirstClose(toks, i + 1);
      Ok((Node(Expression, id, first + Values(toks[i + 1..j]), [], []), if j < |toks| then j + 1 else j))
  }

  /**
   * A successful parse_expression gives a leaf expression node whose
   * identifier is read from the directive, which for ID_VAR is also argument
   * 0; the other arguments are the values of the tokens up to the first
   * close, in order, and the position returned is just past that close.
   */
  lemma ParseExprMeaning(toks: seq<Token>, pos: nat, n: Node, q: nat)
    requires pos < |toks| && ParseExpr(toks, pos) == Ok((n, q))
    ensures n.kind == Expression && n.children == [] && n.content == []
    ensures n.id == ParseIdentifier(toks[pos + 1].value)
    ensures n.id == Var ==> n.args != [] && n.args[0] == toks[pos + 1].value
    ensures ArgumentsThenClose(toks, pos + 2, if n.id == Var then n.args[1..] else n.args, q)
  {
    ParseExprParts(toks, pos, n, q);
    ArgumentsOfNode(toks, pos + 2, n.id, toks[pos + 1].value, n.args, q);
  }

  /** The pieces parse_expression assembles its node from. */
  lemma ParseExprParts(toks: seq<Token>, pos: nat, n: Node, q: nat)
    requires pos < |toks| && ParseExpr(toks, pos) == Ok((n, q))
    ensures pos + 1 < |toks| && !IsDelimiter(toks[pos + 1])
    ensures n.kind == Expression && n.children == [] && n.content == []
    ensures n.id == ParseIdentifier(toks[pos + 1].value)
    ensures n.args == (if n.id == Var then [toks[pos + 1].value] else []) + Values(toks[pos + 2..FirstClose(toks, pos + 2)])
    ensures q == if FirstClose(toks, pos + 2) < |toks| then FirstClose(toks, pos + 2) + 1 else FirstClose(toks, pos + 2)
  {
  }

  /** An argument list built from an optional first value and the values up to the first close. */
  lemma ArgumentsOfNode(toks: seq<Token>, start: nat, id: Ident, v: string, args: seq<string>, q: nat)
    requires start <= |toks|
    requires args == (if id == Var then [v] else []) + Values(toks[start..FirstClose(toks, start)])
    requires q == if FirstClose(toks, start) < |toks| then FirstClose(toks, start) + 1 else FirstClose(toks, start)
    ensures ArgumentsThenClose(toks, start, if id == Var then args[1..] else args, q)
  {
    var rest := Values(toks[start..FirstClose(toks, start)]);
    ClosedArguments(toks, start);
    if id == Var {
      assert args[1..] == rest;
    } else {
      assert args == [] + rest;
    }
  }

  /** The values before the first close from `start` on are arguments ended by that close. */
  lemma ClosedArguments(toks: seq<Token>, start: nat)
    requires start <= |toks|
    ensures var c := FirstClose(toks, start);
            ArgumentsThenClose(toks, start, Values(toks[start..c]), if c < |toks| then c + 1 else c)
  {
    var c := FirstClose(toks, start);
    var args := Values(toks[start..c]);
    forall m | start <= m < c
      ensures !IsClose(toks[m]) && toks[m].value == args[m - start]
    {
      assert toks[start..c][m - start] == toks[m];
    }
  }

  /**
   * build_ast (parser.c:82-113) on `root` from position `pos`: an ENDBLOCK
   * root is returned as it is; any other root gets the children collected
   * from `pos` on.
   */
  function Build(toks: seq<Token>, pos: nat, root: Node): (r: Result<(Node, nat), ParseError>)
    requires pos <= |toks|
    ensures r.Ok? ==> pos <= r.value.1 <= |toks|
    ensures r.Ok? && root.id == Endblock ==> r.value == (root, pos)
    ensures r.Ok? && root.id != Endblock ==>
              r.value.0 == root.(children := r.value.0.children) &&
              (r.value.1 < |toks| ==> r.value.0.children != [] && EndsBlock(Last(r.value.0.children)))
    decreases |toks| - pos, 1
  {
    if root.id == Endblock then Ok((root, pos))
    else
      match Children(toks, pos, [])
      case Ok((cs, q)) => Ok((root.(children := cs), q))
      case Err(e) => Err(e)
  }

  /** A node whose return from the recursion ends the enclosing block (parser.c:104). */
  predicate EndsBlock(n: Node)
  {
    n.id == Endblock || n.id == Else
  }

  function Last<T>(s: seq<T>): T
    requires s != []
  {
    s[|s| - 1]
  }

  /**
   * The `while` loop of build_ast from position `pos`, with the children
   * appended so far in `acc`: the complete children and the final position.
   * It stops at the end of the tokens, or right after a block child that
   * came back as ENDBLOCK or ELSE, which stays the last child.
   */
  function Children(toks: seq<Token>, pos: nat, acc: seq<Node>): (r: Result<(seq<Node>, nat), ParseError>)
    requires pos <= |toks|
    ensures r.Ok? ==> pos <= r.value.1 <= |toks| && acc <= r.value.0
    ensures r.Ok? && r.value.1 < |toks| ==> |acc| < |r.value.0| && EndsBlock(Last(r.value.0))
    decreases |toks| - pos, 0
  {
    if pos == |toks| then Ok((acc, pos))
    else
      var t := toks[pos];
      match t.kind
      case Data => Children(toks, pos + 1, acc + [ContentNode(t.value)])
      case ExprOpen =>
        (match ParseExpr(toks, pos)
         case Err(e) => Err(e)
         case Ok((n, q)) => Children(toks, q, acc + [n]))
      case BlockOpen =>
        (match ParseExpr(toks, pos)
         case Err(e) => Err(e)
         case Ok((n, q)) =>
           match Build(toks, q, n)
           case Err(e) => Err(e)
           case Ok((c, q')) =>
             if EndsBlock(c) then Ok((acc + [c], q')) else Children(toks, q', acc + [c]))
      case _ => Err(Stalled)
  }

  /** The shared token position `*t_position`. */
  class Position {
    var index: int

    constructor (start: int)
      ensures index == start
    {
      index := start;
    }
  }

  /**
   * parse_content (parser.c:22-32): a CONTENT leaf holding the token text,
   * and the position moves past the token.
   */
  method ParseContent(pos: Position, token: Token) returns (node: Node)
    modifies pos
    ensures node == ContentNode(token.value)
    ensures node.kind == Content && node.id == ContentId && node.args == [] && node.children == []
    ensures pos.index == old(pos.index) + 1
  {
    node := Node(Content, ContentId, [], token.value, []);
    pos.index := pos.index + 1;
  }

  /**
   * The argument loop of parse_expression (parser.c:65-70): the values of
   * the tokens from `start` up to the first close, and that close's index.
   */
  method CollectArguments(toks: seq<Token>, start: nat) returns (args: seq<string>, i: nat)
    requires start <= |toks|
    ensures i == FirstClose(toks, start)
    ensures args == Values(toks[start..i])
  {
    args, i := [], start;
    while i < |toks|
      invariant start <= i <= |toks|
      invariant forall m :: start <= m < i ==> !IsClose(toks[m])
      invariant args == Values(toks[start..i])
    {
      if IsClose(toks[i]) {
        break;
      }
      assert toks[start..i + 1][..i - start] == toks[start..i];
      args := args + [toks[i].value];
      i := i + 1;
    }
    FirstCloseUnique(toks, start, i);
  }

  /** parse_expression (parser.c:53-80), proved equal to ParseExpr. */
  method ParseExpression(pos: Position, toks: seq<Token>) returns (r: Result<Node, ParseError>)
    requires 0 <= pos.index < |toks|
    modifies pos
    ensures match ParseExpr(toks, old(pos.index))
            case Ok((n, q)) => r == Ok(n) && pos.index == q
            case Err(e) => r == Err(e)
  {
    ghost var p0 := pos.index;
    var i := pos.index + 1;
    if i == |toks| {
      return Err(NoDirective);
    }
    if IsDelimiter(toks[i]) {
      return Err(NullDirective);
    }
    var id := ParseIdentifier(toks[i].value);
    var args: seq<string> := [];
    if id == Var {
      args := args + [toks[i].value];
    }
    i := i + 1;
    var rest;
    rest, i := CollectArguments(toks, i);
    args := args + rest;
    var n := Node(Expression, id, args, [], []);
    assert i == FirstClose(toks, p0 + 2) && !IsDelimiter(toks[p0 + 1]);
    assert args == (if id == Var then [toks[p0 + 1].value] else []) + Values(toks[p0 + 2..i]);
    assert ParseExpr(toks, p0) == Ok((n, if i < |toks| then i + 1 else i));
    if i < |toks| && IsClose(toks[i]) {
      i := i + 1;
    }
    pos.index := i;
    r := Ok(n);
  }

  /** The first close is the only index with no close before it that is a close or the end. */
  lemma {:induction false} FirstCloseUnique(toks: seq<Token>, k: nat, j: nat)
    requires k <= j <= |toks|
    requires forall m :: k <= m < j ==> !IsClose(toks[m])
    requires j == |toks| || IsClose(toks[j])
    ensures FirstClose(toks, k) == j
    decreases |toks| - k
  {
    if k < j {
      FirstCloseUnique(toks, k + 1, j);
    }
  }

  /**
   * build_ast (parser.c:82-113), proved equal to Build. The children array
   * starts empty (the C code leaves its length uninitialised); the `default:`
   * branch, which would spin forever, reports Stalled.
   */
  method BuildAst(pos: Position, toks: seq<Token>, root: Node) returns (r: Result<Node, ParseError>)
    requires 0 <= pos.index <= |toks|
    modifies pos
    ensures match Build(toks, old(pos.index), root)
            case Ok((n, q)) => r == Ok(n) && pos.index == q
            case Err(e) => r == Err(e)
    decreases |toks| - pos.index
  {
    if root.id == Endblock {
      return Ok(root);
    }
    var children: seq<Node> := [];
    while pos.index < |toks|
      invariant old(pos.index) <= pos.index <= |toks|
      invariant Children(toks, old(pos.index), []) == Children(toks, pos.index, children)
      decreases |toks| - pos.index
    {
      var token := toks[pos.index];
      match token.kind {
        case Data =>
          var node := ParseContent(pos, token);
          children := children + [node];
        case ExprOpen =>
          var e := ParseExpression(pos, toks);
          if e.Err? {
            return Err(e.error);
          }
          children := children + [e.value];
        case BlockOpen =>
          ghost var p := pos.index;
          var e := ParseExpression(pos, toks);
          if e.Err? {
            return Err(e.error);
          }
          ghost var p' := pos.index;
          assert ParseExpr(toks, p) == Ok((e.value, p'));
          var child := BuildAst(pos, toks, e.value);
          if child.Err? {
            return Err(child.error);
          }
          assert Build(toks, p', e.value) == Ok((child.value, pos.index));
          children := children + [child.value];
          if EndsBlock(child.value) {
            return Ok(root.(children := children));
          }
        case _ =>
          return Err(Stalled);
      }
    }
    r := Ok(root.(children := children));
  }

  /**
   * No node of the tree has type AST_BLOCK_EXPRESSION: a block open is
   * parsed like an expression (parser.c:57, 98).
   */
  ghost predicate NoBlockNodes(n: Node)
  {
    n.kind != BlockExpression && forall c :: c in n.children ==> NoBlockNodes(c)
  }

  /** Building keeps the tree free of block-typed nodes. */
  lemma {:induction false} BuildMakesNoBlockNodes(toks: seq<Token>, pos: nat, root: Node)
    requires pos <= |toks|
    requires root.kind != BlockExpression
    requires root.id == Endblock ==> NoBlockNodes(root)
    ensures Build(toks, pos, root).Ok? ==> NoBlockNodes(Build(toks, pos, root).value.0)
    decreases |toks| - pos, 1
  {
    if root.id != Endblock {
      ChildrenMakeNoBlockNodes(toks, pos, []);
    }
  }

  /** Collecting children keeps them free of block-typed nodes. */
  lemma {:induction false} ChildrenMakeNoBlockNodes(toks: seq<Token>, pos: nat, acc: seq<Node>)
    requires pos <= |toks|
    requires forall c :: c in acc ==> NoBlockNodes(c)
    ensures Children(toks, pos, acc).Ok? ==> forall c :: c in Children(toks, pos, acc).value.0 ==> NoBlockNodes(c)
    decreases |toks| - pos, 0
  {
    if pos < |toks| {
      var t := toks[pos];
      match t.kind
      case Data =>
        ChildrenMakeNoBlockNodes(toks, pos + 1, acc + [ContentNode(t.value)]);
      case ExprOpen =>
        if ParseExpr(toks, pos).Ok? {
          var (n, q) := ParseExpr(toks, pos).value;
          ChildrenMakeNoBlockNodes(toks, q, acc + [n]);
        }
      case BlockOpen =>
        if ParseExpr(toks, pos).Ok? {
          var (n, q) := ParseExpr(toks, pos).value;
          BuildMakesNoBlockNodes(toks, q, n);
          if Build(toks, q, n).Ok? {
            var (c, q') := Build(toks, q, n).value;
            if !EndsBlock(c) {
              ChildrenMakeNoBlockNodes(toks, q', acc + [c]);
            }
          }
        }
      case _ =>
    }
  }

  /** The whole tree for any token stream has no block-typed node. */
  lemma TreeHasNoBlockNodes(toks: seq<Token>)
    ensures Build(toks, 0, TemplateRoot).Ok? ==> NoBlockNodes(Build(toks, 0, TemplateRoot).value.0)
  {
    BuildMakesNoBlockNodes(toks, 0, TemplateRoot);
  }

  /**
   * A text without delimiters becomes a root with a single CONTENT child
   * holding the whole text (test_parser.c:27-43).
   */
  lemma ContentTokenCheck(text: string)
    requires text != []
    requires forall k :: 0 <= k < |text| ==> !OpenAt(text, k)
    ensures Build(Lex(text), 0, TemplateRoot) == Ok((TemplateRoot.(children := [ContentNode(text)]), 1))
  {
    PlainText(text);
    var toks := Lex(text);
    assert toks[0].kind == Data && toks[0].value == text;
    assert Children(toks, 1, [ContentNode(text)]) == Ok(([ContentNode(text)], 1));
    assert Children(toks, 0, []) == Children(toks, 1, [] + [ContentNode(text)]);
    assert [] + [ContentNode(text)] == [ContentNode(text)];
  }

  /** The tokens of `{{ extends base.html }}`. */
  function ExtendsTokens(): seq<Token>
  {
    [Token("", ExprOpen, 0), Token("extends", Identifier, 0), Token("base.html", Identifier, 0), Token("", ExprClose, 0)]
  }

  /** The EXTENDS node of `{{ extends base.html }}`, and the position after its close. */
  lemma ExtendsExpression()
    ensures ParseExpr(ExtendsTokens(), 0) == Ok((Node(Expression, Extends, ["base.html"], [], []), 4))
  {
    var toks := ExtendsTokens();
    assert FirstClose(toks, 2) == 3 by {
      FirstCloseUnique(toks, 2, 3);
    }
    ValuesOfOne(toks[2..3]);
    assert Values(toks[2..3]) == ["base.html"];
    assert [] + Values(toks[2..3]) == ["base.html"];
    SpellingRoundTrip(Extends, "extends");
    assert !IsDelimiter(toks[1]) && ParseIdentifier(toks[1].value) == Extends;
  }

  /**
   * `{{ extends base.html }}` gives one EXTENDS expression with the single
   * argument "base.html" and no children (test_parser.c:8-24).
   */
  lemma ExpressionTokenCheck()
    ensures Build(ExtendsTokens(), 0, TemplateRoot) ==
            Ok((TemplateRoot.(children := [Node(Expression, Extends, ["base.html"], [], [])]), 4))
  {
    var toks := ExtendsTokens();
    var n := Node(Expression, Extends, ["base.html"], [], []);
    ExtendsExpression();
    assert Children(toks, 4, [n]) == Ok(([n], 4));
    assert [] + [n] == [n];
    assert Children(toks, 0, []) == Ok(([n], 4));
  }

  /** An expression whose directive is followed by the arguments up to the close at `close`. */
  lemma ParseExprUpTo(toks: seq<Token>, pos: nat, close: nat)
    requires pos + 1 < close < |toks|
    requires !IsDelimiter(toks[pos + 1]) && IsClose(toks[close])
    requires forall m :: pos + 2 <= m < close ==> !IsClose(toks[m])
    ensures var id := ParseIdentifier(toks[pos + 1].value);
            ParseExpr(toks, pos) ==
            Ok((Node(Expression, id, (if id == Var then [toks[pos + 1].value] else []) + Values(toks[pos + 2..close]), [], []),
                close + 1))
  {
    FirstCloseUnique(toks, pos + 2, close);
  }

  /** The tokens of `{% if a %}X{% else %}Y{% endblock %}`. */
  function IfElseTokens(): seq<Token>
  {
    [Token("", BlockOpen, 0), Token("if", Identifier, 0), Token("a", Identifier, 0), Token("", BlockClose, 0),
     Token("X", Data, 0),
     Token("", BlockOpen, 0), Token("else", Identifier, 0), Token("", BlockClose, 0),
     Token("Y", Data, 0),
     Token("", BlockOpen, 0), Token("endblock", Identifier, 0), Token("", BlockClose, 0)]
  }

  const EndblockNode := Node(Expression, Endblock, [], [], [])
  const ElseNode := Node(Expression, Else, [], [], [])
  const IfNode := Node(Expression, If, ["a"], [], [])

  lemma IfExpression()
    ensures ParseExpr(IfElseTokens(), 0) == Ok((IfNode, 4))
  {
    var toks := IfElseTokens();
    SpellingRoundTrip(If, "if");
    ParseExprUpTo(toks, 0, 3);
    ValuesOfOne(toks[2..3]);
    assert Values(toks[2..3]) == ["a"];
    assert [] + Values(toks[2..3]) == ["a"];
  }

  lemma ElseExpression()
    ensures ParseExpr(IfElseTokens(), 5) == Ok((ElseNode, 8))
  {
    var toks := IfElseTokens();
    SpellingRoundTrip(Else, "else");
    ParseExprUpTo(toks, 5, 7);
    assert Values(toks[7..7]) == [];
    assert [] + Values(toks[7..7]) == [];
  }

  lemma EndblockExpression()
    ensures ParseExpr(IfElseTokens(), 9) == Ok((EndblockNode, 12))
  {
    var toks := IfElseTokens();
    SpellingRoundTrip(Endblock, "endblock");
    ParseExprUpTo(toks, 9, 11);
    assert Values(toks[11..11]) == [];
    assert [] + Values(toks[11..11]) == [];
  }

  /** The ELSE block collects Y and then the ENDBLOCK node, which ends it. */
  lemma ElseBlock()
    ensures Build(IfElseTokens(), 8, ElseNode) ==
            Ok((ElseNode.(children := [ContentNode("Y"), EndblockNode]), 12))
  {
    var toks := IfElseTokens();
    EndblockExpression();
    assert Build(toks, 12, EndblockNode) == Ok((EndblockNode, 12));
    assert [ContentNode("Y")] + [EndblockNode] == [ContentNode("Y"), EndblockNode];
    assert Children(toks, 9, [ContentNode("Y")]) == Ok(([ContentNode("Y"), EndblockNode], 12));
    assert [] + [ContentNode("Y")] == [ContentNode("Y")];
    assert Children(toks, 8, []) == Children(toks, 9, [ContentNode("Y")]);
  }

  /** The IF block collects X and then the ELSE node, which ends it. */
  lemma IfBlock()
    ensures Build(IfElseTokens(), 4, IfNode) ==
            Ok((IfNode.(children := [ContentNode("X"), ElseNode.(children := [ContentNode("Y"), EndblockNode])]), 12))
  {
    var toks := IfElseTokens();
    var els := ElseNode.(children := [ContentNode("Y"), EndblockNode]);
    ElseExpression();
    ElseBlock();
    assert [ContentNode("X")] + [els] == [ContentNode("X"), els];
    assert Children(toks, 5, [ContentNode("X")]) == Ok(([ContentNode("X"), els], 12));
    assert [] + [ContentNode("X")] == [ContentNode("X")];
    assert Children(toks, 4, []) == Children(toks, 5, [ContentNode("X")]);
  }

  /**
   * `{% if a %}X{% else %}Y{% endblock %}`: the ELSE node becomes the last
   * child of the IF node, and the ENDBLOCK node the last child of the ELSE
   * node; neither keeps its directive as an argument (parser.c:97-105).
   */
  lemma IfElseNesting()
    ensures var els := ElseNode.(children := [ContentNode("Y"), EndblockNode]);
            var iff := IfNode.(children := [ContentNode("X"), els]);
            Build(IfElseTokens(), 0, TemplateRoot) == Ok((TemplateRoot.(children := [iff]), 12))
  {
    var toks := IfElseTokens();
    var els := ElseNode.(children := [ContentNode("Y"), EndblockNode]);
    var iff := IfNode.(children := [ContentNode("X"), els]);
    IfExpression();
    IfBlock();
    assert Children(toks, 12, [iff]) == Ok(([iff], 12));
    assert [] + [iff] == [iff];
    assert Children(toks, 0, []) == Ok(([iff], 12));
  }
}
