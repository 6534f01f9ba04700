/**
 * The tree builder of the Python version (src/parser.py). It walks the
 * tokens with a shared position `token_pos`, appends nodes to the children
 * of the node being built, recurses on each block open, and unwinds when
 * the recursion comes back with an ENDBLOCK node (which stays the last
 * child) or an ELSE node (which leaves the children and becomes the
 * `inverse_node`). Trees are values here: a call returns the node it
 * filled in instead of mutating a shared object.
 */
module PyParser {
  import opened Wrappers
  import opened PyLexer

  /** ASTNodeType */
  datatype NodeType = Block | Expression | ContentLeaf | Template

  /** ExpressionType */
  datatype ExpressionType = If | Else | Insert | Extends | Endblock | ContentExpr | TemplateExpr | Var

  /**
   * ASTNode. `content` is the text of a CONTENT leaf and "" on every other
   * node (None in the source).
   */
  datatype Node = Node(nodeType: NodeType, id: ExpressionType, args: seq<string>, content: string,
                       children: seq<Node>, inverse: Option<Node>)

  /**
   * The exceptions and the hang of the source: IndexError when no token
   * follows an open, Stalled where the `case _` branch would loop forever
   * without consuming its token.
   */
  datatype ParseError = IndexError | Stalled

  /** The root the parser starts from (parser.py:63-64). */
  const TemplateRoot := Node(Template, TemplateExpr, [], "", [], None)

  /** The value string of each expression id (parser.py:13-21). */
  function Spelling(e: ExpressionType): string
  {
    match e
    case If => "if"
    case Else => "else"
    case Insert => "insert"
    case Extends => "extends"
    case Endblock => "endblock"
    case ContentExpr => "content"
    case TemplateExpr => "template"
    case Var => "var"
  }

  /**
   * parse_expr_from_token (parser.py:23, 82-86): the member spelled by the
   * token's value, VAR for anything else. The `not id` test never fires,
   * since every member is truthy.
   */
  function ParseExprFromToken(value: string): (e: ExpressionType)
    ensures Spelling(e) == value || e == Var
  {
    if value == "if" then If
    else if value == "else" then Else
    else if value == "insert" then Insert
    else if value == "extends" then Extends
    else if value == "endblock" then Endblock
    else if value == "content" then ContentExpr
    else if value == "template" then TemplateExpr
    else Var
  }

  /** The result is the member spelled by the value, or VAR when no member is spelled so. */
  lemma ParseExprFromTokenMeaning(value: string)
    ensures var e := ParseExprFromToken(value);
            Spelling(e) == value || (e == Var && forall x :: Spelling(x) != value)
  {
  }

  /** Every member's own spelling maps back to it. */
  lemma SpellingRoundTrip(e: ExpressionType)
    ensures ParseExprFromToken(Spelling(e)) == e
  {
  }

  /** exclude_from_args (parser.py:24-26): directive words that are not arguments. */
  predicate Excluded(e: ExpressionType)
  {
    e == Extends || e == Insert || e == If
  }

  predicate IsClose(t: Token)
  {
    t.kind == ExprClose || t.kind == BlockClose
  }

  /** A CONTENT leaf holding `text` (parser.py:91-93). */
  function ContentNode(text: string): Node
  {
    Node(ContentLeaf, ContentExpr, [], text, [], None)
  }

  /** The node with `child` appended to its children. */
  function Append(n: Node, child: Node): (r: Node)
    ensures r.children == n.children + [child]
    ensures r == n.(children := r.children)
  {
    n.(children := n.children + [child])
  }

  /** The index of the first close at or after `start`, or the number of tokens if none. */
  function FirstClose(toks: seq<Token>, start: nat): (c: nat)
    requires start <= |toks|
    ensures start <= c <= |toks|
    ensures forall m :: start <= m < c ==> !IsClose(toks[m])
    ensures c < |toks| ==> IsClose(toks[c])
    decreases |toks| - start
  {
    if start == |toks| || IsClose(toks[start]) then start else FirstClose(toks, start + 1)
  }

  /** The values of the tokens, in order. */
  function Values(ts: seq<Token>): (vs: seq<string>)
    ensures |vs| == |ts|
    ensures forall k :: 0 <= k < |ts| ==> vs[k] == ts[k].value
  {
    seq(|ts|, k requires 0 <= k < |ts| => ts[k].value)
  }

  /** The values of a single token. */
  lemma ValuesOfOne(ts: seq<Token>)
    requires |ts| == 1
    ensures Values(ts) == [ts[0].value]
  {
  }

  /**
   * `args` are the values of the tokens from `start` on, none of them a
   * close; then either a close follows and `q` is just past it, or the
   * tokens end there and so does `q`.
   */
  predicate ArgumentsThenClose(toks: seq<Token>, start: nat, args: seq<string>, q: nat)
  {
    start + |args| <= |toks| &&
    (forall m :: start <= m < start + |args| ==> !IsClose(toks[m]) && toks[m].value == args[m - start]) &&
    if start + |args| < |toks| then IsClose(toks[start + |args|]) && q == start + |args| + 1 else q == |toks|
  }

  /**
   * parse_expression (parser.py:98-123) at the open token `pos`: the new
   * node and the position after it. The token after the open is the
   * directive; for VAR it is also argument 0 and for IF, INSERT and EXTENDS
   * it is skipped, while for every other directive it stays the first
   * argument. The node is a BLOCK when opened by a block token.
   */
  function ParseExpr(toks: seq<Token>, pos: nat, blockStart: bool): (r: Result<(Node, nat), ParseError>)
    requires pos < |toks|
    ensures r.Err? <==> pos + 1 == |toks|
    ensures r.Err? ==> r.error == IndexError
    ensures r.Ok? ==>
              var (n, q) := r.value;
              var directive := toks[pos + 1].value;
              pos < q <= |toks| &&
              n.nodeType == (if blockStart then Block else Expression) &&
              n.id == ParseExprFromToken(directive) &&
              n.content == "" && n.children == [] && n.inverse == None
  {
    if pos + 1 == |toks| then Err(IndexError)
    else
      var directive := toks[pos + 1].value;
      var id := ParseExprFromToken(directive);
      var first := if id == Var then [directive] else [];
      var start := if id == Var || Excluded(id) then pos + 2 else pos + 1;
      var c := FirstClose(toks, start);
      var args := first + Values(toks[start..c]);
      var n := Node(if blockStart then Block else Expression, id, args, "", [], None);
      Ok((n, if c < |toks| then c + 1 else c))
  }

  /**
   * The arguments of parse_expression: for VAR the directive and then the
   * tokens up to the first close; for IF, INSERT and EXTENDS the tokens after
   * the directive up to the first close; for the other directives the tokens
   * from the directive itself up to the first close. The position ends just
   * past that close, or at the end when there is none.
   */
  lemma ParseExprArguments(toks: seq<Token>, pos: nat, blockStart: bool, n: Node, q: nat)
    requires pos < |toks|
    requires ParseExpr(toks, pos, blockStart) == Ok((n, q))
    ensures n.id == Var ==> n.args != [] && n.args[0] == toks[pos + 1].value && ArgumentsThenClose(toks, pos + 2, n.args[1..], q)
    ensures Excluded(n.id) ==> ArgumentsThenClose(toks, pos + 2, n.args, q)
    ensures n.id != Var && !Excluded(n.id) ==> ArgumentsThenClose(toks, pos + 1, n.args, q)
  {
    var start := if n.id == Var || Excluded(n.id) then pos + 2 else pos + 1;
    ParseExprParts(toks, pos, blockStart, n, q, start);
    if n.id == Var {
      VarArguments(toks, start, toks[pos + 1].value, n.args, q);
    } else {
      ArgumentsAt(toks, start, n.args, q);
    }
  }

  /** A VAR argument list: the directive, then the values up to the first close. */
  lemma VarArguments(toks: seq<Token>, start: nat, directive: string, args: seq<string>, q: nat)
    requires start <= |toks| && args == [directive] + Values(toks[start..FirstClose(toks, start)])
    requires q == if FirstClose(toks, start) < |toks| then FirstClose(toks, start) + 1 else FirstClose(toks, start)
    ensures args != [] && args[0] == directive && ArgumentsThenClose(toks, start, args[1..], q)
  {
    assert args[1..] == Values(toks[start..FirstClose(toks, start)]);
    ArgumentsAt(toks, start, args[1..], q);
  }

  /** The values up to the first close, and the position after it, satisfy ArgumentsThenClose. */
  lemma ArgumentsAt(toks: seq<Token>, start: nat, args: seq<string>, q: nat)
    requires start <= |toks| && args == Values(toks[start..FirstClose(toks, start)])
    requires q == if FirstClose(toks, start) < |toks| then FirstClose(toks, start) + 1 else FirstClose(toks, start)
    ensures ArgumentsThenClose(toks, start, args, q)
  {
    ClosedArguments(toks, start);
  }

  /**
   * The argument list and end position of a successful parse_expression,
   * whose arguments are read from `start` on.
   */
  lemma ParseExprParts(toks: seq<Token>, pos: nat, blockStart: bool, n: Node, q: nat, start: nat)
    requires pos < |toks|
    requires ParseExpr(toks, pos, blockStart) == Ok((n, q))
    requires start == if n.id == Var || Excluded(n.id) then pos + 2 else pos + 1
    ensures start <= |toks|
    ensures n.id == Var ==> n.args == [toks[pos + 1].value] + Values(toks[start..FirstClose(toks, start)])
    ensures n.id != Var ==> n.args == Values(toks[start..FirstClose(toks, start)])
    ensures q == if FirstClose(toks, start) < |toks| then FirstClose(toks, start) + 1 else FirstClose(toks, start)
  {
    var c := FirstClose(toks, start);
    assert [] + Values(toks[start..c]) == Values(toks[start..c]);
  }

  /** A node assembled as parse_expression assembles it is the one ParseExpr gives. */
  lemma ParseExprBuilds(toks: seq<Token>, pos: nat, blockStart: bool, start: nat, c: nat, n: Node, q: nat)
    requires pos + 1 < |toks|
    requires n.nodeType == (if blockStart then Block else Expression) && n.id == ParseExprFromToken(toks[pos + 1].value)
    requires start == if n.id == Var || Excluded(n.id) then pos + 2 else pos + 1
    requires start <= |toks| && c == FirstClose(toks, start) && q == if c < |toks| then c + 1 else c
    requires n.args == (if n.id == Var then [toks[pos + 1].value] else []) + Values(toks[start..c])
    requires n.content == "" && n.children == [] && n.inverse == None
    ensures ParseExpr(toks, pos, blockStart) == Ok((n, q))
  {
  }

  /** The values up to the first close are arguments followed by that close. */
  lemma ClosedArguments(toks: seq<Token>, start: nat)
    requires start <= |toks|
    ensures var c := FirstClose(toks, start);
            ArgumentsThenClose(toks, start, Values(toks[start..c]), if c < |toks| then c + 1 else c)
  {
    var c := FirstClose(toks, start);
    var args := Values(toks[start..c]);
    assert |args| == c - start;
    forall m | start <= m < c
      ensures !IsClose(toks[m]) && toks[m].value == args[m - start]
    {
      assert toks[start..c][m - start] == toks[m];
    }
  }

  /**
   * build_ast (parser.py:126-152) on `root` from position `pos`: the filled
   * in node and the final position. An ENDBLOCK root comes back at once.
   */
  function Build(toks: seq<Token>, pos: nat, root: Node): (r: Result<(Node, nat), ParseError>)
    requires pos <= |toks|
    ensures r.Ok? ==> pos <= r.value.1 <= |toks|
    ensures r.Ok? ==> Keeps(root, r.value.0)
    ensures r.Ok? && root.id == Endblock ==> r.value == (root, pos)
    decreases |toks| - pos, 1
  {
    if root.id == Endblock then Ok((root, pos)) else Loop(toks, pos, root)
  }

  /**
   * `after` is `before` with more children appended and possibly a new
   * inverse node, everything else unchanged.
   */
  predicate Keeps(before: Node, after: Node)
  {
    after == before.(children := after.children, inverse := after.inverse) && before.children <= after.children
  }

  /**
   * The `while` loop of build_ast from `pos`. It stops at the end of the
   * tokens; right after a block whose recursion came back as ENDBLOCK, which
   * stays the last child; or right after one that came back as ELSE, which
   * is popped from the children and becomes the inverse node.
   */
  function Loop(toks: seq<Token>, pos: nat, root: Node): (r: Result<(Node, nat), ParseError>)
    requires pos <= |toks|
    ensures r.Ok? ==> pos <= r.value.1 <= |toks| && Keeps(root, r.value.0)
    ensures r.Ok? && r.value.0.inverse != root.inverse ==>
              r.value.0.inverse.Some? && r.value.0.inverse.value.id == Else && r.value.0.inverse.value.nodeType == Block
    decreases |toks| - pos, 0
  {
    if pos == |toks| then Ok((root, pos))
    else
      var t := toks[pos];
      match t.kind
      case Content => Loop(toks, pos + 1, Append(root, ContentNode(t.value)))
      case ExprOpen =>
        (match ParseExpr(toks, pos, false)
         case Err(e) => Err(e)
         case Ok((n, q)) => Loop(toks, q, Append(root, n)))
      case BlockOpen =>
        (match ParseExpr(toks, pos, true)
         case Err(e) => Err(e)
         case Ok((n, q)) =>
           match Build(toks, q, n)
           case Err(e) => Err(e)
           case Ok((c, q')) =>
             if c.id == Else then Ok((root.(inverse := Some(c)), q'))
             else if c.id == Endblock then Ok((Append(root, c), q'))
             else Loop(toks, q', Append(root, c)))
      case _ => Err(Stalled)
  }

  /** Parser.__init__ (parser.py:61-68): the tree built from the template root. */
  function Parse(toks: seq<Token>): (r: Result<(Node, nat), ParseError>)
    ensures r.Ok? ==> Keeps(TemplateRoot, r.value.0) && r.value.1 <= |toks|
  {
    if toks == [] then Ok((TemplateRoot, 0)) else Build(toks, 0, TemplateRoot)
  }

  /** Parser: the shared position `token_pos` and the tree `root`. */
  class Parser {
    var tokenPos: nat
    var root: Node

    /** The state before any token is read (parser.py:62-64). */
    constructor Init()
      ensures tokenPos == 0 && root == TemplateRoot
    {
      tokenPos := 0;
      root := TemplateRoot;
    }

    /**
     * parse_content (parser.py:89-95): a CONTENT leaf with the token's value
     * appended to `root`; the position moves past the token.
     */
    method ParseContent(tokens: seq<Token>, root: Node) returns (r: Node)
      requires tokenPos < |tokens|
      modifies this`tokenPos
      ensures r == Append(root, ContentNode(tokens[old(tokenPos)].value))
      ensures tokenPos == old(tokenPos) + 1
    {
      var t := tokens[tokenPos];
      var node := Node(ContentLeaf, ContentExpr, [], t.value, [], None);
      r := root.(children := root.children + [node]);
      tokenPos := tokenPos + 1;
    }

    /**
     * parse_expression (parser.py:98-123), proved equal to ParseExpr: the
     * node is appended to `root` and the position moves past the close. An
     * IndexError leaves the position where it was.
     */
    method ParseExpression(tokens: seq<Token>, root: Node, blockStart: bool) returns (r: Result<Node, ParseError>)
      requires tokenPos < |tokens|
      modifies this`tokenPos
      ensures match ParseExpr(tokens, old(tokenPos), blockStart)
              case Ok((n, q)) => r == Ok(Append(root, n)) && tokenPos == q
              case Err(e) => r == Err(e) && tokenPos == old(tokenPos)
    {
      var i := tokenPos + 1;
      if i >= |tokens| {
        return Err(IndexError);
      }
      var t := tokens[i];
      var node := Node(if blockStart then Block else Expression, ParseExprFromToken(t.value), [], "", [], None);
      if node.id == Var {
        node := node.(args := node.args + [t.value]);
        assert node.args == [t.value];
        i := i + 1;
      }
      if Excluded(node.id) {
        i := i + 1;
      }
      ghost var start := i;
      var rest;
      rest, i := CollectArguments(tokens, i);
      ghost var first := node.args;
      node := node.(args := node.args + rest);
      assert node == Node(if blockStart then Block else Expression, ParseExprFromToken(t.value),
                          first + Values(tokens[start..i]), "", [], None);
      r := Ok(root.(children := root.children + [node]));
      ghost var c := i;
      if i < |tokens| && IsClose(tokens[i]) {
        i := i + 1;
      }
      assert start == if node.id == Var || Excluded(node.id) then tokenPos + 2 else tokenPos + 1;
      assert c == FirstClose(tokens, start) && i == if c < |tokens| then c + 1 else c;
      assert first == if node.id == Var then [t.value] else [];
      ParseExprBuilds(tokens, tokenPos, blockStart, start, c, node, i);
      tokenPos := i;
    }

    /**
     * build_ast (parser.py:126-152), proved equal to Build. The block just
     * parsed is the last child; the recursion fills it in, and an ELSE result
     * is popped again and stored as the inverse node. The `case _` branch,
     * which would spin forever, reports Stalled.
     */
    method BuildAst(tokens: seq<Token>, root: Node) returns (r: Result<Node, ParseError>)
      requires tokenPos <= |tokens|
      modifies this`tokenPos
      ensures match Build(tokens, old(tokenPos), root)
              case Ok((n, q)) => r == Ok(n) && tokenPos == q
              case Err(e) => r == Err(e)
      decreases |tokens| - tokenPos
    {
      if root.id == Endblock {
        return Ok(root);
      }
      var node := root;
      while tokenPos < |tokens|
        invariant old(tokenPos) <= tokenPos <= |tokens|
        invariant Loop(tokens, tokenPos, node) == Loop(tokens, old(tokenPos), root)
        decreases |tokens| - tokenPos
      {
        var t := tokens[tokenPos];
        match t.kind {
          case Content =>
            node := ParseContent(tokens, node);
          case ExprOpen =>
            var e := ParseExpression(tokens, node, false);
            if e.Err? {
              return Err(e.error);
            }
            node := e.value;
          case BlockOpen =>
            ghost var before := node;
            ghost var p := tokenPos;
            var e := ParseExpression(tokens, node, true);
            if e.Err? {
              return Err(e.error);
            }
            node := e.value;
            ghost var q := tokenPos;
            var block := node.children[|node.children| - 1];
            assert ParseExpr(tokens, p, true) == Ok((block, q));
            var child := BuildAst(tokens, block);
            if child.Err? {
              return Err(child.error);
            }
            assert Build(tokens, q, block) == Ok((child.value, tokenPos));
            node := node.(children := node.children[..|node.children| - 1] + [child.value]);
            assert node == Append(before, child.value);
            if child.value.id == Else {
              node := node.(children := node.children[..|node.children| - 1], inverse := Some(child.value));
              assert node.children == before.children;
              return Ok(node);
            }
            if child.value.id == Endblock {
              return Ok(node);
            }
          case _ =>
            return Err(Stalled);
        }
      }
      r := Ok(node);
    }
  }

  /**
   * The argument loop of parse_expression (parser.py:112-117): the values of
   * the tokens from `start` up to the first close, and that close's index.
   */
  method CollectArguments(tokens: seq<Token>, start: nat) returns (args: seq<string>, i: nat)
    requires start <= |tokens|
    ensures i == FirstClose(tokens, start)
    ensures args == Values(tokens[start..i])
  {
    args, i := [], start;
    while i < |tokens|
      invariant start <= i <= |tokens|
      invariant forall m :: start <= m < i ==> !IsClose(tokens[m])
      invariant args == Values(tokens[start..i])
    {
      var t := tokens[i];
      if IsClose(t) {
        break;
      }
      assert tokens[start..i + 1][..i - start] == tokens[start..i];
      args := args + [t.value];
      i := i + 1;
    }
    FirstCloseUnique(tokens, start, i);
  }

  /** The first close is the only index with no close before it that is a close or the end. */
  lemma {:induction false} FirstCloseUnique(toks: seq<Token>, k: nat, j: nat)
    requires k <= j <= |toks|
    requires forall m :: k <= m < j ==> !IsClose(toks[m])
    requires j == |toks| || IsClose(toks[j])
    ensures FirstClose(toks, k) == j
    decreases |toks| - k
  {
    if k < j {
      FirstCloseUnique(toks, k + 1, j);
    }
  }

  /**
   * Parser.__init__ (parser.py:61-68), proved equal to Parse. An exception
   * (or the hang) during building means no parser is made.
   */
  method NewParser(tokens: seq<Token>) returns (r: Result<Parser, ParseError>)
    ensures match Parse(tokens)
            case Ok((n, q)) => r.Ok? && r.value.root == n && r.value.tokenPos == q
            case Err(e) => r == Err(e)
  {
    var p := new Parser.Init();
    if tokens != [] {
      var built := p.BuildAst(tokens, p.root);
      if built.Err? {
        return Err(built.error);
      }
      p.root := built.value;
    }
    r := Ok(p);
  }

  predicate IsBlock(n: Node, e: ExpressionType)
  {
    n.nodeType == Block && n.id == e
  }

  /**
   * The tree shape build_ast leaves: no ELSE block among any node's
   * children, an ENDBLOCK block only as a last child, and an inverse node
   * only ever an ELSE block.
   */
  ghost predicate WellFormed(n: Node)
  {
    (forall k :: 0 <= k < |n.children| ==>
       WellFormed(n.children[k]) && !IsBlock(n.children[k], Else) &&
       (IsBlock(n.children[k], Endblock) ==> k == |n.children| - 1)) &&
    (n.inverse.Some? ==> IsBlock(n.inverse.value, Else) && WellFormed(n.inverse.value))
  }

  /** No child is an ENDBLOCK block yet, so more children may follow. */
  ghost predicate Unterminated(n: Node)
  {
    forall k :: 0 <= k < |n.children| ==> !IsBlock(n.children[k], Endblock)
  }

  /** Appending a well-formed non-ELSE child keeps the node well formed. */
  lemma AppendWellFormed(n: Node, c: Node)
    requires WellFormed(n) && Unterminated(n) && WellFormed(c) && !IsBlock(c, Else)
    ensures WellFormed(Append(n, c))
    ensures !IsBlock(c, Endblock) ==> Unterminated(Append(n, c))
  {
    var r := Append(n, c);
    assert forall k :: 0 <= k < |n.children| ==> r.children[k] == n.children[k];
  }

  /** Building from a well-formed node gives a well-formed tree. */
  lemma {:induction false} BuildWellFormed(toks: seq<Token>, pos: nat, root: Node)
    requires pos <= |toks|
    requires WellFormed(root) && (root.id != Endblock ==> Unterminated(root))
    ensures Build(toks, pos, root).Ok? ==> WellFormed(Build(toks, pos, root).value.0)
    decreases |toks| - pos, 1
  {
    if root.id != Endblock {
      LoopWellFormed(toks, pos, root);
    }
  }

  lemma {:induction false} LoopWellFormed(toks: seq<Token>, pos: nat, root: Node)
    requires pos <= |toks|
    requires WellFormed(root) && Unterminated(root)
    ensures Loop(toks, pos, root).Ok? ==> WellFormed(Loop(toks, pos, root).value.0)
    decreases |toks| - pos, 0
  {
    if pos < |toks| {
      var t := toks[pos];
      match t.kind
      case Content =>
        AppendWellFormed(root, ContentNode(t.value));
        LoopWellFormed(toks, pos + 1, Append(root, ContentNode(t.value)));
      case ExprOpen =>
        if ParseExpr(toks, pos, false).Ok? {
          var (n, q) := ParseExpr(toks, pos, false).value;
          AppendWellFormed(root, n);
          LoopWellFormed(toks, q, Append(root, n));
        }
      case BlockOpen =>
        if ParseExpr(toks, pos, true).Ok? {
          var (n, q) := ParseExpr(toks, pos, true).value;
          BuildWellFormed(toks, q, n);
          if Build(toks, q, n).Ok? {
            var (c, q') := Build(toks, q, n).value;
            if c.id != Else {
              AppendWellFormed(root, c);
              if c.id != Endblock {
                LoopWellFormed(toks, q', Append(root, c));
              }
            }
          }
        }
      case _ =>
    }
  }

  /** Every tree the parser builds is well formed. */
  lemma ParseWellFormed(toks: seq<Token>)
    ensures Parse(toks).Ok? ==> WellFormed(Parse(toks).value.0)
  {
    if toks != [] {
      BuildWellFormed(toks, 0, TemplateRoot);
    }
  }

  /** A point of the token stream where a group may start: between groups or after their content. */
  ghost predicate Resumable(ts: seq<Token>)
  {
    Accepts(ts, Between) || Accepts(ts, AfterContent) || Accepts(ts, Ended)
  }

  /**
   * Scanning a stream of the lexer's shape for the first close ends either
   * at the end or at a close that is followed by a fresh group.
   */
  lemma {:induction false} CloseResumes(toks: seq<Token>, start: nat, p: Phase)
    requires start <= |toks| && Accepts(toks[start..], p)
    ensures FirstClose(toks, start) == |toks| || Accepts(toks[FirstClose(toks, start) + 1..], Between)
    decreases |toks| - start
  {
    if start < |toks| {
      var t := toks[start];
      AcceptsAt(toks, start, p);
      if p == Between {
        CloseResumes(toks, start + 1, AfterContent);
      } else if p == AfterContent {
        if t.kind == Content {
          CloseResumes(toks, start + 1, Ended);
        } else {
          CloseResumes(toks, start + 1, InGroup(t.kind, t.lineNo));
        }
      } else if !IsClose(t) {
        CloseResumes(toks, start + 1, p);
      }
    }
  }

  /** The first step of Accepts on the tokens from `start`, and where the first close is. */
  lemma AcceptsAt(toks: seq<Token>, start: nat, p: Phase)
    requires start < |toks| && Accepts(toks[start..], p)
    ensures p != Ended
    ensures p == Between ==> toks[start].kind == Content && Accepts(toks[start + 1..], AfterContent)
    ensures p == AfterContent ==>
              (toks[start].kind == Content && Accepts(toks[start + 1..], Ended)) ||
              ((toks[start].kind == ExprOpen || toks[start].kind == BlockOpen) &&
               Accepts(toks[start + 1..], InGroup(toks[start].kind, toks[start].lineNo)))
    ensures p.InGroup? && !IsClose(toks[start]) ==> Accepts(toks[start + 1..], p)
    ensures p.InGroup? && IsClose(toks[start]) ==> Accepts(toks[start + 1..], Between)
    ensures !IsClose(toks[start]) ==> FirstClose(toks, start) == FirstClose(toks, start + 1)
    ensures IsClose(toks[start]) ==> FirstClose(toks, start) == start
    ensures !p.InGroup? ==> !IsClose(toks[start])
  {
    assert toks[start..][0] == toks[start] && toks[start..][1..] == toks[start + 1..];
  }

  /**
   * An open of the lexer's shape is followed by a directive, and
   * parse_expression ends where a fresh group may start.
   */
  lemma ExpressionResumes(toks: seq<Token>, pos: nat, blockStart: bool, k: TokenType, l: nat)
    requires pos < |toks| && Accepts(toks[pos + 1..], InGroup(k, l))
    ensures ParseExpr(toks, pos, blockStart).Ok?
    ensures Resumable(toks[ParseExpr(toks, pos, blockStart).value.1..])
  {
    assert pos + 1 < |toks|;
    var (n, q) := ParseExpr(toks, pos, blockStart).value;
    var start := if n.id == Var || Excluded(n.id) then pos + 2 else pos + 1;
    var c := FirstClose(toks, start);
    ParseExprParts(toks, pos, blockStart, n, q, start);
    GroupTail(toks, pos + 1, k, l, start);
    if c == |toks| {
      assert toks[q..] == [];
    }
  }

  /** After the directive, or at it, the scan is still inside the group or just past its close. */
  lemma GroupTail(toks: seq<Token>, at: nat, k: TokenType, l: nat, start: nat)
    requires at < |toks| && Accepts(toks[at..], InGroup(k, l))
    requires start == at || start == at + 1
    ensures FirstClose(toks, start) == |toks| || Accepts(toks[FirstClose(toks, start) + 1..], Between)
  {
    if start == at {
      CloseResumes(toks, start, InGroup(k, l));
    } else {
      assert toks[at..][1..] == toks[start..];
      if IsClose(toks[at]) {
        CloseResumes(toks, start, Between);
      } else {
        CloseResumes(toks, start, InGroup(k, l));
      }
    }
  }

  /** On a stream of the lexer's shape the builder neither raises nor stalls. */
  lemma {:induction false} BuildResumes(toks: seq<Token>, pos: nat, root: Node)
    requires pos <= |toks| && Resumable(toks[pos..])
    ensures Build(toks, pos, root).Ok?
    ensures Resumable(toks[Build(toks, pos, root).value.1..])
    decreases |toks| - pos, 1
  {
    if root.id != Endblock {
      LoopResumes(toks, pos, root);
    }
  }

  lemma {:induction false} LoopResumes(toks: seq<Token>, pos: nat, root: Node)
    requires pos <= |toks| && Resumable(toks[pos..])
    ensures Loop(toks, pos, root).Ok?
    ensures Resumable(toks[Loop(toks, pos, root).value.1..])
    decreases |toks| - pos, 0
  {
    if pos < |toks| {
      var t := toks[pos];
      assert toks[pos..][1..] == toks[pos + 1..];
      assert t.kind == Content || t.kind == ExprOpen || t.kind == BlockOpen;
      match t.kind
      case Content =>
        LoopResumes(toks, pos + 1, Append(root, ContentNode(t.value)));
      case ExprOpen =>
        ExpressionResumes(toks, pos, false, t.kind, t.lineNo);
        var (n, q) := ParseExpr(toks, pos, false).value;
        LoopResumes(toks, q, Append(root, n));
      case BlockOpen =>
        ExpressionResumes(toks, pos, true, t.kind, t.lineNo);
        var (n, q) := ParseExpr(toks, pos, true).value;
        BuildResumes(toks, q, n);
        var (c, q') := Build(toks, q, n).value;
        if c.id != Else && c.id != Endblock {
          LoopResumes(toks, q', Append(root, c));
        }
    }
  }

  /**
   * Parsing what the tokenizer produces never raises IndexError and never
   * reaches the `case _` branch: every open is followed by its group and a
   * close, so the position always lands on content or an open.
   */
  lemma ParseTokensSucceeds(text: string, line: nat)
    ensures Parse(Tokens(text, line)).Ok?
  {
    var toks := Tokens(text, line);
    TokensAccepted(text, line);
    assert toks[0..] == toks;
    if toks != [] {
      BuildResumes(toks, 0, TemplateRoot);
    }
  }

  /** The tokens of `{% if a %}X{% else %}Y{% endblock %}` as the tokenizer produces them. */
  function IfElseTokens(): seq<Token>
  {
    [Token(Content, "", 0), Token(BlockOpen, "", 0), Token(Identifier, "if", 0), Token(Identifier, "a", 0),
     Token(BlockClose, "", 0), Token(Content, "X", 0), Token(BlockOpen, "", 0), Token(Identifier, "else", 0),
     Token(BlockClose, "", 0), Token(Content, "Y", 0), Token(BlockOpen, "", 0), Token(Identifier, "endblock", 0),
     Token(BlockClose, "", 0)]
  }

  const EndblockNode := Node(Block, Endblock, ["endblock"], "", [], None)
  const ElseNode := Node(Block, Else, ["else"], "", [ContentNode("Y"), EndblockNode], None)
  const IfNode := Node(Block, If, ["a"], "", [ContentNode("X")], Some(ElseNode))

  lemma EndblockStep()
    ensures ParseExpr(IfElseTokens(), 10, true) == Ok((EndblockNode, 13))
  {
    var t := IfElseTokens();
    assert ParseExprFromToken("endblock") == Endblock;
    assert FirstClose(t, 11) == 12;
    ValuesOfOne(t[11..12]);
    assert Values(t[11..12]) == ["endblock"];
    assert [] + Values(t[11..12]) == ["endblock"];
  }

  lemma ElseExpression()
    ensures ParseExpr(IfElseTokens(), 6, true) == Ok((ElseNode.(children := []), 9))
  {
    var t := IfElseTokens();
    assert ParseExprFromToken("else") == Else;
    assert FirstClose(t, 7) == 8;
    ValuesOfOne(t[7..8]);
    assert Values(t[7..8]) == ["else"];
    assert [] + Values(t[7..8]) == ["else"];
  }

  lemma ElseBlock()
    ensures Build(IfElseTokens(), 9, ElseNode.(children := [])) == Ok((ElseNode, 13))
  {
    var t := IfElseTokens();
    EndblockStep();
    var e0 := ElseNode.(children := []);
    var e1 := Append(e0, ContentNode("Y"));
    assert Build(t, 13, EndblockNode) == Ok((EndblockNode, 13));
    assert Loop(t, 10, e1) == Ok((Append(e1, EndblockNode), 13));
    assert Loop(t, 9, e0) == Loop(t, 10, e1);
    assert Append(e1, EndblockNode) == ElseNode;
  }

  lemma IfExpression()
    ensures ParseExpr(IfElseTokens(), 1, true) == Ok((IfNode.(children := [], inverse := None), 5))
  {
    var t := IfElseTokens();
    assert ParseExprFromToken("if") == If;
    assert FirstClose(t, 3) == 4;
    ValuesOfOne(t[3..4]);
    assert Values(t[3..4]) == ["a"];
    assert [] + Values(t[3..4]) == ["a"];
  }

  lemma IfBlock()
    ensures Build(IfElseTokens(), 5, IfNode.(children := [], inverse := None)) == Ok((IfNode, 13))
  {
    var t := IfElseTokens();
    ElseExpression();
    ElseBlock();
    var i0 := IfNode.(children := [], inverse := None);
    var i1 := Append(i0, ContentNode("X"));
    assert Loop(t, 6, i1) == Ok((i1.(inverse := Some(ElseNode)), 13));
    assert Loop(t, 5, i0) == Loop(t, 6, i1);
    assert i1.(inverse := Some(ElseNode)) == IfNode;
  }

  /**
   * The if/else example: the if block holds the then-branch, the else block
   * is its inverse node and not one of its children, and the endblock stays
   * the last child of the else block.
   */
  lemma IfElseTree()
    ensures Parse(IfElseTokens()) == Ok((TemplateRoot.(children := [ContentNode(""), IfNode]), 13))
  {
    var t := IfElseTokens();
    IfExpression();
    IfBlock();
    var r1 := Append(TemplateRoot, ContentNode(""));
    assert Loop(t, 13, Append(r1, IfNode)) == Ok((Append(r1, IfNode), 13));
    assert Loop(t, 1, r1) == Loop(t, 13, Append(r1, IfNode));
    assert Loop(t, 0, TemplateRoot) == Loop(t, 1, r1);
    assert Append(r1, IfNode) == TemplateRoot.(children := [ContentNode(""), IfNode]);
    assert Parse(t) == Build(t, 0, TemplateRoot) == Loop(t, 0, TemplateRoot);
  }

  /** `{% endblock %}X`: the tokens of a stray endblock followed by text. */
  function StrayEndblockTokens(): seq<Token>
  {
    [Token(Content, "", 0), Token(BlockOpen, "", 0), Token(Identifier, "endblock", 0),
     Token(BlockClose, "", 0), Token(Content, "X", 0)]
  }

  /**
   * An endblock at the top level ends the whole parse: the text after it is
   * never read.
   */
  lemma StrayEndblockStops()
    ensures Parse(StrayEndblockTokens()) ==
            Ok((TemplateRoot.(children := [ContentNode(""), EndblockNode]), 4))
  {
    var t := StrayEndblockTokens();
    assert ParseExprFromToken("endblock") == Endblock;
    assert FirstClose(t, 2) == 3;
    ValuesOfOne(t[2..3]);
    assert Values(t[2..3]) == ["endblock"];
    assert [] + Values(t[2..3]) == ["endblock"];
    assert ParseExpr(t, 1, true) == Ok((EndblockNode, 4));
    var r1 := Append(TemplateRoot, ContentNode(""));
    assert Build(t, 4, EndblockNode) == Ok((EndblockNode, 4));
    assert Loop(t, 1, r1) == Ok((Append(r1, EndblockNode), 4));
    assert Loop(t, 0, TemplateRoot) == Loop(t, 1, r1);
    assert Append(r1, EndblockNode) == TemplateRoot.(children := [ContentNode(""), EndblockNode]);
    assert Parse(t) == Build(t, 0, TemplateRoot) == Loop(t, 0, TemplateRoot);
  }
}
