/**
 * The renderer of the Python version (src/interpreter.py): a recursive walk
 * over the tree that appends text into named string buffers (`body`),
 * records the parent template of `extends`, picks the branch of each `if`,
 * and routes `insert` blocks. The expression evaluator is a parameter: it
 * yields a string, some other value with a truthiness, or raises.
 */
module PyInterpreter {
  import opened Wrappers
  import opened PyLexer
  import opened PyParser

  /** What the evaluator gives for an expression string. */
  datatype Value = Str(text: string) | Other(truthy: bool) | Raises

  /** Python truthiness of an evaluated value: a string is true when not empty. */
  predicate Truthy(v: Value)
    requires !v.Raises?
  {
    match v
    case Str(text) => text != ""
    case Other(truthy) => truthy
  }

  /**
   * The exceptions a walk can raise: the evaluator raising, `+=` of a
   * non-string value onto a buffer, and `args[0]` of a node without
   * arguments.
   */
  datatype RenderError = EvalError | TypeError | ArgumentIndexError

  /**
   * The evaluator (closed over `template_vars`) and `insert_vars`, both fixed
   * when the interpreter is made (interpreter.py:26-30).
   */
  datatype Env = Env(eval: string -> Value, insertVars: map<string, string>)

  /** The fields the walk changes: `body`, and `extends` as `parent`. */
  datatype State = State(body: map<string, string>, parent: Option<string>)

  /** The state a walk leaves, and the exception that stopped it, if any. */
  datatype Run = Run(st: State, failure: Option<RenderError>)

  /** `body[key] += text` */
  function Add(st: State, key: string, text: string): (r: State)
    requires key in st.body
    ensures r.body.Keys == st.body.Keys && r.parent == st.parent
    ensures r.body[key] == st.body[key] + text
    ensures forall k :: k in st.body && k != key ==> r.body[k] == st.body[k]
  {
    st.(body := st.body[key := st.body[key] + text])
  }

  /** `if key not in body: body[key] = ''` */
  function Ensure(st: State, key: string): (r: State)
    ensures key in r.body && r.body.Keys == st.body.Keys + {key} && r.parent == st.parent
    ensures key !in st.body ==> r.body[key] == ""
    ensures forall k :: k in st.body ==> r.body[k] == st.body[k]
  {
    if key in st.body then st else st.(body := st.body[key := ""])
  }

  /**
   * Buffers only grow: every key of `a` is kept in `b` and its text in `a`
   * is a prefix of its text in `b`.
   */
  ghost predicate Grows(a: State, b: State)
  {
    forall k :: k in a.body ==> k in b.body && a.body[k] <= b.body[k]
  }

  lemma GrowsTransitive(a: State, b: State, c: State)
    requires Grows(a, b) && Grows(b, c)
    ensures Grows(a, c)
  {
    forall k | k in a.body
      ensures k in c.body && a.body[k] <= c.body[k]
    {
      assert a.body[k] <= b.body[k] <= c.body[k];
    }
  }

  /** The strings joined with no separator (`"".join(args)`). */
  function JoinArgs(args: seq<string>): string
  {
    if args == [] then "" else JoinArgs(args[..|args| - 1]) + args[|args| - 1]
  }

  /**
   * visit_expression (interpreter.py:37-47): VAR appends the evaluated
   * string of its first argument, EXTENDS records its first argument as the
   * parent template (`self.extends`), and
   * every other directive does nothing.
   */
  function RenderExpression(env: Env, st: State, n: Node, key: string): (r: Run)
    requires key in st.body
    ensures Grows(st, r.st) && r.st.body.Keys == st.body.Keys
    ensures r.failure.None? && n.id == Var ==> r.st.parent == st.parent
    ensures n.id != Var ==> r.st.body == st.body
  {
    match n.id
    case Var =>
      if n.args == [] then Run(st, Some(ArgumentIndexError))
      else
        (match env.eval(n.args[0])
         case Str(text) => Run(Add(st, key, text), None)
         case Other(_) => Run(st, Some(TypeError))
         case Raises => Run(st, Some(EvalError)))
    case Extends =>
      if n.args == [] then Run(st, Some(ArgumentIndexError)) else Run(st.(parent := Some(n.args[0])), None)
    case _ => Run(st, None)
  }

  /**
   * traverse (interpreter.py:85-100): make sure `body[key]` exists, then
   * append a CONTENT leaf's text, visit an expression, or visit the children
   * of a block or the template root.
   */
  function Render(env: Env, st: State, n: Node, key: string): (r: Run)
    ensures Grows(st, r.st) && key in r.st.body
    decreases n, 2
  {
    var st1 := Ensure(st, key);
    var r := match n.nodeType
      case ContentLeaf => Run(Add(st1, key, n.content), None)
      case Expression => RenderExpression(env, st1, n, key)
      case Block => RenderFrom(env, st1, n, 0, key)
      case Template => RenderFrom(env, st1, n, 0, key);
    GrowsTransitive(st, st1, r.st);
    r
  }

  /** The loop of visit_block (interpreter.py:61-82) from child `i` on; it stops at the first exception. */
  function RenderFrom(env: Env, st: State, n: Node, i: nat, key: string): (r: Run)
    requires key in st.body && i <= |n.children|
    ensures Grows(st, r.st)
    decreases n, 1, |n.children| - i
  {
    if i == |n.children| then Run(st, None)
    else
      var r := RenderChild(env, st, n.children[i], key);
      if r.failure.Some? then r
      else
        var r' := RenderFrom(env, r.st, n, i + 1, key);
        GrowsTransitive(st, r.st, r'.st);
        r'
  }

  /**
   * One pass of visit_block's loop on child `c`: IF renders its children
   * when the joined arguments evaluate truthy and its inverse node
   * otherwise; INSERT appends the supplied text of its name, or renders
   * itself into the buffer of its name when nothing is supplied at all, or
   * does nothing; every other node is traversed under the same key.
   */
  function RenderChild(env: Env, st: State, c: Node, key: string): (r: Run)
    requires key in st.body
    ensures Grows(st, r.st)
    decreases c, 3
  {
    match c.id
    case If =>
      (match env.eval(JoinArgs(c.args))
       case Raises => Run(st, Some(EvalError))
       case v =>
         if Truthy(v) then RenderEach(env, st, c, 0, key)
         else if c.inverse.Some? then Render(env, st, c.inverse.value, key)
         else Run(st, None))
    case Insert =>
      if c.args == [] then Run(st, Some(ArgumentIndexError))
      else
        var name := c.args[0];
        if name in env.insertVars then
          var st1 := Ensure(st, name);
          var st2 := Add(st1, key, env.insertVars[name]);
          GrowsTransitive(st, st1, st2);
          Run(st2, None)
        else if env.insertVars == map[] then Render(env, st, c, name)
        else Run(st, None)
    case _ => Render(env, st, c, key)
  }

  /** `for c in node.children: traverse(c, key)` from child `j` on. */
  function RenderEach(env: Env, st: State, c: Node, j: nat, key: string): (r: Run)
    requires j <= |c.children|
    ensures Grows(st, r.st)
    decreases c, 1, |c.children| - j
  {
    if j == |c.children| then Run(st, None)
    else
      var r := Render(env, st, c.children[j], key);
      if r.failure.Some? then r
      else
        var r' := RenderEach(env, r.st, c, j + 1, key);
        GrowsTransitive(st, r.st, r'.st);
        r'
  }

  /** Interpreter: the buffers, the parent template, and the fixed environment. */
  class Interpreter {
    var body: map<string, string>
    var parent: Option<string>
    const env: Env

    /** __init__ (interpreter.py:26-30): no buffers and no parent template yet. */
    constructor (eval: string -> Value, insertVars: map<string, string>)
      ensures body == map[] && parent == None && env == Env(eval, insertVars)
    {
      body := map[];
      parent := None;
      env := Env(eval, insertVars);
    }

    function Current(): State
      reads this
    {
      State(body, parent)
    }

    /** visit_content (interpreter.py:33-34): the leaf's text goes at the end of `body[key]`. */
    method VisitContent(root: Node, key: string)
      requires key in body
      modifies this
      ensures Current() == Add(old(Current()), key, root.content)
    {
      body := body[key := body[key] + root.content];
    }

    /** visit_expression (interpreter.py:37-47), proved equal to RenderExpression. */
    method VisitExpression(root: Node, key: string) returns (failure: Option<RenderError>)
      requires key in body
      modifies this
      ensures Run(Current(), failure) == RenderExpression(env, old(Current()), root, key)
    {
      failure := None;
      match root.id {
        case Var =>
          if root.args == [] {
            return Some(ArgumentIndexError);
          }
          var v := env.eval(root.args[0]);
          match v {
            case Str(text) =>
              body := body[key := body[key] + text];
            case Other(_) =>
              failure := Some(TypeError);
            case Raises =>
              failure := Some(EvalError);
          }
        case Extends =>
          if root.args == [] {
            return Some(ArgumentIndexError);
          }
          parent := Some(root.args[0]);
        case _ =>
      }
    }

    /** traverse (interpreter.py:85-100), proved equal to Render. */
    method Traverse(root: Node, key: string) returns (failure: Option<RenderError>)
      modifies this
      ensures Run(Current(), failure) == Render(env, old(Current()), root, key)
      decreases root, 2
    {
      if key !in body {
        body := body[key := ""];
      }
      match root.nodeType {
        case ContentLeaf =>
          VisitContent(root, key);
          failure := None;
        case Expression =>
          failure := VisitExpression(root, key);
        case Block =>
          failure := VisitBlock(root, key);
        case Template =>
          failure := VisitBlock(root, key);
      }
    }

    /** visit_block (interpreter.py:50-82), proved equal to RenderFrom from the first child. */
    method VisitBlock(root: Node, key: string) returns (failure: Option<RenderError>)
      requires key in body
      modifies this
      ensures Run(Current(), failure) == RenderFrom(env, old(Current()), root, 0, key)
      decreases root, 1
    {
      var i := 0;
      while i < |root.children|
        invariant i <= |root.children| && key in body
        invariant RenderFrom(env, Current(), root, i, key) == RenderFrom(env, old(Current()), root, 0, key)
      {
        failure := VisitNode(root, root.children[i], key);
        if failure.Some? {
          return;
        }
        i := i + 1;
      }
      failure := None;
    }

    /** The body of visit_block's loop for the child `node` of `root`, proved equal to RenderChild. */
    method VisitNode(ghost root: Node, node: Node, key: string) returns (failure: Option<RenderError>)
      requires key in body && node in root.children
      modifies this
      ensures Run(Current(), failure) == RenderChild(env, old(Current()), node, key)
      ensures failure.None? ==> key in body
      decreases root, 0
    {
      failure := None;
      match node.id {
        case If =>
          var expr := JoinArgs(node.args);
          var v := env.eval(expr);
          if v.Raises? {
            return Some(EvalError);
          }
          if Truthy(v) {
            failure := TraverseChildren(node, key);
          } else if node.inverse.Some? {
            failure := Traverse(node.inverse.value, key);
          }
        case Insert =>
          if node.args == [] {
            return Some(ArgumentIndexError);
          }
          var name := node.args[0];
          if name in env.insertVars {
            if name !in body {
              body := body[name := ""];
            }
            body := body[key := body[key] + env.insertVars[name]];
          } else if env.insertVars == map[] {
            failure := Traverse(node, name);
          }
        case _ =>
          failure := Traverse(node, key);
      }
    }

    /** `for c in node.children: self.traverse(c, key)` (interpreter.py:67-68), proved equal to RenderEach. */
    method TraverseChildren(node: Node, key: string) returns (failure: Option<RenderError>)
      modifies this
      ensures Run(Current(), failure) == RenderEach(env, old(Current()), node, 0, key)
      decreases node, 3
    {
      var j := 0;
      while j < |node.children|
        invariant j <= |node.children|
        invariant RenderEach(env, Current(), node, j, key) == RenderEach(env, old(Current()), node, 0, key)
      {
        failure := Traverse(node.children[j], key);
        if failure.Some? {
          return;
        }
        j := j + 1;
      }
      failure := None;
    }
  }

  /**
   * A CONTENT leaf appends its text verbatim to `body[key]`, which starts
   * empty when it was absent; no other buffer changes.
   */
  lemma ContentAppends(env: Env, st: State, text: string, key: string)
    ensures var r := Render(env, st, ContentNode(text), key);
            r.failure.None? && r.st.parent == st.parent &&
            r.st.body[key] == (if key in st.body then st.body[key] else "") + text &&
            forall k :: k in st.body && k != key ==> r.st.body[k] == st.body[k]
  {
  }

  /**
   * A VAR expression appends the evaluated string of its first argument;
   * a value that is not a string raises TypeError and an evaluator that
   * raises stops the walk, with only the key created.
   */
  lemma VarAppends(env: Env, st: State, n: Node, key: string)
    requires n.nodeType == Expression && n.id == Var && n.args != []
    ensures var r := Render(env, st, n, key);
            var before := if key in st.body then st.body[key] else "";
            match env.eval(n.args[0])
            case Str(text) => r.failure.None? && r.st.body[key] == before + text
            case Other(_) => r == Run(Ensure(st, key), Some(TypeError))
            case Raises => r == Run(Ensure(st, key), Some(EvalError))
  {
  }

  /** EXTENDS records its first argument as the parent template and appends nothing. */
  lemma ExtendsRecordsParent(env: Env, st: State, n: Node, key: string)
    requires n.nodeType == Expression && n.id == Extends && n.args != []
    ensures var r := Render(env, st, n, key);
            r.failure.None? && r.st.body == Ensure(st, key).body && r.st.parent == Some(n.args[0])
  {
    var st1 := Ensure(st, key);
    assert RenderExpression(env, st1, n, key) == Run(st1.(parent := Some(n.args[0])), None);
    assert Render(env, st, n, key) == RenderExpression(env, st1, n, key);
  }

  /**
   * The two branches of an IF are never both rendered: with a truthy test
   * the inverse node plays no part, with a false test the children play no
   * part, and with a false test and no inverse node nothing changes.
   */
  lemma IfBranchesExclusive(env: Env, st: State, c: Node, key: string, otherInverse: Option<Node>, otherChildren: seq<Node>)
    requires key in st.body && c.id == If && !env.eval(JoinArgs(c.args)).Raises?
    ensures Truthy(env.eval(JoinArgs(c.args))) ==>
              RenderChild(env, st, c, key) == RenderChild(env, st, c.(inverse := otherInverse), key)
    ensures !Truthy(env.eval(JoinArgs(c.args))) ==>
              RenderChild(env, st, c, key) == RenderChild(env, st, c.(children := otherChildren), key)
    ensures !Truthy(env.eval(JoinArgs(c.args))) && c.inverse.None? ==> RenderChild(env, st, c, key) == Run(st, None)
  {
    RenderEachSameChildren(env, st, c, c.(inverse := otherInverse), 0, key);
  }

  /** Traversing the children from `j` on depends only on the children. */
  lemma {:induction false} RenderEachSameChildren(env: Env, st: State, c: Node, c': Node, j: nat, key: string)
    requires j <= |c.children| && c.children == c'.children
    ensures RenderEach(env, st, c, j, key) == RenderEach(env, st, c', j, key)
    decreases |c.children| - j
  {
    if j < |c.children| {
      var r := Render(env, st, c.children[j], key);
      if r.failure.None? {
        RenderEachSameChildren(env, r.st, c, c', j + 1, key);
      }
    }
  }

  /**
   * A block reached through `traverse` (as every node of an IF's
   * then-branch is) has its children visited whatever its own directive,
   * arguments and inverse node: a nested IF's test is never evaluated there.
   */
  lemma TraversedBlockIgnoresDirective(env: Env, st: State, d: Node, key: string,
                                       id: ExpressionType, args: seq<string>, inverse: Option<Node>)
    requires d.nodeType == Block
    ensures Render(env, st, d, key) == Render(env, st, d.(id := id, args := args, inverse := inverse), key)
  {
    var d' := d.(id := id, args := args, inverse := inverse);
    RenderFromSameChildren(env, Ensure(st, key), d, d', 0, key);
  }

  /** Visiting the children from `i` on depends only on the children. */
  lemma {:induction false} RenderFromSameChildren(env: Env, st: State, n: Node, n': Node, i: nat, key: string)
    requires key in st.body && i <= |n.children| && n.children == n'.children
    ensures RenderFrom(env, st, n, i, key) == RenderFrom(env, st, n', i, key)
    decreases |n.children| - i
  {
    if i < |n.children| {
      var r := RenderChild(env, st, n.children[i], key);
      if r.failure.None? {
        RenderFromSameChildren(env, r.st, n, n', i + 1, key);
      }
    }
  }

  /**
   * INSERT, named by its first argument, in its three ways: with text
   * supplied under its name it appends that text to the current buffer and
   * makes sure a buffer of its name exists, its children unread; with
   * nothing supplied at all it renders itself into the buffer of its name;
   * with other names supplied it does nothing.
   */
  lemma InsertCases(env: Env, st: State, c: Node, key: string)
    requires key in st.body && c.id == Insert && c.args != []
    ensures var name := c.args[0];
            var r := RenderChild(env, st, c, key);
            (name in env.insertVars ==>
               r.failure.None? && r.st.parent == st.parent && name in r.st.body &&
               r.st.body[key] == st.body[key] + env.insertVars[name] &&
               (forall k :: k in st.body && k != key ==> r.st.body[k] == st.body[k]) &&
               r == RenderChild(env, st, c.(children := []), key)) &&
            (env.insertVars == map[] ==> r == Render(env, st, c, name)) &&
            (name !in env.insertVars && env.insertVars != map[] ==> r == Run(st, None))
  {
  }

  /** `if a` holding `if b` holding `X`, the nested test being false. */
  const NestedIf := Node(Block, If, ["a"], "", [Node(Block, If, ["b"], "", [ContentNode("X")], None)], None)

  /**
   * The nested IF in a then-branch is rendered without its test: with `a`
   * true and `b` false the template still renders `X`.
   */
  lemma NestedIfRendersRegardless(key: string)
    ensures var env := Env(e => if e == "a" then Other(true) else Other(false), map[]);
            var root := TemplateRoot.(children := [NestedIf]);
            Render(env, State(map[], None), root, key) == Run(State(map[key := "X"], None), None)
  {
    var env := Env(e => if e == "a" then Other(true) else Other(false), map[]);
    var root := TemplateRoot.(children := [NestedIf]);
    var st := State(map[key := ""], None);
    var done := Run(State(map[key := "X"], None), None);
    var inner := NestedIf.children[0];
    assert Ensure(State(map[], None), key) == st && Ensure(st, key) == st;
    assert "" + "X" == "X";
    assert map[key := ""][key := "X"] == map[key := "X"];
    assert Render(env, st, ContentNode("X"), key) == done;
    assert RenderChild(env, st, ContentNode("X"), key) == done;
    assert RenderFrom(env, st, inner, 0, key) == done;
    assert Render(env, st, inner, key) == done;
    assert RenderEach(env, st, NestedIf, 0, key) == done;
    assert JoinArgs(NestedIf.args) == "a";
    assert RenderChild(env, st, NestedIf, key) == done;
    assert RenderFrom(env, st, root, 0, key) == done;
  }

  /**
   * A text without `{{` or `{%` goes through the whole pipeline unchanged:
   * one content token, a template root with one CONTENT leaf, and a single
   * buffer holding the text.
   */
  lemma PlainTextRendersItself(env: Env, text: string, key: string)
    requires forall k :: !OpenPair(text, k)
    ensures Parse(Tokens(text, 0)) == Ok((TemplateRoot.(children := [ContentNode(text)]), 1))
    ensures Render(env, State(map[], None), TemplateRoot.(children := [ContentNode(text)]), key) ==
            Run(State(map[key := text], None), None)
  {
    PlainTextParses(text);
    var root := TemplateRoot.(children := [ContentNode(text)]);
    var st := State(map[key := ""], None);
    var done := Run(State(map[key := text], None), None);
    assert Ensure(State(map[], None), key) == st && Ensure(st, key) == st;
    assert "" + text == text;
    assert map[key := ""][key := text] == map[key := text];
    assert Render(env, st, ContentNode(text), key) == done;
    assert RenderChild(env, st, ContentNode(text), key) == done;
    assert RenderFrom(env, st, root, 0, key) == done;
  }

  lemma PlainTextParses(text: string)
    requires forall k :: !OpenPair(text, k)
    ensures Parse(Tokens(text, 0)) == Ok((TemplateRoot.(children := [ContentNode(text)]), 1))
  {
    PlainText(text, 0);
    var toks := Tokens(text, 0);
    var root := TemplateRoot.(children := [ContentNode(text)]);
    assert |toks| == 1 && toks[0].kind == Content && toks[0].value == text;
    assert Append(TemplateRoot, ContentNode(text)) == root;
    assert Loop(toks, 1, root) == Ok((root, 1));
    assert Loop(toks, 0, TemplateRoot) == Loop(toks, 1, Append(TemplateRoot, ContentNode(text)));
    assert Parse(toks) == Build(toks, 0, TemplateRoot) == Loop(toks, 0, TemplateRoot);
  }
}
