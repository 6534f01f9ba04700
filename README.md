# temple: the templating pipeline, modelled in Dafny

temple turns template text into rendered text in three stages:

1. A tokenizer splits the text into content runs, open and close delimiters
   (`{{ }}` for expressions, `{% %}` for blocks) and the identifiers inside
   them.
2. A recursive-descent builder turns the tokens into a tree. A block ends when
   the recursion meets `endblock` (or `else`).
3. A renderer walks the tree into named string buffers.

The repository holds two versions of this pipeline: a C rewrite and the
original Python. They differ in many details, so each is modelled on its own
terms and the two are never merged.

| module | file | models |
|---|---|---|
| `Wrappers` | wrappers.dfy | `Option` and `Result`, shared by the other modules |
| `CStack` | c_stack.dfy | `rewrite/libber/stack.c`: the bounded `uint16_t` stack, as a class over an array |
| `CLexer` | c_lexer.dfy | `rewrite/lexer.c`: `tokenize` and `reset_str_buf`, as methods over arrays |
| `CParser` | c_parser.dfy | `rewrite/parser.c`: `parse_identifier`, `parse_content`, `parse_expression`, `build_ast` |
| `PyLexer` | py_lexer.dfy | `src/lexer.py`: the `Lexer` class and `tokenize` |
| `PyParser` | py_parser.dfy | `src/parser.py`: `ASTNode`, `parse_expr_from_token` and the `Parser` class |
| `PyInterpreter` | py_interpreter.dfy | `src/interpreter.py`: the `Interpreter` class and its visitors |

Each stateful routine is a method (a class method where the source has a
class). It is proved equal to a pure specification function of the inputs or
the old state. The lemmas then state the source's promises about those
functions. Examples of such promises:
- plain text is one content token;
- the tokens come in groups of a fixed shape;
- `else` becomes the inverse node;
- the renderer's buffers only grow;
- the two branches of an `if` exclude each other.

For the Python pipeline one lemma spans two stages: whatever the tokenizer
produces, the builder parses it without raising an exception or hanging.

Where the C code and the design description disagree, the model follows the
code:
- **Unterminated delimiter.** Neither tokenizer fails on one. When the text
  ends inside a delimiter, the C tokenizer ends the tokens with a block close,
  whatever the open's kind. When the open delimiter is the last two characters
  of the text, C emits the open token and nothing after it: `a{{` gives a
  content token and an expression open. The Python tokenizer drops the open
  and emits the text after it as one more content token, or nothing when the
  open ends the text: `a{{` gives the single content token `a`.
- **Close kind in C.** The C tokenizer picks the close token's kind from the
  character before the final `}`, not from the open it closes.
- **Last C fragment.** In C, the last identifier fragment before a close is not
  emitted unless a space follows it. It stays in the buffer and is prepended
  to the next content run: `{{ a}}b` gives an open, a close and the content
  `ab`.
- **Empty content in Python.** The Python tokenizer emits a content token
  before every open, and that token may be empty.
- **Python line count.** Python counts newlines inside delimiters too, never
  looks at position 0, and never resets `line_no` between calls.
- **Sentinels stay in the tree.** Every `endblock` node stays in the tree as
  the last child of the block it closes. In C an `else` node also stays, as a
  child of its `if`. In Python it moves to the `if`'s inverse node.
- **C block nodes.** C gives every node made by `parse_expression` the type
  expression, block opens included.
- **Python IF test.** Python's `if` evaluates its arguments joined with no
  separator, not a single named variable.
- **Nested IF in a then-branch.** An `if` directly inside a then-branch is
  traversed, not visited. Its children are therefore rendered without its own
  test being evaluated. For `{% if a %}{% if b %}X{% endblock %}{% endblock %}`
  with `a` true and `b` false, the code renders `X`, not the empty text.
- **Top-level endblock in Python.** An `endblock` at the top level of a Python
  template ends the parse, and the tokens after it are never read.

## Model

| member | source | states |
|---|---|---|
| CStack.Stack.Init | rewrite/libber/stack.c:6-10 | a new stack has `top == -1` and no contents |
| CStack.Stack.IsEmpty | rewrite/libber/stack.c:12-14 | true exactly when `top == -1`, i.e. when nothing is stored |
| CStack.Stack.IsFull | rewrite/libber/stack.c:16-18 | true exactly when `top == 999`, i.e. when 1000 entries are stored |
| CStack.Stack.Push | rewrite/libber/stack.c:34-39 | on a full stack: returns -1, `top` and `data` unchanged; otherwise: `top` one higher, the value stored there and returned, every other slot unchanged; contents gain the value at the end |
| CStack.Stack.Pop | rewrite/libber/stack.c:20-25 | on an empty stack: returns -1 and changes nothing; otherwise returns the last entry and drops it; `data` is unchanged |
| CStack.Stack.Peek | rewrite/libber/stack.c:27-32 | -1 on an empty stack, otherwise the last entry; nothing changes |
| CStack.PushThenPop | rewrite/libber/stack.c:20-39 | LIFO: a push onto a non-full stack followed by a pop returns the pushed value and restores `top` and the contents |
| CLexer.Bump | rewrite/lexer.c:69-71 | incrementing the `uint16_t` line counter wraps modulo 65536 |
| CLexer.LineAfterCountsNewlines | rewrite/lexer.c:69-71 | the line reached after a run is the start line plus its newlines, modulo 65536 |
| CLexer.Flush | rewrite/lexer.c:81-89 | a content run yields at most one token, and one exactly when the run is not empty |
| CLexer.ScanContent | rewrite/lexer.c:63-79 | the content loop stops at the first open delimiter or at the end; it appends exactly the characters it passes to the run and counts their newlines, emitting nothing |
| CLexer.ContentThenOpen | rewrite/lexer.c:61-95 | one outside pass: flushes the run, then emits and pushes an open exactly when the text does not end at the current position; the tokens written plus what remains equal the specification's tokens |
| CLexer.ScanIdentifiers | rewrite/lexer.c:99-123 | the identifier loop stops at the first close or the end; the pending fragment never holds a space; written plus remaining tokens are preserved |
| CLexer.IdentifiersThenClose | rewrite/lexer.c:96-128 | one inside pass, including the close token and the pop, preserves written plus remaining tokens |
| CLexer.Outside | rewrite/lexer.c:59-95 | the tokens emitted from a position outside any delimiter: at most one more than the characters left |
| CLexer.Inside | rewrite/lexer.c:96-129 | the tokens emitted from a position inside a delimiter: at most one more than the characters left |
| CLexer.Lex | rewrite/lexer.c:48-133 | the tokens of a text: at most one more than its characters, so a text shorter than the array always fits |
| CLexer.Tokenize | rewrite/lexer.c:48-133 | when the array has room for `Lex(text)`, the tokens written to its front are exactly `Lex(text)`, the count is their number, and every slot after them keeps its old value |
| CLexer.OutsideUpTo | rewrite/lexer.c:63-79 | up to the next open delimiter, the characters join the pending run and only their newlines move the line counter; nothing is emitted |
| CLexer.OutsidePlain | rewrite/lexer.c:63-89 | with no open delimiter ahead, the rest of the text and the pending run become a single content token, or none when both are empty |
| CLexer.PlainText | rewrite/lexer.c:63-89 | non-empty text with no `{{` or `{%` gives exactly one content token holding the whole text, stamped with its newline count modulo 65536; empty text gives none |
| CLexer.BasicTokenizeCheck | rewrite/tests/test_lexer.c:58-63 | `"This is a test"` gives exactly one token |
| CLexer.ShapeOfOutside | rewrite/lexer.c:61-95 | what the loop emits from outside a delimiter has the token shape (see LexShape) |
| CLexer.ShapeOfInside | rewrite/lexer.c:96-128 | what the loop emits from inside a delimiter, with a space-free fragment pending, has the token shape |
| CLexer.LexShape | rewrite/lexer.c:59-130 | every output is made of non-empty content tokens that are never adjacent, opens, space-free non-empty identifiers on the open's line, and closes; an open is always followed by identifiers and then a close or the end |
| CLexer.OutsideReachesOpen | rewrite/lexer.c:64-65 | an open delimiter ahead of the outside state produces an open token |
| CLexer.OpenIff | rewrite/lexer.c:64-95 | the text contains `{{` or `{%` if and only if the tokens contain an open token |
| CLexer.FirstOpen | rewrite/lexer.c:63-95 | the text before the first open delimiter is one content token (none if empty), then `{{` gives EXPR_OPEN and `{%` gives BLOCK_OPEN on the line reached there |
| CLexer.CloseKind | rewrite/lexer.c:99-128 | at a close delimiter the token is EXPR_CLOSE for `}}` and BLOCK_CLOSE for `%}`, whatever open it closes; the pending fragment is not emitted but carried into the next content run |
| CLexer.InsideUnclosed | rewrite/lexer.c:99-126 | when no close delimiter follows, only identifiers are emitted and then a final BLOCK_CLOSE |
| CLexer.MismatchedClose | rewrite/lexer.c:96-128 | `{{ a %}` gives EXPR_OPEN, the identifier `a` and BLOCK_CLOSE |
| CLexer.FragmentJoinsContent | rewrite/lexer.c:61-128 | `{{ a}}b` gives EXPR_OPEN, EXPR_CLOSE and the content `ab` |
| CLexer.OpenAtEnd | rewrite/lexer.c:59-95 | `a{{` gives the content `a` and EXPR_OPEN, with no close |
| CLexer.UnclosedAtEnd | rewrite/lexer.c:96-128 | `{{ a` gives EXPR_OPEN and BLOCK_CLOSE; the fragment `a` is dropped |
| CLexer.ResetStrBuf | rewrite/lexer.c:42-46 | `j` becomes 0, the first `size` characters become NUL, the rest of the buffer is untouched, and the size becomes 100 (as rewrite/tests/test_lexer.c:7-18 checks); inside `Tokenize`, where the run is a sequence, emptying it with `buf := []` stands for this call |
| CParser.ParseIdentifier | rewrite/parser.c:34-51 | the result is VAR or the identifier whose keyword is the text |
| CParser.ParseIdentifierMeaning | rewrite/parser.c:34-51 | a non-VAR result is the identifier spelled by the string; VAR exactly when no identifier is spelled so |
| CParser.SpellingRoundTrip | rewrite/parser.c:34-51 | each of `if`, `else`, `insert`, `extends`, `endblock`, `template` maps back to its own identifier |
| CParser.IdentifierParseCheck | rewrite/tests/test_parser.c:47-61 | the six test words map to IF, ELSE, INSERT, EXTENDS, ENDBLOCK and VAR |
| CParser.ParseExpr | rewrite/parser.c:53-80 | an error exactly when no directive follows the open or the directive is a delimiter, and which error; otherwise the position moves past the directive and stays within the tokens |
| CParser.ParseExprMeaning | rewrite/parser.c:53-80 | a successful parse gives an expression-typed node with no children; its identifier is that of the directive; for VAR the directive is argument 0. The other arguments are the following values up to the first close, in order, and the position ends just past that close or at the end |
| CParser.ParseExprUpTo | rewrite/parser.c:58-78 | with a close at a known index and none before it, the arguments are exactly the values between the directive and that close |
| CParser.ParseContent | rewrite/parser.c:22-32 | a content leaf with no arguments or children holding the token text; the position advances by exactly one |
| CParser.CollectArguments | rewrite/parser.c:64-70 | the values up to the first close, and that close's index |
| CParser.ParseExpression | rewrite/parser.c:53-80 | the method's node, position and errors agree with ParseExpr |
| CParser.Build | rewrite/parser.c:82-113 | an ENDBLOCK root is returned unchanged at the same position; otherwise only the children change, and stopping before the end means the last child is an ENDBLOCK or ELSE node |
| CParser.Children | rewrite/parser.c:88-110 | the children only grow; stopping before the end means a new last child that is ENDBLOCK or ELSE |
| CParser.BuildAst | rewrite/parser.c:82-113 | the method's tree, position and errors agree with Build |
| CParser.BuildMakesNoBlockNodes | rewrite/parser.c:82-113 | building never creates a node of type block expression |
| CParser.ChildrenMakeNoBlockNodes | rewrite/parser.c:88-110 | no child the loop appends contains a block-expression node |
| CParser.TreeHasNoBlockNodes | rewrite/parser.c:53-80 | a tree built from the template root has no block-expression node, because every parsed node is typed expression |
| CParser.ContentTokenCheck | rewrite/tests/test_parser.c:27-43 | non-empty plain text becomes a root with one content leaf holding the text |
| CParser.ExtendsExpression | rewrite/tests/test_parser.c:8-24 | the `{{ extends base.html }}` tokens give an EXTENDS expression with arguments `["base.html"]` and no children |
| CParser.ExpressionTokenCheck | rewrite/tests/test_parser.c:8-24 | the whole tree of that example is the root with that one child |
| CParser.IfExpression | rewrite/parser.c:53-80 | in the if/else example the `if` directive is not an argument |
| CParser.ElseExpression | rewrite/parser.c:53-80 | the `else` node is parsed with no arguments |
| CParser.EndblockExpression | rewrite/parser.c:53-80 | the `endblock` node is parsed with no arguments |
| CParser.ElseBlock | rewrite/parser.c:97-105 | the else block takes the following content and stops right after its endblock, which is its last child |
| CParser.IfBlock | rewrite/parser.c:97-105 | the if block stops as soon as its else child comes back, keeping it as a child |
| CParser.IfElseNesting | rewrite/parser.c:97-105 | the if/else example gives `if` with children content and `else`, the `else` holding content and `endblock` |
| PyLexer.WordEnd | src/lexer.py:64 | the end of the word at a position: no whitespace before it, whitespace or the end at it |
| PyLexer.Split | src/lexer.py:64 | every piece `str.split()` returns is a non-empty word without whitespace |
| PyLexer.SplitKeepsCharacters | src/lexer.py:64 | the words, put together, are exactly the non-whitespace characters of the text in order |
| PyLexer.SplitJoin | src/lexer.py:64 | splitting words joined by spaces gives the words back |
| PyLexer.Identifiers | src/lexer.py:64-66 | one identifier token per word, in order, all on the given line |
| PyLexer.Scan | src/lexer.py:46-79 | the tokens the loop and the final check emit from a state; outside a delimiter with unread content, the first of them is a content token |
| PyLexer.Tokens | src/lexer.py:40-81 | the tokens of a text: never empty, and the first is a content token (possibly empty, since `i > 0` always holds) |
| PyLexer.Lexer.constructor | src/lexer.py:32-37 | `line_no` starts at 0; the tokens are those of the text, none for empty text; `line_no` ends after the text's newlines |
| PyLexer.Lexer.Tokenize | src/lexer.py:40-81 | the returned tokens are `Tokens(text, line_no)`; `line_no` grows by the newlines after position 0 and is never reset |
| PyLexer.Pair | src/lexer.py:52-71 | one pass of the loop at `i`: tokens so far plus what `Scan` still emits are preserved, `j` never moves back, at most one marker is on the stack |
| PyLexer.AppendIdentifiers | src/lexer.py:64-66 | the `for` loop appends exactly the identifier tokens of the words |
| PyLexer.PlainText | src/lexer.py:51-59 | text without `{{` or `{%`, even empty text, gives one content token holding the whole text, on the line after its newlines |
| PyLexer.ScanPlain | src/lexer.py:78-79 | with no open ahead, the rest of the text from `j` becomes the final content token |
| PyLexer.ScanAccepted | src/lexer.py:51-79 | from any state the output has the group shape (see TokensAccepted) |
| PyLexer.GroupAccepted | src/lexer.py:63-69 | open, identifiers and a close of the open's family on one line form a group |
| PyLexer.TokensAccepted | src/lexer.py:40-81 | each open is preceded by a (possibly empty) content token and followed by its words as identifiers and a close of the same family, all on one line; after the last group at most two content tokens follow. Two content tokens in a row occur only there; they are what an unterminated open with text after it leaves, since the open emits no token of its own |
| PyLexer.Shift | src/lexer.py:33 | shifting keeps every token but adds the offset to its line |
| PyLexer.ScanShift | src/lexer.py:73-74 | starting `d` lines later stamps every token `d` lines later |
| PyLexer.TokensShift | src/lexer.py:33 | since `line_no` is never reset, tokenizing again after `d` newlines gives the same tokens `d` lines later |
| PyLexer.UnterminatedOpen | src/lexer.py:78-79 | `"a{{b"` gives content `a` and content `b` with no open token and no error |
| PyLexer.OpenEndsText | src/lexer.py:51-79 | `"a{{"` gives only the content `a`: the open is dropped and nothing follows it |
| PyLexer.OverlappingPairs | src/lexer.py:54-61 | in `"{%}"` the `%` ends the open and starts the close: empty content, block open, block close |
| PyParser.ParseExprFromToken | src/parser.py:82-86 | the result is VAR or the member whose value is the token's text |
| PyParser.ParseExprFromTokenMeaning | src/parser.py:82-86 | the member spelled by the value, or VAR when no member is spelled so |
| PyParser.SpellingRoundTrip | src/parser.py:23 | each member's value string maps back to it |
| PyParser.ParseExpr | src/parser.py:98-123 | IndexError exactly when no token follows the open. Otherwise the node is BLOCK for a block open and EXPRESSION otherwise; its id comes from the directive; it has no children or inverse; the position moves forward and stays within the tokens |
| PyParser.ParseExprArguments | src/parser.py:105-122 | VAR: the directive and then the values up to the first close. IF, INSERT, EXTENDS: the values after the directive. Every other directive: the values from the directive itself. The position ends just past the close or at the end |
| PyParser.ClosedArguments | src/parser.py:112-122 | the values before the first close are arguments followed by that close |
| PyParser.Build | src/parser.py:126-129 | an ENDBLOCK root comes back unchanged at the same position; otherwise only children (appended) and inverse change |
| PyParser.Loop | src/parser.py:131-152 | children are only appended to, and a changed inverse node is always an ELSE block |
| PyParser.Parse | src/parser.py:61-68 | the tree is the template root with children and possibly an inverse node added |
| PyParser.Parser.ParseContent | src/parser.py:89-95 | a content leaf with the token's value is appended and `token_pos` advances by one |
| PyParser.Parser.ParseExpression | src/parser.py:98-123 | the appended node, position and IndexError agree with ParseExpr; on error the position is unchanged |
| PyParser.Parser.BuildAst | src/parser.py:126-152 | the filled-in node, position and errors agree with Build |
| PyParser.CollectArguments | src/parser.py:112-117 | the values up to the first close, and that close's index |
| PyParser.NewParser | src/parser.py:61-68 | a parser whose root and position are those of Parse, or the error Parse reports |
| PyParser.AppendWellFormed | src/parser.py:119 | appending a well-formed non-ELSE child keeps a node well formed |
| PyParser.BuildWellFormed | src/parser.py:141-149 | building keeps the tree well formed: no ELSE block among children, an ENDBLOCK block only as the last child, an inverse only an ELSE block |
| PyParser.LoopWellFormed | src/parser.py:131-152 | the loop keeps the tree well formed |
| PyParser.ParseWellFormed | src/parser.py:141-149 | every parsed tree is well formed |
| PyParser.CloseResumes | src/parser.py:112-122 | in the tokenizer's output, the first close is followed by a fresh group, or there is none |
| PyParser.ExpressionResumes | src/parser.py:99-123 | at an open of the tokenizer's output, parse_expression succeeds and ends where a fresh group may start |
| PyParser.GroupTail | src/parser.py:105-110 | skipping the directive of a group still leads to its close or to a fresh group |
| PyParser.BuildResumes | src/parser.py:126-152 | on the tokenizer's output, build_ast succeeds and ends at a group boundary |
| PyParser.LoopResumes | src/parser.py:131-152 | on the tokenizer's output, the loop succeeds and ends at a group boundary |
| PyParser.ParseTokensSucceeds | src/parser.py:126-152 | parsing whatever the tokenizer produces never raises IndexError and never reaches the non-advancing `case _` |
| PyParser.EndblockStep | src/parser.py:98-123 | in the if/else example the endblock node keeps `endblock` as its argument |
| PyParser.ElseExpression | src/parser.py:105-117 | the else node keeps `else` as its argument |
| PyParser.ElseBlock | src/parser.py:147-149 | the else block takes the following content and its endblock, which stays its last child |
| PyParser.IfExpression | src/parser.py:109-110 | the `if` directive is skipped, leaving the argument `a` |
| PyParser.IfBlock | src/parser.py:141-146 | the returned else block is popped from the if's children and becomes its inverse |
| PyParser.IfElseTree | src/parser.py:126-152 | the if/else example gives the root with an empty content leaf and an if block whose children are `X` and whose inverse is the else block holding `Y` and the endblock |
| PyParser.StrayEndblockStops | src/parser.py:147-149 | an endblock at the top level ends the parse; the text after it is never read |
| PyInterpreter.Add | src/interpreter.py:34 | `+=` appends to one buffer and leaves the keys and every other buffer unchanged |
| PyInterpreter.Ensure | src/interpreter.py:86-87 | the key exists afterwards, empty if it was absent, and every existing buffer is unchanged |
| PyInterpreter.GrowsTransitive | src/interpreter.py:34 | buffer growth composes across steps |
| PyInterpreter.RenderExpression | src/interpreter.py:37-47 | keys never change and buffers only grow; a non-VAR directive leaves the buffers alone; a VAR leaves the parent template alone |
| PyInterpreter.Render | src/interpreter.py:85-100 | afterwards the key exists, and every existing buffer is kept with its old text as a prefix, even when an exception stops the walk |
| PyInterpreter.RenderFrom | src/interpreter.py:61-82 | the block's loop only grows the buffers |
| PyInterpreter.RenderChild | src/interpreter.py:62-82 | one child's visit only grows the buffers |
| PyInterpreter.RenderEach | src/interpreter.py:67-68 | the then-branch loop only grows the buffers |
| PyInterpreter.Interpreter.constructor | src/interpreter.py:26-30 | no buffers, no parent template, the evaluator and `insert_vars` as given |
| PyInterpreter.Interpreter.VisitContent | src/interpreter.py:33-34 | the leaf's text is appended to `body[key]` |
| PyInterpreter.Interpreter.VisitExpression | src/interpreter.py:37-47 | the new buffers, parent template and exception agree with RenderExpression |
| PyInterpreter.Interpreter.Traverse | src/interpreter.py:85-100 | the new buffers, parent template and exception agree with Render |
| PyInterpreter.Interpreter.VisitBlock | src/interpreter.py:50-82 | the new state and exception agree with RenderFrom from the first child |
| PyInterpreter.Interpreter.VisitNode | src/interpreter.py:62-82 | the new state and exception agree with RenderChild |
| PyInterpreter.Interpreter.TraverseChildren | src/interpreter.py:67-68 | the new state and exception agree with RenderEach |
| PyInterpreter.ContentAppends | src/interpreter.py:33-34 | a content leaf appends its text verbatim to `body[key]` (empty if it was absent) and changes no other buffer |
| PyInterpreter.VarAppends | src/interpreter.py:43 | VAR appends the evaluated string of argument 0; a non-string raises TypeError and an evaluator error stops the walk, only the key having been created |
| PyInterpreter.ExtendsRecordsParent | src/interpreter.py:44-45 | EXTENDS records argument 0 as the parent template and appends nothing |
| PyInterpreter.IfBranchesExclusive | src/interpreter.py:63-70 | a truthy test renders the children whatever the inverse; a false test renders the inverse whatever the children; a false test without inverse changes nothing |
| PyInterpreter.RenderEachSameChildren | src/interpreter.py:67-68 | the then-branch loop depends only on the children |
| PyInterpreter.TraversedBlockIgnoresDirective | src/interpreter.py:94-95 | a block reached through `traverse` renders the same whatever its directive, arguments and inverse |
| PyInterpreter.RenderFromSameChildren | src/interpreter.py:61-82 | a block's loop depends only on its children |
| PyInterpreter.InsertCases | src/interpreter.py:71-80 | INSERT with its name supplied: appends the supplied text, makes sure the name's buffer exists, ignores its children. With nothing supplied: renders itself under its name. With other names supplied: nothing changes |
| PyInterpreter.NestedIfRendersRegardless | src/interpreter.py:67-68 | `if a` holding `if b` holding `X`, with `a` true and `b` false, renders `X` |
| PyInterpreter.PlainTextParses | src/parser.py:131-135 | text without delimiters parses to the root with one content leaf holding the text |
| PyInterpreter.PlainTextRendersItself | src/interpreter.py:85-100 | text without delimiters renders to a single buffer holding exactly that text |

## Left out

- src/evaluate.py (`safe_eval`) is not part of this model. It depends on Python's own expression parser and on mixed-type and floating-point arithmetic. The renderer takes the evaluator as a parameter: a function from the expression string to a string, another value with a truthiness, or an exception. `template_vars` is folded into that function.
- rewrite/interpreter.c, temple.py and src/temple.py are not part of this model. They do file reading and writing, path resolution, the recursive pass over `extends` parents, and `printf` output.
- The debug printers are left out: `print_expr` and `print_token` in C, the `print_*` functions of the C parser, `Parser.print_nary_tree` and `ASTNode.__repr__`.
- C memory handling is left out: `malloc`, `realloc` and `memcpy` sizes, the buffer growth test, and the fixed capacity of 20 children and 20 arguments. Runs, values and children are sequences, and fresh nodes start with no children or arguments, where the C code leaves their lengths uninitialised.
- CLexer.Tokenize: requires the token array to have room for the tokens of the text (`Lex` bounds them by the text's length plus one). The C code writes past the array without a check when it has not.
- CParser.ParseExpr: reading past the last token and `strcmp` on a delimiter's NULL value are undefined behaviour in C. They are reported as the errors NoDirective and NullDirective.
- CParser.BuildAst: the `default:` branch would loop forever without advancing. It is reported as Stalled. PyParser.Parser.BuildAst does the same for the Python `case _` branch.
- Trees are values. The Python and C builders fill in a node that is already linked into its parent; the model returns the filled-in node and puts it in place. Aliasing between nodes is not modelled.
- PyLexer.Lexer.constructor: a missing text (`None`) is modelled as the empty string. Both skip tokenizing.
- PyParser.Node: `content` is the empty string on nodes other than content leaves, where the source has `None`.
- PyParser.ParseExprFromToken: the `ValueError` branch is left out because it cannot be reached; every enum member is truthy.
- PyInterpreter.Render: `body` is a map, so the insertion order of the Python dictionary is not modelled.
- The exact 17-token sequence and the 22-token count of rewrite/tests/test_lexer.c:21-73, and the child and argument counts of rewrite/tests/test_parser.c:64-89, are not restated as lemmas. Unfolding the tokenizer over those long literals is too costly for the verifier. LexShape, PlainText and the parser lemmas cover the behaviour these tests rely on.
- The tokenizers and builders are specified by recursive functions. The methods stay within each routine's loops but are split into a few helper methods, for example one pass of a loop, so each proof stays small.
