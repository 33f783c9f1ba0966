/** The rule `require-jsdoc-on-complex-components`: a component definition
    (a function declaration, a variable bound to a function or arrow
    function, or a class declaration, whose name starts with an ASCII
    capital) whose line span exceeds the configured limit must carry a JSDoc
    comment. */
module RequireJsDoc {
  import opened Syntax

  const MessageKey: string := "requireJsDoc"
  const DefaultLineLimit: int := 50

  /** The rule's options object; `lineLimit` is absent or a number. */
  datatype Options = Options(lineLimit: Option<int>)

  /** `create`: `(context.options[0] || {}).lineLimit || 50`. A `lineLimit`
      of 0 is falsy in JavaScript and is replaced by the default as well;
      any other supplied number, negative ones included, is kept. */
  function EffectiveLineLimit(options: Option<Options>): (r: int)
    ensures r != 0
    ensures LeavesLimitUnset(options) ==> r == DefaultLineLimit
    ensures !LeavesLimitUnset(options) ==> r == options.value.lineLimit.value
  {
    match options
    case None => DefaultLineLimit
    case Some(Options(limit)) =>
      match limit
      case Some(n) => if n != 0 then n else DefaultLineLimit
      case None => DefaultLineLimit
  }

  /** No options object, no `lineLimit` in it, or the falsy `lineLimit: 0`. */
  predicate LeavesLimitUnset(options: Option<Options>) {
    match options
    case None => true
    case Some(o) => o.lineLimit.None? || o.lineLimit == Some(0)
  }

  /** The `lines` figure the rule computes: end line minus start line. */
  function Span(loc: Loc): int {
    loc.endLine - loc.startLine
  }

  /** The lines a location touches, first to last. */
  function LinesTouched(loc: Loc): (r: seq<int>)
    requires loc.startLine <= loc.endLine
    ensures |r| > 0 && r[0] == loc.startLine && r[|r| - 1] == loc.endLine
    ensures forall i :: 0 <= i < |r| ==> r[i] == loc.startLine + i
  {
    seq(loc.endLine - loc.startLine + 1, i => loc.startLine + i)
  }

  /** The character class `[A-Z]`, written out. */
  const AsciiCapitals: string := "ABCDEFGHIJKLMNOPQRSTUVWXYZ"

  /** `/^[A-Z]/.test(name)`: the first character is an ASCII capital. */
  predicate StartsWithCapital(name: string)
    ensures StartsWithCapital(name) <==> |name| > 0 && name[0] in AsciiCapitals
  {
    |name| > 0 && 'A' <= name[0] <= 'Z'
  }

  /** The name gate `node.id && /^[A-Z]/.test(node.id.name)`. An `id` that is
      not an identifier (a destructuring pattern) has no `name`; the regular
      expression then tests the string "undefined" and fails. */
  predicate IsComponentId(id: Option<Node>)
    ensures IsComponentId(id) <==> id.Some? && NameOf(id.value).Some?
                                   && |NameOf(id.value).value| > 0 && NameOf(id.value).value[0] in AsciiCapitals
  {
    id.Some? && id.value.kind.Identifier? && StartsWithCapital(id.value.kind.name)
  }

  /** The message data `{name, lines}` of a finding. */
  function FindingData(name: string, lines: int): map<string, DataValue> {
    map["name" := Str(name), "lines" := Num(lines)]
  }

  /** `checkJsDoc(node, name)`: report once when the span of `node` exceeds
      the limit and no JSDoc comment is attached to it. */
  function CheckJsDoc(lineLimit: int, node: Node, name: string): (r: seq<Finding>)
    ensures |r| <= 1
    ensures r != [] <==> Span(node.loc) > lineLimit && !node.hasJsDoc
    ensures r != [] ==> r[0] == Finding(MessageKey, FindingData(name, Span(node.loc)), node)
  {
    var lines := Span(node.loc);
    if lines > lineLimit then
      if !node.hasJsDoc then [Finding(MessageKey, FindingData(name, lines), node)] else []
    else []
  }

  /** `node.init && (init.type === 'ArrowFunctionExpression' ||
      init.type === 'FunctionExpression')`: a missing `init`, a class
      expression, a call or any other expression fails. */
  predicate IsFunctionInit(init: Option<Node>)
    ensures IsFunctionInit(init) <==> init.Some? && (init.value.kind.ArrowFunctionExpression? || init.value.kind.FunctionExpression?)
  {
    match init
    case Some(Node(ArrowFunctionExpression, _, _)) => true
    case Some(Node(FunctionExpression(_), _, _)) => true
    case _ => false
  }

  /** The `id` of the three visited kinds. */
  function DeclaredId(node: Node): Option<Node> {
    match node.kind
    case FunctionDeclaration(id) => id
    case VariableDeclarator(id, _) => id
    case ClassDeclaration(id) => id
    case _ => None
  }

  /** The visitors `FunctionDeclaration`, `VariableDeclarator` and
      `ClassDeclaration`; the rule has no visitor for any other kind. */
  function Visit(lineLimit: int, node: Node): (r: seq<Finding>)
    ensures |r| <= 1
    ensures r != [] ==> r[0].key == MessageKey
                        && Span(r[0].node.loc) > lineLimit
                        && !r[0].node.hasJsDoc
                        && IsComponentId(DeclaredId(node))
                        && r[0].data == FindingData(DeclaredId(node).value.kind.name, Span(r[0].node.loc))
    ensures !(node.kind.FunctionDeclaration? || node.kind.VariableDeclarator? || node.kind.ClassDeclaration?)
            ==> r == []
  {
    match node.kind
    case FunctionDeclaration(id) =>
      if IsComponentId(id) then CheckJsDoc(lineLimit, node, id.value.kind.name) else []
    case VariableDeclarator(id, init) =>
      if IsComponentId(id) && IsFunctionInit(init)
      then CheckJsDoc(lineLimit, init.value, id.value.kind.name)
      else []
    case ClassDeclaration(id) =>
      if IsComponentId(id) then CheckJsDoc(lineLimit, node, id.value.kind.name) else []
    case _ => []
  }

  /** The rule over one file: `create` resolves the options once, then the
      visitors run over the nodes in the order the host visits them. */
  function Lint(options: Option<Options>, nodes: seq<Node>): (r: seq<Finding>)
    ensures |r| <= |nodes|
    ensures forall i :: 0 <= i < |r| ==>
              r[i].key == MessageKey && Span(r[i].node.loc) > EffectiveLineLimit(options)
              && !r[i].node.hasJsDoc
  {
    if nodes == [] then []
    else Visit(EffectiveLineLimit(options), nodes[0]) + Lint(options, nodes[1..])
  }

  // ---------------------------------------------------------------------
  // Properties of the rule
  // ---------------------------------------------------------------------

  /** A capitalised, undocumented function or class declaration whose span
      exceeds the limit yields exactly one finding, on the node itself, keyed
      `requireJsDoc` with data `{name, lines}`. */
  lemma DeclarationOneFinding(lineLimit: int, node: Node)
    requires node.kind.FunctionDeclaration? || node.kind.ClassDeclaration?
    requires IsComponentId(node.kind.id)
    requires Span(node.loc) > lineLimit && !node.hasJsDoc
    ensures Visit(lineLimit, node)
            == [Finding(MessageKey, FindingData(node.kind.id.value.kind.name, Span(node.loc)), node)]
  {
  }

  /** The boundary is strict: a span equal to the limit is never reported,
      while one line more is, when undocumented. */
  lemma StrictBoundary(lineLimit: int, node: Node)
    requires node.kind.FunctionDeclaration? || node.kind.ClassDeclaration?
    requires IsComponentId(node.kind.id)
    ensures Span(node.loc) == lineLimit ==> Visit(lineLimit, node) == []
    ensures Span(node.loc) == lineLimit + 1 && !node.hasJsDoc ==> |Visit(lineLimit, node)| == 1
  {
  }

  /** The reported `lines` is end line minus start line of the reported
      node (the declaration itself, or a declarator's `init`): one less than
      the number of lines that node touches. */
  lemma ReportedLinesOneLessThanTouched(lineLimit: int, node: Node)
    requires Visit(lineLimit, node) != []
    requires Visit(lineLimit, node)[0].node.loc.startLine <= Visit(lineLimit, node)[0].node.loc.endLine
    ensures Visit(lineLimit, node)[0].data["lines"]
            == Num(|LinesTouched(Visit(lineLimit, node)[0].node.loc)| - 1)
  {
  }

  /** A missing id, an id that is not an identifier, or a name that does not
      start with `A`-`Z` yields nothing; so does an attached JSDoc comment. */
  lemma NameAndDocGates(lineLimit: int, node: Node)
    requires node.kind.FunctionDeclaration? || node.kind.ClassDeclaration?
    ensures !IsComponentId(node.kind.id) ==> Visit(lineLimit, node) == []
    ensures node.hasJsDoc ==> Visit(lineLimit, node) == []
  {
  }

  /** A declarator is checked only when its `init` is a function or arrow
      function, and then on that `init`: the declarator's own location and
      JSDoc play no part, and the finding is attached to `init`. */
  lemma DeclaratorUsesInit(lineLimit: int, id: Option<Node>, init: Option<Node>,
                           loc1: Loc, doc1: bool, loc2: Loc, doc2: bool)
    ensures !IsFunctionInit(init) ==> Visit(lineLimit, Node(VariableDeclarator(id, init), loc1, doc1)) == []
    ensures Visit(lineLimit, Node(VariableDeclarator(id, init), loc1, doc1))
            == Visit(lineLimit, Node(VariableDeclarator(id, init), loc2, doc2))
    ensures IsComponentId(id) && IsFunctionInit(init)
            ==> Visit(lineLimit, Node(VariableDeclarator(id, init), loc1, doc1))
                == CheckJsDoc(lineLimit, init.value, id.value.kind.name)
  {
  }

  /** A function declaration `function name() {...}` at `loc`. */
  function NamedFunction(name: string, loc: Loc, doc: bool): Node {
    Node(FunctionDeclaration(Some(Node(Identifier(name), loc, false))), loc, doc)
  }

  /** Without options, with no `lineLimit`, or with a falsy `lineLimit` of 0,
      the limit is 50: a component spanning 50 lines is not reported, one
      spanning 51 is unless it is documented. */
  lemma DefaultLimitIsFifty(options: Option<Options>, name: string, doc: bool)
    requires LeavesLimitUnset(options)
    requires StartsWithCapital(name)
    ensures Lint(options, [NamedFunction(name, Loc(1, 51), doc)]) == []
    ensures |Lint(options, [NamedFunction(name, Loc(1, 52), doc)])| == 1 <==> !doc
  {
    var small, large := NamedFunction(name, Loc(1, 51), doc), NamedFunction(name, Loc(1, 52), doc);
    assert Lint(options, [small]) == Visit(50, small) + Lint(options, []);
    assert Lint(options, [large]) == Visit(50, large) + Lint(options, []);
  }

  /** The same oversized function named `widget` is never reported, with or
      without documentation. */
  lemma LowerCaseNameNeverReported(lineLimit: int, loc: Loc, doc: bool)
    ensures Visit(lineLimit, NamedFunction("widget", loc, doc)) == []
  {
  }

  /** The findings of a file are those of its parts: the rule carries no
      state from one visited node to the next. */
  lemma {:induction false} LintAppend(options: Option<Options>, a: seq<Node>, b: seq<Node>)
    ensures Lint(options, a + b) == Lint(options, a) + Lint(options, b)
  {
    if a == [] {
      assert a + b == b;
    } else {
      assert (a + b)[1..] == a[1..] + b;
      LintAppend(options, a[1..], b);
    }
  }
}
