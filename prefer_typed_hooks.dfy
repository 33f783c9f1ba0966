/** The rule `prefer-typed-hooks`: in a TypeScript file, a call of a tracked
    React hook by its bare name must carry explicit generic type arguments. */
module PreferTypedHooks {
  import opened Syntax

  const MessageKey: string := "preferTypedHook"
  const DefaultHooks: seq<string> := ["useState", "useRef", "useContext"]

  /** The rule's options object; `hooks` is absent or a list of names. */
  datatype Options = Options(hooks: Option<seq<string>>)

  /** `create`: `(context.options[0] || {}).hooks || [...defaults]`. Every
      JavaScript array is truthy, so a supplied list, even an empty one,
      replaces the defaults entirely. */
  function HooksToTrack(options: Option<Options>): (r: seq<string>)
    ensures (options.None? || options.value.hooks.None?) ==> r == DefaultHooks
    ensures options.Some? && options.value.hooks.Some? ==> r == options.value.hooks.value
  {
    match options
    case None => DefaultHooks
    case Some(Options(hooks)) =>
      match hooks
      case Some(list) => list
      case None => DefaultHooks
  }

  /** `s.endsWith(suffix)`. */
  predicate EndsWith(s: string, suffix: string) {
    |suffix| <= |s| && s[|s| - |suffix|..] == suffix
  }

  /** `endsWith` holds exactly when the string is some prefix followed by the
      suffix. */
  lemma EndsWithIffConcat(s: string, suffix: string)
    ensures EndsWith(s, suffix) <==> exists p: string :: s == p + suffix
  {
    if EndsWith(s, suffix) {
      var p := s[..|s| - |suffix|];
      assert s == p + suffix;
    }
    if exists p: string :: s == p + suffix {
      var p: string :| s == p + suffix;
      assert s[|s| - |suffix|..] == suffix;
    }
  }

  /** The filename gate: the file name ends with `.ts` or `.tsx`. */
  predicate IsTypeScriptFile(filename: string)
    ensures IsTypeScriptFile(filename)
            <==> exists stem: string :: filename == stem + ".ts" || filename == stem + ".tsx"
  {
    EndsWithIffConcat(filename, ".ts");
    EndsWithIffConcat(filename, ".tsx");
    EndsWith(filename, ".ts") || EndsWith(filename, ".tsx")
  }

  /** The callee name when `node` is a call whose callee is a bare
      identifier (`node.callee.type === 'Identifier'`). */
  function BareCalleeName(node: Node): (r: Option<string>)
    ensures r.Some? <==> node.kind.CallExpression? && node.kind.callee.kind.Identifier?
  {
    match node.kind
    case CallExpression(callee, _, _) => NameOf(callee)
    case _ => None
  }

  /** The visitor `CallExpression`: report a tracked bare-name hook call in a
      TypeScript file when it has neither `typeParameters` nor
      `typeArguments`; the finding's `name` is the callee's name. Any other
      node kind has no visitor. */
  function Visit(hooks: seq<string>, filename: string, node: Node): (r: seq<Finding>)
    ensures |r| <= 1
    ensures r != [] <==>
              && node.kind.CallExpression?
              && node.kind.callee.kind.Identifier?
              && node.kind.callee.kind.name in hooks
              && IsTypeScriptFile(filename)
              && !node.kind.typeParameters
              && !node.kind.typeArguments
    ensures r != [] ==> r[0] == Finding(MessageKey, map["name" := Str(node.kind.callee.kind.name)], node)
  {
    match node.kind
    case CallExpression(callee, typeParameters, typeArguments) =>
      if callee.kind.Identifier? && callee.kind.name in hooks then
        if !IsTypeScriptFile(filename) then []
        else if !typeParameters && !typeArguments then
          [Finding(MessageKey, map["name" := Str(callee.kind.name)], node)]
        else []
      else []
    case _ => []
  }

  /** The rule over one file named `filename`: `create` resolves the hook
      list once, then the visitor runs over the nodes in visit order. */
  function Lint(options: Option<Options>, filename: string, nodes: seq<Node>): (r: seq<Finding>)
    ensures |r| <= |nodes|
    ensures !IsTypeScriptFile(filename) ==> r == []
    ensures forall i :: 0 <= i < |r| ==>
              r[i].key == MessageKey && BareCalleeName(r[i].node).Some?
              && BareCalleeName(r[i].node).value in HooksToTrack(options)
              && r[i].data == map["name" := Str(BareCalleeName(r[i].node).value)]
  {
    if nodes == [] then []
    else Visit(HooksToTrack(options), filename, nodes[0]) + Lint(options, filename, nodes[1..])
  }

  // ---------------------------------------------------------------------
  // Properties of the rule
  // ---------------------------------------------------------------------

  /** Either type-argument child suppresses the finding, whatever else holds. */
  lemma TypeArgumentsSuppress(hooks: seq<string>, filename: string, callee: Node,
                              typeParameters: bool, typeArguments: bool, loc: Loc, doc: bool)
    requires typeParameters || typeArguments
    ensures Visit(hooks, filename, Node(CallExpression(callee, typeParameters, typeArguments), loc, doc)) == []
  {
  }

  /** A member-expression callee such as `React.useState` is never flagged,
      whatever its property is named. */
  lemma MemberCalleeNeverFlagged(hooks: seq<string>, filename: string, node: Node)
    requires node.kind.CallExpression? && node.kind.callee.kind.MemberExpression?
    ensures Visit(hooks, filename, node) == []
  {
  }

  /** A supplied empty list tracks nothing: no file yields a finding. */
  lemma {:induction false} EmptyListTracksNothing(filename: string, nodes: seq<Node>)
    ensures Lint(Some(Options(Some([]))), filename, nodes) == []
  {
    if nodes != [] {
      EmptyListTracksNothing(filename, nodes[1..]);
    }
  }

  /** An unannotated `useState(...)` call under the default options is
      reported in `a.ts` and not in `a.js`. */
  lemma TypeScriptOnly(loc: Loc, doc: bool)
    ensures var call := Node(CallExpression(Node(Identifier("useState"), loc, false), false, false), loc, doc);
            |Visit(HooksToTrack(None), "a.ts", call)| == 1 && Visit(HooksToTrack(None), "a.js", call) == []
  {
    assert "a.ts"[1..] == ".ts";
    assert "a.js"[1..] != ".ts";
  }

  /** With `hooks: ["useFoo"]`, `useState(...)` is no longer reported while
      an unannotated `useFoo(...)` is. */
  lemma SuppliedListReplacesDefaults(filename: string, loc: Loc, doc: bool)
    requires IsTypeScriptFile(filename)
    ensures var options := Some(Options(Some(["useFoo"])));
            var callOf := (name: string) =>
              Node(CallExpression(Node(Identifier(name), loc, false), false, false), loc, doc);
            Visit(HooksToTrack(options), filename, callOf("useState")) == []
            && |Visit(HooksToTrack(options), filename, callOf("useFoo"))| == 1
  {
  }

  /** The rule keeps no state: the findings of a file are those of its parts,
      so each call's outcome depends only on that call and the file name. */
  lemma {:induction false} LintAppend(options: Option<Options>, filename: string, a: seq<Node>, b: seq<Node>)
    ensures Lint(options, filename, a + b) == Lint(options, filename, a) + Lint(options, filename, b)
  {
    if a == [] {
      assert a + b == b;
    } else {
      assert (a + b)[1..] == a[1..] + b;
      LintAppend(options, filename, a[1..], b);
    }
  }
}
