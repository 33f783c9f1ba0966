/** Shared vocabulary of the three lint rules: the parts of an ESTree syntax
    node that the rules read, and the finding a rule reports.

    Only what the rules inspect is kept. A location is reduced to its start
    and end line (no rule reads a column). The result of the host's JSDoc
    lookup is attached to every node as the oracle `hasJsDoc`. */
module Syntax {

  datatype Option<T> = None | Some(value: T)

  /** `node.loc`, reduced to `loc.start.line` and `loc.end.line`. */
  datatype Loc = Loc(startLine: int, endLine: int)

  /** An ESTree node: its kind with the kind-specific children, its location
      and whether the host finds a JSDoc comment attached to it. */
  datatype Node = Node(kind: NodeKind, loc: Loc, hasJsDoc: bool)

  /** The node kinds the rules subscribe to or look into. Every other ESTree
      kind (literals, patterns, statements, ...) is `Other`, carrying its
      `type` string. `id` is JavaScript's nullable `node.id`;
      `obj` is ESTree's `object` (a reserved word here);
      `typeParameters` / `typeArguments` say whether the call carries that
      (TypeScript-only) child. */
  datatype NodeKind =
    | FunctionDeclaration(id: Option<Node>)
    | FunctionExpression(id: Option<Node>)
    | ArrowFunctionExpression
    | ClassDeclaration(id: Option<Node>)
    | ClassExpression(id: Option<Node>)
    | VariableDeclarator(id: Option<Node>, init: Option<Node>)
    | CallExpression(callee: Node, typeParameters: bool, typeArguments: bool)
    | MemberExpression(obj: Node, property: Node, computed: bool)
    | Identifier(name: string)
    | Other(typeName: string)

  /** `node.name`: defined only on identifiers. */
  function NameOf(n: Node): (r: Option<string>)
    ensures r.Some? <==> n.kind.Identifier?
    ensures r.Some? ==> r.value == n.kind.name
  {
    match n.kind
    case Identifier(name) => Some(name)
    case _ => None
  }

  /** A value placed in a finding's `data` map for message interpolation. */
  datatype DataValue = Str(s: string) | Num(n: int)

  /** One call of `report(context, message, key, {node, data})`: the message
      key, the data map and the node the finding is attached to. */
  datatype Finding = Finding(key: string, data: map<string, DataValue>, node: Node)
}
