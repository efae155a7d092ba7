/**
 * The fragment of the Babel AST the transform reads and writes. Each
 * constructor carries the fields of the Babel node of the same name that the
 * rewrite rules look at. `Other` stands for every other node type: the
 * rules compare it only by its type name, and a traversal visits its child
 * nodes (`parts`, in Babel's visiting order).
 */
module Ast {
  import opened Js

  datatype Node =
    | Identifier(name: string)
    | StringLiteral(str: string)
    | NumericLiteral(num: nat)
    | BooleanLiteral(truth: bool)
    | NullLiteral
    | ArrayExpression(elements: seq<Node>)
    | ObjectExpression(properties: seq<Node>)
    | ObjectProperty(key: Node, value: Node, shorthand: bool)
    | SpreadElement(argument: Node)
    | ObjectPattern(properties: seq<Node>)
    | ArrayPattern(elements: seq<Node>)
    | MemberExpression(obj: Node, property: Node)
    | CallExpression(callee: Node, arguments: seq<Node>)
    | UnaryExpression(operator: string, argument: Node)
    | BinaryExpression(operator: string, left: Node, right: Node)
    | LogicalExpression(operator: string, left: Node, right: Node)
    | AssignmentExpression(operator: string, left: Node, right: Node)
    | ConditionalExpression(test: Node, consequent: Node, alternate: Node)
    | ArrowFunctionExpression(params: seq<Node>, fnBody: Node)
    | FunctionExpression(params: seq<Node>, fnBody: Node)
    | VariableDeclarator(id: Node, init: Option<Node>)
    | VariableDeclaration(kind: string, declarations: seq<Node>)
    | BlockStatement(body: seq<Node>)
    | ExpressionStatement(expression: Node)
    | ReturnStatement(returned: Option<Node>)
    | JSXElement(tag: string, attributes: seq<Node>, children: seq<Node>)
    | JSXAttribute(attrName: string, attrValue: Option<Node>)
    | JSXNamespacedAttribute(namespace: string, local: string, nsValue: Option<Node>)
    | JSXSpreadAttribute(spread: Node)
    | JSXExpressionContainer(expression: Node)
    | JSXText(text: string)
    | Other(kind: string, parts: seq<Node>)

  /** Babel's `node.type`. */
  function Type(n: Node): string
  {
    match n
    case Identifier(_) => "Identifier"
    case StringLiteral(_) => "StringLiteral"
    case NumericLiteral(_) => "NumericLiteral"
    case BooleanLiteral(_) => "BooleanLiteral"
    case NullLiteral => "NullLiteral"
    case ArrayExpression(_) => "ArrayExpression"
    case ObjectExpression(_) => "ObjectExpression"
    case ObjectProperty(_, _, _) => "ObjectProperty"
    case SpreadElement(_) => "SpreadElement"
    case ObjectPattern(_) => "ObjectPattern"
    case ArrayPattern(_) => "ArrayPattern"
    case MemberExpression(_, _) => "MemberExpression"
    case CallExpression(_, _) => "CallExpression"
    case UnaryExpression(_, _) => "UnaryExpression"
    case BinaryExpression(_, _, _) => "BinaryExpression"
    case LogicalExpression(_, _, _) => "LogicalExpression"
    case AssignmentExpression(_, _, _) => "AssignmentExpression"
    case ConditionalExpression(_, _, _) => "ConditionalExpression"
    case ArrowFunctionExpression(_, _) => "ArrowFunctionExpression"
    case FunctionExpression(_, _) => "FunctionExpression"
    case VariableDeclarator(_, _) => "VariableDeclarator"
    case VariableDeclaration(_, _) => "VariableDeclaration"
    case BlockStatement(_) => "BlockStatement"
    case ExpressionStatement(_) => "ExpressionStatement"
    case ReturnStatement(_) => "ReturnStatement"
    case JSXElement(_, _, _) => "JSXElement"
    case JSXAttribute(_, _) => "JSXAttribute"
    case JSXNamespacedAttribute(_, _, _) => "JSXAttribute"
    case JSXSpreadAttribute(_) => "JSXSpreadAttribute"
    case JSXExpressionContainer(_) => "JSXExpressionContainer"
    case JSXText(_) => "JSXText"
    case Other(k, _) => k
  }

  /** A function initialiser, arrow or not: the nodes that have `params`. */
  predicate IsFunction(n: Node)
  {
    n.ArrowFunctionExpression? || n.FunctionExpression?
  }

  /** Whether `node.left` and `node.right` are defined. */
  predicate HasLeftRight(n: Node)
  {
    n.BinaryExpression? || n.LogicalExpression? || n.AssignmentExpression?
  }

  /** `node.name` as a JavaScript property key: the identifier's name, else `undefined`. */
  function NameKey(n: Node): string
  {
    if n.Identifier? then n.name else "undefined"
  }

  predicate IsIdentifierNamed(n: Node, name: string)
  {
    n.Identifier? && n.name == name
  }

  /** `x.map( ... )`: a call whose callee is a member access with identifier property `map`. */
  predicate IsMapCall(n: Node)
  {
    n.CallExpression? && n.callee.MemberExpression? && IsIdentifierNamed(n.callee.property, "map")
  }

  /** The shorthand property `{ __context__ }` the transform adds to object patterns. */
  function ContextProperty(): Node
  {
    ObjectProperty(Identifier("__context__"), Identifier("__context__"), true)
  }

  /** `{ type: 'identifier', value: name }` built by the list marker helper. */
  function NameObject(kind: string, value: string): Node
  {
    ObjectExpression([
      ObjectProperty(Identifier("type"), StringLiteral(kind), false),
      ObjectProperty(Identifier("value"), StringLiteral(value), false)])
  }

  function StringLiterals(ss: seq<string>): (r: seq<Node>)
    ensures |r| == |ss|
    ensures forall i :: 0 <= i < |ss| ==> r[i] == StringLiteral(ss[i])
  {
    if |ss| == 0 then [] else [StringLiteral(ss[0])] + StringLiterals(ss[1..])
  }

  /** `let id = init;` */
  function LetDeclaration(id: string, init: Node): Node
  {
    VariableDeclaration("let", [VariableDeclarator(Identifier(id), Some(init))])
  }
}
