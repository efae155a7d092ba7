/**
 * A small evaluator for the JavaScript fragment the transform emits to thread
 * the context through components: identifiers, member reads, `typeof`,
 * strict (in)equality, `+`, `!` and conditionals. It gives a meaning to the
 * generated context declaration and `__context__` attribute so that their
 * values can be stated. Object identity is not modelled: `===` compares
 * primitives only and is false on objects.
 */
module JsEval {
  import opened Js
  import opened Ast

  datatype JsValue =
    | JNum(n: int)
    | JStr(s: string)
    | JBool(b: bool)
    | JUndefined
    | JNull
    | JObject(fields: map<string, JsValue>)

  /** The variables in scope and their values. */
  type Env = map<string, JsValue>

  /** How evaluation ends: a value, a thrown error, or a construct outside the fragment. */
  datatype Completion = Normal(v: JsValue) | Thrown(e: Error) | Unmodelled

  /** `typeof v`. */
  function TypeOf(v: JsValue): string
  {
    match v
    case JNum(_) => "number"
    case JStr(_) => "string"
    case JBool(_) => "boolean"
    case JUndefined => "undefined"
    case JNull => "object"
    case JObject(_) => "object"
  }

  predicate JsTruthy(v: JsValue)
  {
    match v
    case JNum(n) => n != 0
    case JStr(s) => s != ""
    case JBool(b) => b
    case JUndefined => false
    case JNull => false
    case JObject(_) => true
  }

  /** `a === b` on primitives. */
  predicate StrictEquals(a: JsValue, b: JsValue)
  {
    !a.JObject? && !b.JObject? && a == b
  }

  /** `a + b` for numbers and strings; other operand types are outside the fragment. */
  function Plus(a: JsValue, b: JsValue): Completion
  {
    match (a, b)
    case (JNum(x), JNum(y)) => Normal(JNum(x + y))
    case (JStr(x), JStr(y)) => Normal(JStr(x + y))
    case (JStr(x), JNum(y)) => Normal(JStr(x + IntToString(y)))
    case (JNum(x), JStr(y)) => Normal(JStr(IntToString(x) + y))
    case _ => Unmodelled
  }

  /** `o.p` once `o` is evaluated: reading from `undefined` or `null` throws, primitives have no fields here. */
  function ReadField(o: JsValue, p: string): Completion
  {
    match o
    case JUndefined => Thrown(TypeError("Cannot read properties of undefined"))
    case JNull => Thrown(TypeError("Cannot read properties of null"))
    case JObject(f) => Normal(if p in f then f[p] else JUndefined)
    case _ => Normal(JUndefined)
  }

  /** Evaluation, left to right; an unbound identifier throws a `ReferenceError`, except under `typeof`. */
  function Eval(e: Node, env: Env): Completion
    decreases e
  {
    match e
    case Identifier(x) => if x in env then Normal(env[x]) else Thrown(ReferenceError(x))
    case NumericLiteral(k) => Normal(JNum(k))
    case StringLiteral(s) => Normal(JStr(s))
    case BooleanLiteral(b) => Normal(JBool(b))
    case NullLiteral => Normal(JNull)
    case MemberExpression(o, p) =>
      if !p.Identifier? then Unmodelled
      else
        (match Eval(o, env)
         case Normal(v) => ReadField(v, p.name)
         case other => other)
    case UnaryExpression(op, a) =>
      if op == "typeof" && a.Identifier? && a.name !in env then Normal(JStr("undefined"))
      else if op != "typeof" && op != "!" then Unmodelled
      else
        (match Eval(a, env)
         case Normal(v) => Normal(if op == "typeof" then JStr(TypeOf(v)) else JBool(!JsTruthy(v)))
         case other => other)
    case BinaryExpression(op, l, r) =>
      if op != "===" && op != "!==" && op != "+" then Unmodelled
      else
        (match Eval(l, env)
         case Normal(a) =>
           (match Eval(r, env)
            case Normal(b) =>
              if op == "+" then Plus(a, b)
              else Normal(JBool(if op == "===" then StrictEquals(a, b) else !StrictEquals(a, b)))
            case other => other)
         case other => other)
    case ConditionalExpression(t, c, a) =>
      (match Eval(t, env)
       case Normal(v) => if JsTruthy(v) then Eval(c, env) else Eval(a, env)
       case other => other)
    case _ => Unmodelled
  }
}
