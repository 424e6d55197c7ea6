/** The JavaScript values that reach a template literal, a truthiness test or
    a strict-equality test in the core, and the errors the core catches. */
module JsValues {
  import opened Strings

  /** A field read from parsed JSON or from props. `Other` stands for the
      remaining values (numbers, arrays, objects) through the two things the
      core does with them: its string conversion and its truthiness. */
  datatype JsValue =
    | Undefined
    | Null
    | Boolean(b: bool)
    | String(s: JStr)
    | Other(text: JStr, truthy: bool)

  /** ECMAScript ToBoolean. */
  predicate Truthy(v: JsValue) {
    match v
    case Undefined => false
    case Null => false
    case Boolean(b) => b
    case String(s) => |s| > 0
    case Other(_, t) => t
  }

  /** ECMAScript ToString, as a template literal applies it. */
  function ToString(v: JsValue): JStr {
    match v
    case Undefined => Lit("undefined")
    case Null => Lit("null")
    case Boolean(b) => if b then Lit("true") else Lit("false")
    case String(s) => s
    case Other(t, _) => t
  }

  /** A thrown error: its constructor's name and its message. */
  datatype Error = Error(name: JStr, message: JStr)
}

/** Chat messages as the completion endpoints take them. */
module Chat {
  import opened Strings

  datatype Role = System | Assistant | User

  datatype Message = Message(role: Role, content: JStr)
}
