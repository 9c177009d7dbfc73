/** The elements a tag is made of, and their textual forms. */
module Elements {
  import opened JString

  datatype Element =
    | ConstantInteger(i: int)
    | ConstantDouble(d: real)
    | Str(value: string)
    | Variable(name: string)
    | Function(name: string)
    | Operator(symbol: string)

  /** asText: numbers print as Java prints them, every other element as the
      text it was built from (a function keeps its `@`, a string its quotes). */
  function AsText(e: Element): string {
    match e
    case ConstantInteger(i) => IntToString(i)
    case ConstantDouble(d) => FormatDouble(d)
    case Str(v) => v
    case Variable(n) => n
    case Function(n) => n
    case Operator(s) => s
  }
}
