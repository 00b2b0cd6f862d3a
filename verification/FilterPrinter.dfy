/** The canonical printer: sorted operands, minimal parentheses. */
module FilterPrinter {
  import opened Text
  import opened FilterNumber
  import opened FilterAst

  function Replace(s: string, c: char, text: string): string {
    if s == "" then "" else (if s[0] == c then text else [s[0]]) + Replace(s[1..], c, text)
  }

  function Escape(s: string): string { Replace(Replace(s, '\\', "\\\\"), '"', "\\\"") }

  function LiteralText(l: Literal): string {
    match l
    case StringLit(text) => "\"" + Escape(text) + "\""
    case NumberLit(number) => NumberText(number)
    case TimestampLit(stamp) => stamp
  }

  function OpText(op: RangeOp): string {
    match op
    case Lt => "lt"
    case Le => "le"
    case Gt => "gt"
    case Ge => "ge"
  }

  /** Binding strength of the context a node is printed in. */
  const TOP: nat := 0
  const UNDER_OR: nat := 1
  const UNDER_AND: nat := 2
  const UNDER_NOT: nat := 3

  function Parenthesized(inner: string, needed: bool): string {
    if needed then "(" + inner + ")" else inner
  }

  function Print(a: Node, context: nat): string {
    match a
    case Eq(field, value) => field + " = " + LiteralText(value)
    case Ne(field, value) => field + " != " + LiteralText(value)
    case In(field, values) =>
      field + " in (" + Join(Map(LiteralText, SortBy(LiteralText, values)), ", ") + ")"
    case Range(field, op, value) => field + " " + OpText(op) + " " + LiteralText(value)
    case Not(child) => "not " + Print(child, UNDER_NOT)
    case And(children) =>
      Parenthesized(Join(Sort(PrintAll(children, UNDER_AND)), " and "), context > UNDER_AND)
    case Or(children) =>
      Parenthesized(Join(Sort(PrintAll(children, UNDER_OR)), " or "), context > UNDER_OR)
  }

  function PrintAll(nodes: seq<Node>, context: nat): (r: seq<string>)
    ensures |r| == |nodes|
    ensures forall i | 0 <= i < |nodes| :: r[i] == Print(nodes[i], context)
  {
    if nodes == [] then [] else [Print(nodes[0], context)] + PrintAll(nodes[1..], context)
  }

  /** `print_filter`. */
  function PrintFilter(a: Node): string { Print(a, TOP) }
}
