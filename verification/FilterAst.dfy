/** The filter abstract syntax tree and its well-formedness. */
module FilterAst {
  import opened Text
  import opened FilterNumber

  datatype Literal =
    | StringLit(text: string)
    | NumberLit(number: Decimal)
    | TimestampLit(stamp: string)

  datatype RangeOp = Lt | Le | Gt | Ge

  datatype Node =
    | Eq(field: string, value: Literal)
    | Ne(field: string, value: Literal)
    | In(field: string, values: seq<Literal>)
    | Range(field: string, op: RangeOp, value: Literal)
    | Not(child: Node)
    | And(children: seq<Node>)
    | Or(children: seq<Node>)

  const MAX_STRING: nat := 1024
  const MAX_IN_SET: nat := 256
  const MAX_SEGMENT: nat := 128

  const VALID_FIELDS: set<string> := {"domain", "url", "published_at", "language", "category"}

  // ----- fields ----------------------------------------------------------

  predicate IsIdentStart(c: char) { IsAlpha(c) || c == '_' }

  predicate IsIdentChar(c: char) { IsAlnum(c) || c == '_' }

  predicate IsIdentifier(s: string) {
    s != "" && IsIdentStart(s[0]) && forall i | 0 <= i < |s| :: IsIdentChar(s[i])
  }

  /** A known top-level field, or metadata with at least one short key segment. */
  predicate FieldAllowed(parts: seq<string>)
    requires |parts| >= 1
  {
    if parts[0] == "metadata" then
      |parts| >= 2 && forall i | 1 <= i < |parts| :: 1 <= |parts[i]| <= MAX_SEGMENT
    else
      parts[0] in VALID_FIELDS
  }

  predicate WfField(field: string) {
    var parts := Split(field, '.');
    (forall i | 0 <= i < |parts| :: IsIdentifier(parts[i])) && FieldAllowed(parts)
  }

  // ----- timestamps ------------------------------------------------------

  /** `s` starts with `shape`, in which `#` stands for any digit. */
  predicate StartsWithShape(s: string, shape: string) {
    |shape| <= |s| &&
    forall i | 0 <= i < |shape| :: if shape[i] == '#' then IsDigit(s[i]) else s[i] == shape[i]
  }

  /** The number of leading digits. */
  function DigitRun(s: string): (n: nat)
    ensures n <= |s| && AllDigits(s[..n])
    ensures n < |s| ==> !IsDigit(s[n])
  {
    if s == "" || !IsDigit(s[0]) then 0 else 1 + DigitRun(s[1..])
  }

  const DATE := "####-##-##"
  const TIME := "T##:##:##"

  /** Length of an optional fraction of a second. */
  function FractionLength(s: string): (n: nat)
    ensures n <= |s|
  {
    if s != "" && s[0] == '.' && DigitRun(s[1..]) > 0 then 1 + DigitRun(s[1..]) else 0
  }

  /** Length of an optional zone. */
  function ZoneLength(s: string): (n: nat)
    ensures n <= |s|
  {
    if s != "" && s[0] == 'Z' then 1
    else if StartsWithShape(s, "+##:##") || StartsWithShape(s, "-##:##") then 6
    else 0
  }

  /** Length of an optional time of day. */
  function ClockLength(s: string): (n: nat)
    ensures n <= |s|
  {
    if !StartsWithShape(s, TIME) then 0
    else
      var fraction := FractionLength(s[9..]);
      9 + fraction + ZoneLength(s[9 + fraction..])
  }

  /** Length of the timestamp `s` starts with; zero when it starts with none. */
  function TimestampLength(s: string): (n: nat)
    ensures n <= |s|
    ensures n == 0 || n >= 10
  {
    if !StartsWithShape(s, DATE) then 0 else 10 + ClockLength(s[10..])
  }

  predicate IsTimestamp(s: string) { s != "" && TimestampLength(s) == |s| }

  // ----- well-formed trees ------------------------------------------------

  predicate WfLiteral(l: Literal) {
    match l
    case StringLit(text) => |text| <= MAX_STRING
    case NumberLit(number) => number.Normal()
    case TimestampLit(stamp) => IsTimestamp(stamp)
  }

  /** A tree the grammar can produce: known fields, bounded literals and sets,
      at least two operands under And and Or. */
  predicate Wf(a: Node) {
    match a
    case Eq(field, value) => WfField(field) && WfLiteral(value)
    case Ne(field, value) => WfField(field) && WfLiteral(value)
    case Range(field, _, value) => WfField(field) && WfLiteral(value)
    case In(field, values) =>
      WfField(field) && 1 <= |values| <= MAX_IN_SET && forall v | v in values :: WfLiteral(v)
    case Not(child) => Wf(child)
    case And(children) => |children| >= 2 && forall c | c in children :: Wf(c)
    case Or(children) => |children| >= 2 && forall c | c in children :: Wf(c)
  }

  /** Every number in the tree survives printing. */
  predicate Exact(a: Node) {
    match a
    case Eq(_, value) => ExactLiteral(value)
    case Ne(_, value) => ExactLiteral(value)
    case Range(_, _, value) => ExactLiteral(value)
    case In(_, values) => forall v | v in values :: ExactLiteral(v)
    case Not(child) => Exact(child)
    case And(children) => forall c | c in children :: Exact(c)
    case Or(children) => forall c | c in children :: Exact(c)
  }

  predicate ExactLiteral(l: Literal) { l.NumberLit? ==> PrintsExactly(l.number) }

  /** Number of comparisons in the tree. */
  function Leaves(a: Node): nat {
    match a
    case Not(child) => Leaves(child)
    case And(children) => LeavesAll(children)
    case Or(children) => LeavesAll(children)
    case _ => 1
  }

  function LeavesAll(nodes: seq<Node>): nat {
    if nodes == [] then 0 else Leaves(nodes[0]) + LeavesAll(nodes[1..])
  }

  function Size(a: Node): (n: nat)
    ensures n >= 1
  {
    match a
    case Not(child) => 1 + Size(child)
    case And(children) => 1 + SizeAll(children)
    case Or(children) => 1 + SizeAll(children)
    case _ => 1
  }

  function SizeAll(nodes: seq<Node>): nat {
    if nodes == [] then 0 else Size(nodes[0]) + SizeAll(nodes[1..])
  }

  function Max(a: nat, b: nat): nat { if a < b then b else a }
}
