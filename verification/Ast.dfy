/** The expression language: its syntax trees and their printed form. */
module Ast {
  import opened Json
  import Text

  datatype Root = Obs | State | TakenAt | EnteredAt {
    function Name(): string {
      match this
      case Obs => "obs"
      case State => "state"
      case TakenAt => "taken_at"
      case EnteredAt => "entered_at"
    }
  }

  datatype Step = Member(name: string) | Index(i: nat)

  datatype BinOp = Eq | Ne | Lt | Le | Gt | Ge | And | Or | Add | Sub | Mul | Div {
    function Name(): string {
      match this
      case Eq => "=="
      case Ne => "!="
      case Lt => "<"
      case Le => "<="
      case Gt => ">"
      case Ge => ">="
      case And => "and"
      case Or => "or"
      case Add => "+"
      case Sub => "-"
      case Mul => "*"
      case Div => "/"
    }
  }

  datatype Quant = Any | All | Count {
    function Name(): string {
      match this
      case Any => "any"
      case All => "all"
      case Count => "count"
    }
  }

  datatype Field = Field(key: string, value: Node)

  /** `anchors` is the only collection a quantifier ranges over. */
  datatype Node =
    | Path(root: Root, steps: seq<Step>)
    | Lit(value: Value)
    | Changed(name: string)
    | Exists(inner: Node)
    | Not(inner: Node)
    | Neg(inner: Node)
    | Binary(op: BinOp, lhs: Node, rhs: Node)
    | Object(fields: seq<Field>)
    | Array(items: seq<Node>)
    | Quantified(how: Quant, body: Node)

  // ---- Printing --------------------------------------------------------------

  function RenderStep(step: Step): string {
    match step
    case Member(name) => "." + name
    case Index(i) => "[" + Text.NatText(i) + "]"
  }

  function RenderSteps(steps: seq<Step>): string {
    if steps == [] then "" else RenderStep(steps[0]) + RenderSteps(steps[1..])
  }

  function HexDigit(d: nat): char
    requires d < 16
  {
    if d < 10 then Text.DigitChar(d) else 'a' + (d - 10) as char
  }

  /** One character as the JSON serialiser writes it inside quotes. */
  function Escape(c: char): string {
    if c == '"' then "\\\""
    else if c == '\\' then "\\\\"
    else if c == '\n' then "\\n"
    else if c == '\r' then "\\r"
    else if c == '\t' then "\\t"
    else if c as int == 8 then "\\b"
    else if c as int == 12 then "\\f"
    else if c as int < 32 then "\\u00" + [HexDigit(c as int / 16), HexDigit(c as int % 16)]
    else [c]
  }

  function Escaped(s: string): string {
    if s == "" then "" else Escape(s[0]) + Escaped(s[1..])
  }

  function Quote(s: string): string { "\"" + Escaped(s) + "\"" }

  function IntText(n: int): string {
    if n < 0 then "-" + Text.NatText(-n) else Text.NatText(n)
  }

  /** A literal's text. `show` is the serialiser's text for the literals the
      grammar cannot write back: fractions and containers. */
  function LitText(v: Value, show: Value -> string): string {
    match v
    case Null => "null"
    case Bool(b) => if b then "true" else "false"
    case Int(n) => IntText(n)
    case Str(s) => Quote(s)
    case _ => show(v)
  }

  function Render(node: Node, show: Value -> string): string
    decreases node, 0
  {
    match node
    case Path(root, steps) => root.Name() + RenderSteps(steps)
    case Lit(v) => LitText(v, show)
    case Changed(name) => "changed" + "(" + "\"" + name + "\"" + ")"
    case Exists(x) => "exists" + "(" + Render(x, show) + ")"
    case Not(x) => "not" + " " + "(" + Render(x, show) + ")"
    case Neg(x) => "-" + "(" + Render(x, show) + ")"
    case Binary(op, lhs, rhs) =>
      "(" + Render(lhs, show) + " " + op.Name() + " " + Render(rhs, show) + ")"
    case Object(fields) => "{" + " " + RenderFields(fields, show) + " " + "}"
    case Array(items) => "[" + RenderItems(items, show) + "]"
    case Quantified(how, body) => how.Name() + "(" + "anchors" + "," + " " + Render(body, show) + ")"
  }

  function RenderField(field: Field, show: Value -> string): string
    decreases field, 1
  {
    field.key + ":" + " " + Render(field.value, show)
  }

  /** The fields, separated by a comma and a space. */
  function RenderFields(fields: seq<Field>, show: Value -> string): string
    decreases fields, 2
  {
    if fields == [] then ""
    else if |fields| == 1 then RenderField(fields[0], show)
    else RenderField(fields[0], show) + "," + " " + RenderFields(fields[1..], show)
  }

  function RenderItems(items: seq<Node>, show: Value -> string): string
    decreases items, 2
  {
    if items == [] then ""
    else if |items| == 1 then Render(items[0], show)
    else Render(items[0], show) + "," + " " + RenderItems(items[1..], show)
  }
}
