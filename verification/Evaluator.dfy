/** The three-valued evaluator: a value, an absence, or a fault. */
module Evaluator {
  import opened Wrappers
  import opened Json
  import opened Ast
  import Text

  datatype Fault =
    | NoSuchField | NotAnObject | NotAnArray | IndexOutOfRange | NotComparable | DividedByZero

  datatype Evaluated = Val(v: Value) | Absent | Faulted(f: Fault) {
    function AsBool(): Option<bool> {
      if Val? && v.Bool? then Some(v.b) else None
    }
  }

  datatype Ctx = Ctx(obs: Value, state: Value, takenAt: int, enteredAt: int, anchors: seq<Value>) {
    function Each(state: Value): Ctx { this.(state := state) }
  }

  function Truth(b: bool): Evaluated { Val(Bool(b)) }

  // ---- Leaves ------------------------------------------------------------------

  function ValueOrAbsent(v: Value): Evaluated {
    if v.Null? then Absent else Val(v)
  }

  function RootValue(root: Root, ctx: Ctx): Evaluated {
    match root
    case Obs => ValueOrAbsent(ctx.obs)
    case State => ValueOrAbsent(ctx.state)
    case TakenAt => Val(Int(ctx.takenAt))
    case EnteredAt => Val(Int(ctx.enteredAt))
  }

  /** One step into a value that is not null. */
  function Into(cur: Value, step: Step, lenient: bool): Evaluated {
    match step
    case Member(name) =>
      if !cur.Obj? then Faulted(NotAnObject)
      else if name in cur.fields then Val(cur.fields[name])
      else if lenient then Absent
      else Faulted(NoSuchField)
    case Index(i) =>
      if !cur.Arr? then Faulted(NotAnArray)
      else if i < |cur.items| then Val(cur.items[i])
      else Faulted(IndexOutOfRange)
  }

  function WalkFrom(cur: Value, steps: seq<Step>, lenient: bool): Evaluated {
    if steps == [] then ValueOrAbsent(cur)
    else if cur.Null? then Absent
    else
      match Into(cur, steps[0], lenient)
      case Val(next) => WalkFrom(next, steps[1..], lenient)
      case other => other
  }

  function Walk(start: Evaluated, steps: seq<Step>, lenient: bool): Evaluated {
    match start
    case Val(v) => WalkFrom(v, steps, lenient)
    case _ => if steps == [] then start else Absent
  }

  method WalkSteps(start: Evaluated, steps: seq<Step>, lenient: bool) returns (r: Evaluated)
    ensures r == Walk(start, steps, lenient)
  {
    if !start.Val? { return if steps == [] then start else Absent; }
    var cur := start.v;
    for i := 0 to |steps|
      invariant Walk(start, steps, lenient) == WalkFrom(cur, steps[i..], lenient)
    {
      if cur.Null? { return Absent; }
      match Into(cur, steps[i], lenient) {
        case Val(next) => cur := next;
        case other => return other;
      }
    }
    r := ValueOrAbsent(cur);
  }

  function ChangedIn(name: string, ctx: Ctx): Evaluated {
    match ctx.obs
    case Null => Truth(ctx.state.Get(name) != None)
    case Obj(fields) =>
      if name in fields then Truth(ctx.state.Get(name) != Some(fields[name]))
      else Faulted(NoSuchField)
    case _ => Faulted(NotAnObject)
  }

  // ---- Operators ----------------------------------------------------------------

  /** Whole numbers below 9e15 are kept as integers. */
  function JsonNumber(x: real): Value {
    if x == x.Floor as real && -9000000000000000.0 < x < 9000000000000000.0
    then Int(x.Floor) else Float(x)
  }

  function Equality(op: BinOp, bothAbsent: bool): Evaluated {
    match op
    case Eq => Truth(bothAbsent)
    case Ne => Truth(!bothAbsent)
    case _ => Absent
  }

  datatype Ordering = Lesser | Same | Greater

  function Order(a: Value, b: Value): Option<Ordering> {
    match (a.AsReal(), b.AsReal())
    case (Some(x), Some(y)) => Some(if x < y then Lesser else if x == y then Same else Greater)
    case _ =>
      if a.Str? && b.Str?
      then Some(if Text.Less(a.s, b.s) then Lesser else if a.s == b.s then Same else Greater)
      else None
  }

  function Arithmetic(op: BinOp, a: Value, b: Value): Evaluated {
    match (a.AsReal(), b.AsReal())
    case (Some(x), Some(y)) =>
      (match op
       case Add => Val(JsonNumber(x + y))
       case Sub => Val(JsonNumber(x - y))
       case Mul => Val(JsonNumber(x * y))
       case _ => if y == 0.0 then Faulted(DividedByZero) else Val(JsonNumber(x / y)))
    case _ => Faulted(NotComparable)
  }

  function Compare(op: BinOp, a: Value, b: Value): Evaluated {
    match Order(a, b)
    case None => Faulted(NotComparable)
    case Some(o) =>
      Truth(match op
            case Lt => o == Lesser
            case Le => o != Greater
            case Gt => o == Greater
            case _ => o != Lesser)
  }

  function Strict(op: BinOp, a: Evaluated, b: Evaluated): Evaluated {
    match (a, b)
    case (Faulted(f), _) => Faulted(f)
    case (_, Faulted(f)) => Faulted(f)
    case (Absent, Absent) => Equality(op, true)
    case (Absent, _) => Equality(op, false)
    case (_, Absent) => Equality(op, false)
    case (Val(x), Val(y)) =>
      match op
      case Eq => Truth(x == y)
      case Ne => Truth(x != y)
      case Lt => Compare(op, x, y)
      case Le => Compare(op, x, y)
      case Gt => Compare(op, x, y)
      case Ge => Compare(op, x, y)
      case _ => Arithmetic(op, x, y)
  }

  /** What the left side alone decides of `and` and `or`. */
  function Decided(op: BinOp, left: Evaluated): Option<Evaluated> {
    match left.AsBool()
    case Some(b) =>
      if op == And && !b then Some(Truth(false))
      else if op == Or && b then Some(Truth(true))
      else None
    case None => Some(left)
  }

  function BooleanOnly(right: Evaluated): Evaluated {
    if right.Val? && !right.v.Bool? then Faulted(NotComparable) else right
  }

  function Negated(inner: Evaluated): Evaluated {
    match inner
    case Val(v) => if v.Bool? then Truth(!v.b) else Faulted(NotComparable)
    case other => other
  }

  function Minus(inner: Evaluated): Evaluated {
    match inner
    case Val(v) =>
      (match v.AsReal()
       case Some(x) => Val(JsonNumber(-x))
       case None => Faulted(NotComparable))
    case other => other
  }

  // ---- Evaluation ----------------------------------------------------------------

  predicate Logical(op: BinOp) { op == And || op == Or }

  function Eval(node: Node, ctx: Ctx): Evaluated
    decreases node, 0
  {
    match node
    case Lit(v) => Val(v)
    case Changed(name) => ChangedIn(name, ctx)
    case Path(root, steps) => Walk(RootValue(root, ctx), steps, root == State)
    case Exists(x) => Truth(Eval(x, ctx).Val?)
    case Not(x) => Negated(Eval(x, ctx))
    case Neg(x) => Minus(Eval(x, ctx))
    case Binary(op, lhs, rhs) =>
      if Logical(op) then
        match Decided(op, Eval(lhs, ctx))
        case Some(r) => r
        case None => BooleanOnly(Eval(rhs, ctx))
      else Strict(op, Eval(lhs, ctx), Eval(rhs, ctx))
    case Object(fields) => EvalFields(fields, ctx, map[])
    case Array(items) => EvalItems(items, ctx, [])
    case Quantified(how, body) => Answer(how, Tally(body, ctx, ctx.anchors, 0, 0), |ctx.anchors|)
  }

  /** The fields still to evaluate, added to those already built. */
  function EvalFields(fields: seq<Field>, ctx: Ctx, built: map<string, Value>): Evaluated
    decreases fields, 1
  {
    if fields == [] then Val(Obj(built))
    else
      match Eval(fields[0].value, ctx)
      case Val(v) => EvalFields(fields[1..], ctx, built[fields[0].key := v])
      case Absent => EvalFields(fields[1..], ctx, built[fields[0].key := Null])
      case Faulted(f) => Faulted(f)
  }

  function EvalItems(items: seq<Node>, ctx: Ctx, built: seq<Value>): Evaluated
    decreases items, 1
  {
    if items == [] then Val(Arr(built))
    else
      match Eval(items[0], ctx)
      case Val(v) => EvalItems(items[1..], ctx, built + [v])
      case Absent => EvalItems(items[1..], ctx, built + [Null])
      case Faulted(f) => Faulted(f)
  }

  datatype Tallied = Counted(held: nat, answered: nat) | Stopped(f: Fault)

  /** A quantifier's body asked of each remaining state. */
  function Tally(body: Node, ctx: Ctx, states: seq<Value>, held: nat, answered: nat): Tallied
    decreases body, 1, |states|
  {
    if states == [] then Counted(held, answered)
    else
      match Eval(body, ctx.Each(states[0]))
      case Val(v) =>
        if !v.Bool? then Stopped(NotComparable)
        else Tally(body, ctx, states[1..], if v.b then held + 1 else held, answered + 1)
      case Absent => Tally(body, ctx, states[1..], held, answered)
      case Faulted(f) => Stopped(f)
  }

  function Answer(how: Quant, tallied: Tallied, asked: nat): Evaluated {
    match tallied
    case Stopped(f) => Faulted(f)
    case Counted(held, answered) =>
      if answered == 0 && asked > 0 then Absent
      else
        match how
        case Any => Truth(held > 0)
        case All => Truth(held == answered)
        case Count => Val(Int(held))
  }

  // ---- The evaluator as it runs --------------------------------------------------

  method Evaluate(node: Node, ctx: Ctx) returns (r: Evaluated)
    ensures r == Eval(node, ctx)
    decreases node, 0
  {
    match node {
      case Lit(v) => r := Val(v);
      case Changed(name) => r := ChangedIn(name, ctx);
      case Path(root, steps) => r := WalkSteps(RootValue(root, ctx), steps, root == State);
      case Exists(x) =>
        var inner := Evaluate(x, ctx);
        r := Truth(inner.Val?);
      case Not(x) =>
        var inner := Evaluate(x, ctx);
        r := Negated(inner);
      case Neg(x) =>
        var inner := Evaluate(x, ctx);
        r := Minus(inner);
      case Binary(op, lhs, rhs) =>
        var left := Evaluate(lhs, ctx);
        if Logical(op) && Decided(op, left).Some? { return Decided(op, left).value; }
        var right := Evaluate(rhs, ctx);
        r := if Logical(op) then BooleanOnly(right) else Strict(op, left, right);
      case Object(fields) => r := BuildObject(fields, ctx);
      case Array(items) => r := BuildArray(items, ctx);
      case Quantified(how, body) => r := Quantify(how, body, ctx);
    }
  }

  method BuildObject(fields: seq<Field>, ctx: Ctx) returns (r: Evaluated)
    ensures r == EvalFields(fields, ctx, map[])
    decreases fields, 1
  {
    var built := map[];
    for i := 0 to |fields|
      invariant EvalFields(fields, ctx, map[]) == EvalFields(fields[i..], ctx, built)
    {
      var each := Evaluate(fields[i].value, ctx);
      match each {
        case Val(v) => built := built[fields[i].key := v];
        case Absent => built := built[fields[i].key := Null];
        case Faulted(f) => return each;
      }
    }
    r := Val(Obj(built));
  }

  method BuildArray(items: seq<Node>, ctx: Ctx) returns (r: Evaluated)
    ensures r == EvalItems(items, ctx, [])
    decreases items, 1
  {
    var built := [];
    for i := 0 to |items|
      invariant EvalItems(items, ctx, []) == EvalItems(items[i..], ctx, built)
    {
      var each := Evaluate(items[i], ctx);
      match each {
        case Val(v) => built := built + [v];
        case Absent => built := built + [Null];
        case Faulted(f) => return each;
      }
    }
    r := Val(Arr(built));
  }

  method Quantify(how: Quant, body: Node, ctx: Ctx) returns (r: Evaluated)
    ensures r == Answer(how, Tally(body, ctx, ctx.anchors, 0, 0), |ctx.anchors|)
    decreases body, 1
  {
    var held, answered := 0, 0;
    for i := 0 to |ctx.anchors|
      invariant 0 <= held && 0 <= answered
      invariant Tally(body, ctx, ctx.anchors, 0, 0) == Tally(body, ctx, ctx.anchors[i..], held, answered)
    {
      var each := Evaluate(body, ctx.Each(ctx.anchors[i]));
      match each {
        case Val(v) =>
          if !v.Bool? { return Faulted(NotComparable); }
          answered := answered + 1;
          if v.b { held := held + 1; }
        case Absent =>
        case Faulted(f) => return each;
      }
    }
    r := Answer(how, Counted(held, answered), |ctx.anchors|);
  }
}
