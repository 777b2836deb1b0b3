/** The precedence-climbing parser of the expression language. */
module Grammar {
  import opened Wrappers
  import opened Json
  import opened Ast
  import Text
  import Evaluator

  /** What parsing the front of some text gives: a result and the text after it. */
  datatype Parsed<+T> = Got(value: T, rest: string) | Bad

  // ---- Characters ---------------------------------------------------------------

  predicate IsAlpha(c: char) { 'a' <= c <= 'z' || 'A' <= c <= 'Z' }

  predicate IsIdent(c: char) { IsAlpha(c) || Text.IsDigit(c) || c == '_' || c == '-' }

  predicate IsSpace(c: char) { c == ' ' || 9 <= c as int <= 13 }

  /** The classes of characters the parser reads runs of. */
  datatype Class = Ident | Digit | NumberPart | Unquoted {
    predicate Has(c: char) {
      match this
      case Ident => IsIdent(c)
      case Digit => Text.IsDigit(c)
      case NumberPart => Text.IsDigit(c) || c == '.'
      case Unquoted => c != '"'
    }
  }

  /** The longest front of `s` that is all of one class. */
  function Front(of: Class, s: string): (r: string)
    ensures forall i :: 0 <= i < |r| ==> of.Has(r[i])
    ensures |r| + |Back(of, s)| == |s|
  {
    if s == "" || !of.Has(s[0]) then "" else [s[0]] + Front(of, s[1..])
  }

  /** What follows it. */
  function Back(of: Class, s: string): (r: string)
    ensures |r| <= |s|
    ensures r == "" || !of.Has(r[0])
  {
    if s == "" || !of.Has(s[0]) then s else Back(of, s[1..])
  }

  function Skip(s: string): (r: string)
    ensures |r| <= |s|
  {
    if s != "" && IsSpace(s[0]) then Skip(s[1..]) else s
  }

  predicate AllAlpha(token: string) { forall i :: 0 <= i < |token| ==> IsAlpha(token[i]) }

  /** The text after `token`, if `s` begins with it. A token made of letters
      must not run on into a longer word. */
  function Eat(token: string, s: string): (r: Option<string>)
    ensures r.Some? ==> |r.value| + |token| == |s|
  {
    if token <= s && !(AllAlpha(token) && |token| < |s| && IsIdent(s[|token|]))
    then Some(s[|token|..])
    else None
  }

  // ---- Operators ------------------------------------------------------------------

  const LEVELS: nat := 5

  function Level(lv: nat): seq<BinOp> {
    match lv
    case 0 => [Or]
    case 1 => [And]
    case 2 => [Eq, Ne, Le, Ge, Lt, Gt]
    case 3 => [Add, Sub]
    case _ => [Mul, Div]
  }

  /** The first operator of `ops` that `s` begins with. */
  function FirstOp(ops: seq<BinOp>, s: string): (r: Parsed<BinOp>)
    ensures r.Got? ==> |r.rest| < |s|
  {
    if ops == [] then Bad
    else
      match Eat(ops[0].Name(), s)
      case Some(rest) => Got(ops[0], rest)
      case None => FirstOp(ops[1..], s)
  }

  // ---- The grammar ------------------------------------------------------------------

  function ParseExpr(lv: nat, s: string): (r: Parsed<Node>)
    requires lv <= LEVELS
    ensures r.Got? ==> |r.rest| < |s|
    decreases |s|, 20 - lv
  {
    if lv == LEVELS then ParseUnary(s)
    else
      match ParseExpr(lv + 1, s)
      case Bad => Bad
      case Got(lhs, rest) => ParseMore(lv, lhs, rest)
  }

  /** The operators of one level that follow `lhs`, grouped to the left. */
  function ParseMore(lv: nat, lhs: Node, s: string): (r: Parsed<Node>)
    requires lv < LEVELS
    ensures r.Got? ==> |r.rest| <= |s|
    decreases |s|, 30
  {
    match FirstOp(Level(lv), Skip(s))
    case Bad => Got(lhs, Skip(s))
    case Got(op, after) =>
      match ParseExpr(lv + 1, Skip(after))
      case Bad => Bad
      case Got(rhs, rest) => ParseMore(lv, Binary(op, lhs, rhs), rest)
  }

  function ParseUnary(s: string): (r: Parsed<Node>)
    ensures r.Got? ==> |r.rest| < |s|
    decreases |s|, 10
  {
    var t := Skip(s);
    match Eat("not", t)
    case Some(after) =>
      (match ParseUnary(Skip(after))
       case Bad => Bad
       case Got(x, rest) => Got(Not(x), rest))
    case None =>
      match Eat("-", t)
      case Some(after) =>
        (match ParseUnary(Skip(after))
         case Bad => Bad
         case Got(x, rest) => Got(Neg(x), rest))
      case None => ParseAtom(t)
  }

  function ParseAtom(s: string): (r: Parsed<Node>)
    ensures r.Got? ==> |r.rest| < |s|
    decreases |s|, 9
  {
    var t := Skip(s);
    if t == "" then Bad
    else if t[0] == '(' then Enclosed(t[1..])
    else if t[0] == '{' then ParseFields([], t[1..])
    else if t[0] == '[' then ParseItems([], t[1..])
    else if t[0] == '"' then
      match ParseString(t[1..])
      case Bad => Bad
      case Got(text, rest) => Got(Lit(Str(text)), rest)
    else if Text.IsDigit(t[0]) then ParseNumber(t)
    else if IsIdent(t[0]) then ParseWord(t)
    else Bad
  }

  /** An expression and the parenthesis that closes it. */
  function Enclosed(s: string): (r: Parsed<Node>)
    ensures r.Got? ==> |r.rest| < |s|
    decreases |s|, 25
  {
    match ParseExpr(0, s)
    case Bad => Bad
    case Got(inner, rest) =>
      match Eat(")", Skip(rest))
      case Some(after) => Got(inner, after)
      case None => Bad
  }

  /** What stands before the next member of a list: its end, or a comma unless
      it is the first. A comma may also stand before the end. */
  datatype Gap = Ended(rest: string) | More(rest: string) | Broken

  function Before(first: bool, close: string, s: string): (g: Gap)
    requires close != ""
    ensures g.Ended? ==> |g.rest| < |s|
    ensures g.More? ==> |g.rest| <= |s|
  {
    var t := Skip(s);
    match Eat(close, t)
    case Some(rest) => Ended(rest)
    case None =>
      if first then More(t)
      else
        match Eat(",", t)
        case None => Broken
        case Some(after) =>
          match Eat(close, Skip(after))
          case Some(rest) => Ended(rest)
          case None => More(Skip(after))
  }

  function ParseKey(s: string): (r: Parsed<string>)
    ensures r.Got? ==> |r.rest| < |s|
  {
    if s == "" then Bad
    else if s[0] == '"' then ParseString(s[1..])
    else if IsIdent(s[0]) then Got(Front(Ident, s), Back(Ident, s))
    else Bad
  }

  predicate HasKey(fields: seq<Field>, key: string) {
    exists i :: 0 <= i < |fields| && fields[i].key == key
  }

  function ParseFields(fields: seq<Field>, s: string): (r: Parsed<Node>)
    ensures r.Got? ==> |r.rest| < |s|
    decreases |s|, 25
  {
    match Before(fields == [], "}", s)
    case Ended(rest) => Got(Object(fields), rest)
    case Broken => Bad
    case More(t) =>
      match ParseKey(t)
      case Bad => Bad
      case Got(key, afterKey) =>
        if HasKey(fields, key) then Bad
        else
          match Eat(":", Skip(afterKey))
          case None => Bad
          case Some(afterColon) =>
            match ParseExpr(0, afterColon)
            case Bad => Bad
            case Got(value, rest) => ParseFields(fields + [Field(key, value)], rest)
  }

  function ParseItems(items: seq<Node>, s: string): (r: Parsed<Node>)
    ensures r.Got? ==> |r.rest| < |s|
    decreases |s|, 25
  {
    match Before(items == [], "]", s)
    case Ended(rest) => Got(Array(items), rest)
    case Broken => Bad
    case More(t) =>
      if t == "" then Bad
      else
        match ParseExpr(0, t)
        case Bad => Bad
        case Got(item, rest) => ParseItems(items + [item], rest)
  }

  /** The rest of a string, up to its closing quote. There are no escapes. */
  function ParseString(s: string): (r: Parsed<string>)
    ensures r.Got? ==> |r.rest| < |s|
  {
    var after := Back(Unquoted, s);
    if after == "" then Bad else Got(Front(Unquoted, s), after[1..])
  }

  predicate IsUnit(c: char) { c == 'd' || c == 'h' || c == 'm' || c == 's' }

  function Seconds(unit: char): real {
    if unit == 'd' then 86400.0
    else if unit == 'h' then 3600.0
    else if unit == 'm' then 60.0
    else 1.0
  }

  function TenTo(k: nat): (r: real)
    ensures r > 0.0
  {
    if k == 0 then 1.0 else 10.0 * TenTo(k - 1)
  }

  /** The number written as digits with at most one point. */
  function Decimal(text: string): Option<real> {
    var after := Back(Digit, text);
    var whole := Text.NatOf(Front(Digit, text)) as real;
    if after == "" then Some(whole)
    else if after[0] == '.' && Text.AllDigits(after[1..])
    then Some(whole + Text.NatOf(after[1..]) as real / TenTo(|after| - 1))
    else None
  }

  function ParseNumber(s: string): (r: Parsed<Node>)
    requires s != "" && Text.IsDigit(s[0])
    ensures r.Got? ==> |r.rest| < |s|
  {
    var after := Back(NumberPart, s);
    var unit := after != "" && IsUnit(after[0]) && !(|after| > 1 && IsIdent(after[1]));
    match Decimal(Front(NumberPart, s))
    case None => Bad
    case Some(n) =>
      if unit then Got(Lit(Evaluator.JsonNumber(n * Seconds(after[0]))), after[1..])
      else Got(Lit(Evaluator.JsonNumber(n)), after)
  }

  /** What a word can begin. */
  datatype Word =
    | Constant(value: Value)
    | ChangedCall
    | ExistsCall
    | Quantifier(how: Quant)
    | Slot(root: Root)
    | Unknown

  function WordOf(word: string): Word {
    if word == "true" then Constant(Bool(true))
    else if word == "false" then Constant(Bool(false))
    else if word == "null" then Constant(Null)
    else if word == "changed" then ChangedCall
    else if word == "exists" then ExistsCall
    else if word == "any" then Quantifier(Any)
    else if word == "all" then Quantifier(All)
    else if word == "count" then Quantifier(Count)
    else if word == "obs" then Slot(Obs)
    else if word == "state" then Slot(State)
    else if word == "taken_at" then Slot(TakenAt)
    else if word == "entered_at" then Slot(EnteredAt)
    else Unknown
  }

  function ParseWord(s: string): (r: Parsed<Node>)
    requires s != "" && IsIdent(s[0])
    ensures r.Got? ==> |r.rest| < |s|
    decreases |s|, 5
  {
    var after := Back(Ident, s);
    match WordOf(Front(Ident, s))
    case Constant(v) => Got(Lit(v), after)
    case ChangedCall => ParseChanged(after)
    case ExistsCall =>
      (match Eat("(", Skip(after))
       case None => Bad
       case Some(t) =>
         match Enclosed(t)
         case Bad => Bad
         case Got(x, rest) => Got(Exists(x), rest))
    case Quantifier(how) => ParseQuantified(how, after)
    case Slot(root) => ParseSteps(root, [], after)
    case Unknown => Bad
  }

  /** A quoted name. */
  function ParseDirection(s: string): (r: Parsed<string>)
    ensures r.Got? ==> |r.rest| < |s|
  {
    var u := Skip(s);
    if u == "" || u[0] != '"' then Bad else ParseString(u[1..])
  }

  function ParseChanged(s: string): (r: Parsed<Node>)
    ensures r.Got? ==> |r.rest| < |s|
  {
    match Eat("(", Skip(s))
    case None => Bad
    case Some(t) =>
      match ParseDirection(t)
      case Bad => Bad
      case Got(name, after) =>
        match Eat(")", Skip(after))
        case None => Bad
        case Some(rest) => Got(Changed(name), rest)
  }

  /** The text after an opening parenthesis, the one collection there is, and
      its comma. */
  function AfterAnchors(s: string): (r: Option<string>)
    ensures r.Some? ==> |r.value| < |s|
  {
    match Eat("(", Skip(s))
    case None => None
    case Some(t) =>
      var u := Skip(t);
      if Front(Ident, u) == "anchors" then Eat(",", Skip(Back(Ident, u))) else None
  }

  function ParseQuantified(how: Quant, s: string): (r: Parsed<Node>)
    ensures r.Got? ==> |r.rest| < |s|
    decreases |s|, 25
  {
    match AfterAnchors(s)
    case None => Bad
    case Some(t) =>
      match Enclosed(t)
      case Bad => Bad
      case Got(body, rest) => Got(Quantified(how, body), rest)
  }

  const INDEX_LIMIT: nat := 0x1_0000_0000_0000_0000

  predicate OpensStep(s: string) { s != "" && (s[0] == '.' || s[0] == '[') }

  /** One `.name` or `[index]`. */
  function ParseStep(s: string): (r: Parsed<Step>)
    requires OpensStep(s)
    ensures r.Got? ==> |r.rest| < |s|
  {
    var t := s[1..];
    if s[0] == '.' then
      var name := Front(Ident, t);
      if name == "" then Bad else Got(Member(name), Back(Ident, t))
    else
      var digits := Front(Digit, t);
      match Eat("]", Back(Digit, t))
      case None => Bad
      case Some(rest) =>
        if digits == "" || Text.NatOf(digits) >= INDEX_LIMIT then Bad
        else Got(Index(Text.NatOf(digits)), rest)
  }

  function ParseSteps(root: Root, steps: seq<Step>, s: string): (r: Parsed<Node>)
    ensures r.Got? ==> |r.rest| <= |s|
    decreases |s|
  {
    if !OpensStep(s) then Got(Path(root, steps), s)
    else
      match ParseStep(s)
      case Bad => Bad
      case Got(step, rest) => ParseSteps(root, steps + [step], rest)
  }

  /** A whole source text. */
  function Parse(source: string): Option<Node> {
    if Skip(source) == "" then None
    else
      match ParseExpr(0, Skip(source))
      case Bad => None
      case Got(node, rest) => if Skip(rest) == "" then Some(node) else None
  }
}
