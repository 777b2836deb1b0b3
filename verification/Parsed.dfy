/** What every parsed expression is like. */
module Parsed {
  import opened Wrappers
  import opened Json
  import opened Ast
  import opened Grammar
  import opened Printed
  import Evaluator
  import Text

  /** The literals there are: no containers, no negative numbers, no text that
      holds a quote, and no whole number a fraction would be kept as. */
  predicate ParsedLit(v: Value) {
    match v
    case Null => true
    case Bool(_) => true
    case Int(n) => 0 <= n < 9000000000000000
    case Float(x) => x >= 0.0
    case Str(s) => '"' !in s
    case _ => false
  }

  /** Names are identifiers, indices fit a machine word, keys do not repeat, and
      no key and no `changed` name holds a quote. */
  predicate WellFormed(node: Node) {
    match node
    case Path(_, steps) => forall i :: 0 <= i < |steps| ==> PrintableStep(steps[i])
    case Lit(v) => ParsedLit(v)
    case Changed(name) => '"' !in name
    case Exists(x) => WellFormed(x)
    case Not(x) => WellFormed(x)
    case Neg(x) => WellFormed(x)
    case Binary(_, lhs, rhs) => WellFormed(lhs) && WellFormed(rhs)
    case Object(fields) =>
      DistinctKeys(fields) && forall i :: 0 <= i < |fields| ==> '"' !in fields[i].key && WellFormed(fields[i].value)
    case Array(items) => forall i :: 0 <= i < |items| ==> WellFormed(items[i])
    case Quantified(_, body) => WellFormed(body)
  }

  // ---- What a text weighs ------------------------------------------------------------------

  function Score(c: char): int { if c == '"' then 1 else if c == '\\' then -1 else 0 }

  /** Its quotes less its backslashes. */
  function Weight(s: string): int {
    if s == "" then 0 else Score(s[0]) + Weight(s[1..])
  }

  predicate Weightless(s: string) { forall i :: 0 <= i < |s| ==> Score(s[i]) == 0 }

  lemma {:induction false} WeighNothing(s: string)
    requires Weightless(s)
    ensures Weight(s) == 0
  {
    if s != "" { WeighNothing(s[1..]); }
  }

  lemma {:induction false} WeightSum(a: string, b: string)
    ensures Weight(a + b) == Weight(a) + Weight(b)
  {
    if a == "" {
      assert a + b == b;
    } else {
      assert (a + b)[1..] == a[1..] + b;
      WeightSum(a[1..], b);
    }
  }

  lemma {:induction false} SkipKeepsWeight(s: string)
    ensures Weight(Skip(s)) == Weight(s)
  {
    if s != "" && IsSpace(s[0]) { SkipKeepsWeight(s[1..]); }
  }

  lemma EatKeepsWeight(token: string, s: string)
    requires Eat(token, s).Some? && Weightless(token)
    ensures Weight(Eat(token, s).value) == Weight(s)
  {
    var rest := Eat(token, s).value;
    assert s == token + rest;
    WeightSum(token, rest);
    WeighNothing(token);
  }

  lemma {:induction false} OperatorKeepsWeight(ops: seq<BinOp>, s: string)
    requires FirstOp(ops, s).Got?
    ensures Weight(FirstOp(ops, s).rest) == Weight(s)
  {
    if Eat(ops[0].Name(), s).Some? { EatKeepsWeight(ops[0].Name(), s); } else { OperatorKeepsWeight(ops[1..], s); }
  }

  lemma {:induction false} RunWeighs(of: Class, s: string)
    ensures Weight(s) == Weight(Front(of, s)) + Weight(Back(of, s))
  {
    if s != "" && of.Has(s[0]) {
      RunWeighs(of, s[1..]);
      WeightSum([s[0]], Front(of, s[1..]));
      assert Weight([s[0]]) == Score(s[0]);
    }
  }

  /** A run outside quotes weighs nothing. */
  lemma RunKeepsWeight(of: Class, s: string)
    requires !of.Unquoted?
    ensures Weight(Back(of, s)) == Weight(s)
  {
    RunWeighs(of, s);
    WeighNothing(Front(of, s));
  }

  lemma StringWeighs(s: string)
    ensures match ParseString(s)
            case Got(text, rest) => '"' !in text && Weight(s) == Weight(text) + 1 + Weight(rest)
            case Bad => true
  {
    RunWeighs(Unquoted, s);
  }

  lemma {:induction false} GapKeepsWeight(first: bool, close: string, s: string)
    requires close != "" && Weightless(close)
    ensures match Before(first, close, s)
            case Ended(rest) => Weight(rest) == Weight(s)
            case More(rest) => Weight(rest) == Weight(s)
            case Broken => true
  {
    var t := Skip(s);
    SkipKeepsWeight(s);
    if Eat(close, t).Some? {
      EatKeepsWeight(close, t);
    } else if !first && Eat(",", t).Some? {
      EatKeepsWeight(",", t);
      var after := Eat(",", t).value;
      SkipKeepsWeight(after);
      if Eat(close, Skip(after)).Some? { EatKeepsWeight(close, Skip(after)); }
    }
  }

  // ---- What a parsed node was worth --------------------------------------------------------

  function LitWorth(v: Value): int { if v.Str? then 2 + Weight(v.s) else 0 }

  /** A key that is no identifier was quoted. */
  function KeyWorth(key: string): int { if Identifier(key) then 0 else 2 + Weight(key) }

  /** The least that the text of a node can have weighed. */
  function Worth(node: Node): int
    decreases node, 0
  {
    match node
    case Path(_, _) => 0
    case Lit(v) => LitWorth(v)
    case Changed(name) => 2 + Weight(name)
    case Exists(x) => Worth(x)
    case Not(x) => Worth(x)
    case Neg(x) => Worth(x)
    case Binary(_, lhs, rhs) => Worth(lhs) + Worth(rhs)
    case Object(fields) => FieldsWorth(fields)
    case Array(items) => ItemsWorth(items)
    case Quantified(_, body) => Worth(body)
  }

  function FieldsWorth(fields: seq<Field>): int
    decreases fields, 1
  {
    if fields == [] then 0 else KeyWorth(fields[0].key) + Worth(fields[0].value) + FieldsWorth(fields[1..])
  }

  function ItemsWorth(items: seq<Node>): int
    decreases items, 1
  {
    if items == [] then 0 else Worth(items[0]) + ItemsWorth(items[1..])
  }

  lemma {:induction false} OneMoreField(fields: seq<Field>, f: Field)
    ensures FieldsWorth(fields + [f]) == FieldsWorth(fields) + KeyWorth(f.key) + Worth(f.value)
  {
    if fields == [] {
      assert fields + [f] == [f] && [f][1..] == [];
    } else {
      assert (fields + [f])[1..] == fields[1..] + [f];
      OneMoreField(fields[1..], f);
    }
  }

  lemma {:induction false} OneMoreItem(items: seq<Node>, x: Node)
    ensures ItemsWorth(items + [x]) == ItemsWorth(items) + Worth(x)
  {
    if items == [] {
      assert items + [x] == [x] && [x][1..] == [];
    } else {
      assert (items + [x])[1..] == items[1..] + [x];
      OneMoreItem(items[1..], x);
    }
  }

  /** If anything was read, it is well formed, and what was read of `s` weighed
      no less than it is worth past the worth there already was. */
  ghost predicate Sound(p: Parsed<Node>, s: string, had: int) {
    p.Got? ==> WellFormed(p.value) && Worth(p.value) + Weight(p.rest) <= Weight(s) + had
  }

  lemma {:induction false} ExprSound(lv: nat, s: string)
    requires lv <= LEVELS
    ensures Sound(ParseExpr(lv, s), s, 0)
    decreases |s|, 20 - lv
  {
    if lv == LEVELS {
      Top(s);
      UnarySound(s);
    } else {
      ExprSound(lv + 1, s);
      match ParseExpr(lv + 1, s)
      case Bad =>
      case Got(lhs, rest) =>
        Up(lv, s, lhs, rest);
        MoreSound(lv, lhs, rest);
    }
  }

  lemma {:induction false} MoreSound(lv: nat, lhs: Node, s: string)
    requires lv < LEVELS && WellFormed(lhs)
    ensures Sound(ParseMore(lv, lhs, s), s, Worth(lhs))
    decreases |s|, 30
  {
    SkipKeepsWeight(s);
    match FirstOp(Level(lv), Skip(s))
    case Bad =>
    case Got(op, after) =>
      OperatorKeepsWeight(Level(lv), Skip(s));
      SkipKeepsWeight(after);
      ExprSound(lv + 1, Skip(after));
      match ParseExpr(lv + 1, Skip(after))
      case Bad => MoreFails(lv, lhs, s, op, after);
      case Got(rhs, rest) =>
        MoreSound(lv, Binary(op, lhs, rhs), rest);
        MoreGoes(lv, lhs, s, op, after, rhs, rest);
  }

  lemma MoreFails(lv: nat, lhs: Node, s: string, op: BinOp, after: string)
    requires lv < LEVELS && FirstOp(Level(lv), Skip(s)) == Got(op, after)
    requires ParseExpr(lv + 1, Skip(after)) == Bad
    ensures ParseMore(lv, lhs, s) == Bad
  {
  }

  lemma {:induction false} UnarySound(s: string)
    ensures Sound(ParseUnary(s), s, 0)
    decreases |s|, 10
  {
    var t := Skip(s);
    SkipKeepsWeight(s);
    match Eat("not", t)
    case Some(after) => OperandSound("not", t);
    case None =>
      match Eat("-", t)
      case Some(after) => OperandSound("-", t);
      case None => AtomSound(t);
  }

  /** What a prefix operator applies to. */
  lemma {:induction false} OperandSound(token: string, t: string)
    requires token != "" && Weightless(token) && Eat(token, t).Some?
    ensures Sound(ParseUnary(Skip(Eat(token, t).value)), t, 0)
    decreases |t|, 9
  {
    var after := Eat(token, t).value;
    EatKeepsWeight(token, t);
    SkipKeepsWeight(after);
    UnarySound(Skip(after));
  }

  lemma {:induction false} AtomSound(s: string)
    ensures Sound(ParseAtom(s), s, 0)
    decreases |s|, 9
  {
    var t := Skip(s);
    SkipKeepsWeight(s);
    if t != "" {
      if t[0] == '(' { EnclosedSound(t[1..]); }
      else if t[0] == '{' { FieldsSound([], t[1..]); }
      else if t[0] == '[' { ItemsSound([], t[1..]); }
      else if t[0] == '"' { StringWeighs(t[1..]); }
      else if Text.IsDigit(t[0]) { NumberSound(t); }
      else if IsIdent(t[0]) { WordSound(t); }
    }
  }

  lemma NumberSound(s: string)
    requires s != "" && Text.IsDigit(s[0])
    ensures Sound(ParseNumber(s), s, 0)
  {
    var after := Back(NumberPart, s);
    RunKeepsWeight(NumberPart, s);
    DecimalNotNegative(Front(NumberPart, s));
    if Decimal(Front(NumberPart, s)).Some? {
      var n := Decimal(Front(NumberPart, s)).value;
      NumberNotNegative(n);
      if after != "" { ScaledNotNegative(n, after[0]); }
    }
  }

  lemma ScaledNotNegative(n: real, unit: char)
    requires n >= 0.0
    ensures ParsedLit(Evaluator.JsonNumber(n * Seconds(unit))) && LitWorth(Evaluator.JsonNumber(n * Seconds(unit))) == 0
  {
    NumberNotNegative(n * Seconds(unit));
  }

  lemma DecimalNotNegative(text: string)
    ensures match Decimal(text) case Some(n) => n >= 0.0 case None => true
  {
    var after := Back(Digit, text);
    if after != "" && Text.AllDigits(after[1..]) {
      var part, whole := Text.NatOf(after[1..]) as real, TenTo(|after| - 1);
      assert part >= 0.0 && whole > 0.0;
      assert part / whole >= 0.0;
    }
  }

  lemma NumberNotNegative(x: real)
    requires x >= 0.0
    ensures ParsedLit(Evaluator.JsonNumber(x)) && LitWorth(Evaluator.JsonNumber(x)) == 0
  {
  }

  lemma {:induction false} EnclosedSound(s: string)
    ensures Sound(Enclosed(s), s, 0)
    decreases |s|, 25
  {
    ExprSound(0, s);
    match ParseExpr(0, s)
    case Bad =>
    case Got(_, rest) =>
      SkipKeepsWeight(rest);
      if Eat(")", Skip(rest)).Some? { EatKeepsWeight(")", Skip(rest)); }
  }

  lemma KeySound(s: string)
    ensures match ParseKey(s)
            case Got(key, rest) => '"' !in key && KeyWorth(key) + Weight(rest) <= Weight(s)
            case Bad => true
  {
    if s != "" {
      if s[0] == '"' {
        StringWeighs(s[1..]);
        if ParseString(s[1..]).Got? && Identifier(ParseString(s[1..]).value) {
          WeighNothing(ParseString(s[1..]).value);
        }
      } else if IsIdent(s[0]) {
        RunKeepsWeight(Ident, s);
      }
    }
  }

  lemma {:induction false} FieldsSound(fields: seq<Field>, s: string)
    requires WellFormed(Object(fields))
    ensures Sound(ParseFields(fields, s), s, FieldsWorth(fields))
    decreases |s|, 25
  {
    GapKeepsWeight(fields == [], "}", s);
    match Before(fields == [], "}", s)
    case Ended(rest) =>
    case Broken =>
    case More(t) =>
      KeySound(t);
      match ParseKey(t)
      case Bad =>
      case Got(key, afterKey) =>
        if !HasKey(fields, key) {
          SkipKeepsWeight(afterKey);
          match Eat(":", Skip(afterKey))
          case None =>
          case Some(afterColon) =>
            EatKeepsWeight(":", Skip(afterKey));
            ExprSound(0, afterColon);
            match ParseExpr(0, afterColon)
            case Bad =>
            case Got(value, rest) =>
              OneMoreField(fields, Field(key, value));
              OneMoreKey(fields, key, value);
              FieldsSound(fields + [Field(key, value)], rest);
        }
  }

  lemma OneMoreKey(fields: seq<Field>, key: string, value: Node)
    requires WellFormed(Object(fields)) && WellFormed(value)
    requires '"' !in key && !HasKey(fields, key)
    ensures WellFormed(Object(fields + [Field(key, value)]))
  {
  }

  lemma {:induction false} ItemsSound(items: seq<Node>, s: string)
    requires WellFormed(Array(items))
    ensures Sound(ParseItems(items, s), s, ItemsWorth(items))
    decreases |s|, 25
  {
    GapKeepsWeight(items == [], "]", s);
    match Before(items == [], "]", s)
    case Ended(rest) =>
    case Broken =>
    case More(t) =>
      if t != "" {
        ExprSound(0, t);
        match ParseExpr(0, t)
        case Bad =>
        case Got(item, rest) =>
          OneMoreItem(items, item);
          ItemsSound(items + [item], rest);
      }
  }

  lemma {:induction false} WordSound(s: string)
    requires s != "" && IsIdent(s[0])
    ensures Sound(ParseWord(s), s, 0)
    decreases |s|, 5
  {
    var after := Back(Ident, s);
    RunKeepsWeight(Ident, s);
    match WordOf(Front(Ident, s))
    case Constant(_) =>
    case ChangedCall => ChangedSound(after);
    case ExistsCall =>
      SkipKeepsWeight(after);
      if Eat("(", Skip(after)).Some? {
        EatKeepsWeight("(", Skip(after));
        EnclosedSound(Eat("(", Skip(after)).value);
      }
    case Quantifier(how) => QuantifiedSound(how, after);
    case Slot(root) => StepsSound(root, [], after);
    case Unknown =>
  }

  lemma ChangedSound(s: string)
    ensures Sound(ParseChanged(s), s, 0)
  {
    SkipKeepsWeight(s);
    match Eat("(", Skip(s))
    case None =>
    case Some(t) =>
      EatKeepsWeight("(", Skip(s));
      SkipKeepsWeight(t);
      var u := Skip(t);
      if u != "" && u[0] == '"' {
        StringWeighs(u[1..]);
        match ParseString(u[1..])
        case Bad =>
        case Got(_, after) =>
          SkipKeepsWeight(after);
          if Eat(")", Skip(after)).Some? { EatKeepsWeight(")", Skip(after)); }
      }
  }

  lemma AnchorsWeighNothing(s: string)
    requires AfterAnchors(s).Some?
    ensures Weight(AfterAnchors(s).value) == Weight(s)
  {
    SkipKeepsWeight(s);
    EatKeepsWeight("(", Skip(s));
    var t := Eat("(", Skip(s)).value;
    SkipKeepsWeight(t);
    RunKeepsWeight(Ident, Skip(t));
    SkipKeepsWeight(Back(Ident, Skip(t)));
    EatKeepsWeight(",", Skip(Back(Ident, Skip(t))));
  }

  lemma QuantifiedSound(how: Quant, s: string)
    ensures Sound(ParseQuantified(how, s), s, 0)
    decreases |s|, 25
  {
    match AfterAnchors(s)
    case None =>
    case Some(t) =>
      AnchorsWeighNothing(s);
      EnclosedSound(t);
  }

  lemma StepKeepsWeight(s: string)
    requires OpensStep(s) && ParseStep(s).Got?
    ensures Weight(ParseStep(s).rest) == Weight(s)
  {
    var t := s[1..];
    if s[0] == '.' {
      RunKeepsWeight(Ident, t);
    } else {
      RunKeepsWeight(Digit, t);
      EatKeepsWeight("]", Back(Digit, t));
    }
  }

  lemma {:induction false} StepsSound(root: Root, steps: seq<Step>, s: string)
    requires WellFormed(Path(root, steps))
    ensures Sound(ParseSteps(root, steps, s), s, 0)
    decreases |s|
  {
    if OpensStep(s) {
      match ParseStep(s)
      case Bad =>
      case Got(step, rest) =>
        StepKeepsWeight(s);
        StepThen(root, steps, s, step, rest);
        StepsSound(root, steps + [step], rest);
    }
  }

  lemma ParsedIsWellFormed(source: string)
    ensures match Parse(source) case Some(node) => WellFormed(node) case None => true
  {
    ExprSound(0, Skip(source));
  }

  /** Printing what was parsed and parsing it again changes nothing, if the
      literals and keys can be printed. */
  lemma ReparsedIsSame(source: string, show: Value -> string)
    ensures match Parse(source)
            case Some(node) => Printable(node) ==> Parse(Render(node, show)) == Some(node)
            case None => true
  {
    match Parse(source)
    case Some(node) => if Printable(node) { RoundTrip(node, show); }
    case None =>
  }

  // ---- Exactly what prints to itself -------------------------------------------------------

  /** No literal is one whose text is the serialiser's own: a fraction or a container. */
  predicate Writable(node: Node) {
    match node
    case Path(_, _) => true
    case Lit(v) => v.Null? || v.Bool? || v.Int? || v.Str?
    case Changed(_) => true
    case Exists(x) => Writable(x)
    case Not(x) => Writable(x)
    case Neg(x) => Writable(x)
    case Binary(_, lhs, rhs) => Writable(lhs) && Writable(rhs)
    case Object(fields) => forall i :: 0 <= i < |fields| ==> Writable(fields[i].value)
    case Array(items) => forall i :: 0 <= i < |items| ==> Writable(items[i])
    case Quantified(_, body) => Writable(body)
  }

  lemma EscapeWeighs(c: char)
    requires c != '"'
    ensures Weight(Escape(c)) == if c == '\\' then -2 else if c as int < 32 then -1 else 0
  {
    if c == '\\' || c in {'\n', '\r', '\t'} || c as int == 8 || c as int == 12 {
      var e := Escape(c);
      assert e == [e[0]] + [e[1]];
      WeightSum([e[0]], [e[1]]);
      assert Weight([e[0]]) == -1 && Weight([e[1]]) == Score(e[1]);
    } else if c as int < 32 {
      HexWeighs(c as int / 16, c as int % 16);
    } else {
      assert Weight([c]) == Score(c);
    }
  }

  lemma HexWeighs(high: nat, low: nat)
    requires high < 16 && low < 16
    ensures Weight("\\u00" + [HexDigit(high), HexDigit(low)]) == -1
  {
    var digits := "u00" + [HexDigit(high), HexDigit(low)];
    assert "\\u00" + [HexDigit(high), HexDigit(low)] == "\\" + digits;
    WeightSum("\\", digits);
    WeighNothing(digits);
    assert Weight("\\") == -1;
  }

  /** Escaping only ever makes a text lighter, and leaves its weight alone exactly if
      there is nothing to escape. */
  lemma {:induction false} EscapedWeighs(s: string)
    requires '"' !in s
    ensures Weight(Escaped(s)) <= Weight(s)
    ensures Weight(Escaped(s)) == Weight(s) ==> PlainText(s)
  {
    if s != "" {
      assert s[0] in s && s == [s[0]] + s[1..];
      EscapedWeighs(s[1..]);
      EscapeWeighs(s[0]);
      WeightSum(Escape(s[0]), Escaped(s[1..]));
    }
  }

  lemma LitWeighs(v: Value, show: Value -> string)
    requires ParsedLit(v) && Writable(Lit(v))
    ensures Weight(LitText(v, show)) <= LitWorth(v)
    ensures Weight(LitText(v, show)) == LitWorth(v) ==> PrintableLit(v)
  {
    if v.Str? {
      EscapedWeighs(v.s);
      Around("\"", Escaped(v.s), "\"");
      assert Weight("\"") == 1;
    } else {
      WeighNothing(LitText(v, show));
    }
  }

  lemma Around(before: string, s: string, after: string)
    ensures Weight(before + s + after) == Weight(before) + Weight(s) + Weight(after)
  {
    WeightSum(before + s, after);
    WeightSum(before, s);
  }

  /** Text that weighs nothing, put about a text. */
  lemma Wrapped(before: string, s: string, after: string)
    requires Weightless(before) && Weightless(after)
    ensures Weight(before + s + after) == Weight(s)
  {
    Around(before, s, after);
    WeighNothing(before);
    WeighNothing(after);
  }

  lemma {:induction false} StepsWeighNothing(steps: seq<Step>)
    requires forall i :: 0 <= i < |steps| ==> PrintableStep(steps[i])
    ensures Weightless(RenderSteps(steps))
  {
    if steps != [] {
      StepsWeighNothing(steps[1..]);
      assert Weightless(RenderStep(steps[0]));
    }
  }

  lemma PathWeighs(root: Root, steps: seq<Step>)
    requires forall i :: 0 <= i < |steps| ==> PrintableStep(steps[i])
    ensures Weight(root.Name() + RenderSteps(steps)) == 0
  {
    StepsWeighNothing(steps);
    WeighNothing(RenderSteps(steps));
    NameWeighsNothing(root);
    WeightSum(root.Name(), RenderSteps(steps));
  }

  lemma NameWeighsNothing(root: Root)
    ensures Weight(root.Name()) == 0
  {
    WeighNothing(root.Name());
  }

  lemma CallsWeigh(r: string)
    ensures Weight("exists" + "(" + r + ")") == Weight(r)
    ensures Weight("not" + " " + "(" + r + ")") == Weight(r)
    ensures Weight("-" + "(" + r + ")") == Weight(r)
  {
    Wrapped("exists" + "(", r, ")");
    Wrapped("not" + " " + "(", r, ")");
    Wrapped("-" + "(", r, ")");
  }

  lemma ListsWeigh(r: string)
    ensures Weight("{" + " " + r + " " + "}") == Weight(r)
    ensures Weight("[" + r + "]") == Weight(r)
  {
    Text.Assoc("{" + " " + r, " ", "}");
    Wrapped("{" + " ", r, " " + "}");
    Wrapped("[", r, "]");
  }

  lemma QuantifierWeighs(how: Quant, r: string)
    ensures Weight(how.Name() + "(" + "anchors" + "," + " " + r + ")") == Weight(r)
  {
    var front := how.Name() + "(" + "anchors" + "," + " ";
    assert Weightless(front) by { match how case Any => case All => case Count => }
    Wrapped(front, r, ")");
  }

  lemma ChangedWeighs(name: string)
    ensures Weight("changed" + "(" + "\"" + name + "\"" + ")") == 2 + Weight(name)
  {
    Wrapped("changed" + "(", "\"" + name + "\"", ")");
    Around("\"", name, "\"");
    Text.Assoc("changed" + "(", "\"", name);
    Text.Assoc("changed" + "(", "\"" + name, "\"");
    assert Weight("\"") == 1;
  }

  lemma BinaryWeighs(l: string, op: BinOp, r: string)
    ensures Weight("(" + l + " " + op.Name() + " " + r + ")") == Weight(l) + Weight(r)
  {
    var middle := " " + op.Name() + " ";
    WeightSum("(" + l + " " + op.Name() + " " + r, ")");
    WeightSum("(" + l + " " + op.Name() + " ", r);
    Text.Assoc("(" + l, " ", op.Name());
    Text.Assoc("(" + l, " " + op.Name(), " ");
    Wrapped("(", l, middle);
    WeighNothing(")");
  }

  lemma {:induction false} RenderWeighs(node: Node, show: Value -> string)
    requires WellFormed(node) && Writable(node)
    ensures Weight(Render(node, show)) <= Worth(node)
    ensures Weight(Render(node, show)) == Worth(node) ==> Printable(node)
    decreases node, 0
  {
    match node
    case Path(root, steps) => PathWeighs(root, steps);
    case Lit(v) => LitWeighs(v, show);
    case Changed(name) => ChangedWeighs(name);
    case Exists(x) =>
      RenderWeighs(x, show);
      CallsWeigh(Render(x, show));
    case Not(x) =>
      RenderWeighs(x, show);
      CallsWeigh(Render(x, show));
    case Neg(x) =>
      RenderWeighs(x, show);
      CallsWeigh(Render(x, show));
    case Binary(op, lhs, rhs) =>
      RenderWeighs(lhs, show);
      RenderWeighs(rhs, show);
      BinaryWeighs(Render(lhs, show), op, Render(rhs, show));
    case Object(fields) =>
      FieldsWeigh(fields, show);
      ListsWeigh(RenderFields(fields, show));
    case Array(items) =>
      ItemsWeigh(items, show);
      ListsWeigh(RenderItems(items, show));
    case Quantified(how, body) =>
      RenderWeighs(body, show);
      QuantifierWeighs(how, Render(body, show));
  }

  lemma KeyWeighs(key: string)
    ensures Weight(key) <= KeyWorth(key)
    ensures Weight(key) == KeyWorth(key) ==> Identifier(key)
  {
    if Identifier(key) { WeighNothing(key); }
  }

  lemma FieldWeighs(f: Field, show: Value -> string)
    ensures Weight(RenderField(f, show)) == Weight(f.key) + Weight(Render(f.value, show))
  {
    Text.Assoc(f.key, ":", " ");
    Around(f.key, ":" + " ", Render(f.value, show));
    WeighNothing(":" + " ");
  }

  lemma JoinWeighs(a: string, b: string)
    ensures Weight(a + "," + " " + b) == Weight(a) + Weight(b)
  {
    Text.Assoc(a, ",", " ");
    Around(a, "," + " ", b);
    WeighNothing("," + " ");
  }

  /** Printed as a list of fields, so that each may be printed to itself. */
  predicate PrintableFields(fields: seq<Field>) {
    forall i :: 0 <= i < |fields| ==> Identifier(fields[i].key) && Printable(fields[i].value)
  }

  lemma {:induction false} FieldsWeigh(fields: seq<Field>, show: Value -> string)
    requires forall i :: 0 <= i < |fields| ==> WellFormed(fields[i].value) && Writable(fields[i].value)
    ensures Weight(RenderFields(fields, show)) <= FieldsWorth(fields)
    ensures Weight(RenderFields(fields, show)) == FieldsWorth(fields) ==> PrintableFields(fields)
    decreases fields, 1
  {
    if fields != [] {
      var f, more := fields[0], fields[1..];
      RenderWeighs(f.value, show);
      KeyWeighs(f.key);
      FieldWeighs(f, show);
      FieldsWeigh(more, show);
      if more != [] { JoinWeighs(RenderField(f, show), RenderFields(more, show)); }
      assert Identifier(f.key) && Printable(f.value) && PrintableFields(more) ==> PrintableFields(fields) by {
        assert forall i :: 0 < i < |fields| ==> fields[i] == more[i - 1];
      }
    }
  }

  predicate PrintableItems(items: seq<Node>) { forall i :: 0 <= i < |items| ==> Printable(items[i]) }

  lemma {:induction false} ItemsWeigh(items: seq<Node>, show: Value -> string)
    requires forall i :: 0 <= i < |items| ==> WellFormed(items[i]) && Writable(items[i])
    ensures Weight(RenderItems(items, show)) <= ItemsWorth(items)
    ensures Weight(RenderItems(items, show)) == ItemsWorth(items) ==> PrintableItems(items)
    decreases items, 1
  {
    if items != [] {
      var more := items[1..];
      RenderWeighs(items[0], show);
      ItemsWeigh(more, show);
      if more != [] { JoinWeighs(Render(items[0], show), RenderItems(more, show)); }
      assert Printable(items[0]) && PrintableItems(more) ==> PrintableItems(items) by {
        assert forall i :: 0 < i < |items| ==> items[i] == more[i - 1];
      }
    }
  }

  /** A text that parses weighs no less than what it parses to is worth. */
  lemma ParsedWeighs(source: string)
    ensures match Parse(source) case Some(node) => Worth(node) <= Weight(source) case None => true
  {
    SkipKeepsWeight(source);
    ExprSound(0, Skip(source));
    match ParseExpr(0, Skip(source))
    case Bad =>
    case Got(_, rest) => SkipKeepsWeight(rest);
  }

  /** Parsing undoes printing exactly on the printable nodes, of all those whose
      literals the grammar has a form for. Every other one either has a shape that
      nothing parses to, or holds a key or a text that took more quotes, or fewer
      backslashes, to write than its printed text has. */
  lemma RoundTripsExactly(node: Node, show: Value -> string)
    requires Writable(node)
    ensures Parse(Render(node, show)) == Some(node) <==> Printable(node)
  {
    if Printable(node) { RoundTrip(node, show); }
    if Parse(Render(node, show)) == Some(node) {
      ParsedIsWellFormed(Render(node, show));
      ParsedWeighs(Render(node, show));
      RenderWeighs(node, show);
    }
  }
}
