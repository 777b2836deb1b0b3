/** Parsing undoes printing. */
module Printed {
  import opened Wrappers
  import opened Json
  import opened Ast
  import opened Grammar
  import Text
  import Evaluator

  // ---- What prints to something the grammar can read ---------------------------

  predicate Identifier(name: string) {
    name != "" && forall i :: 0 <= i < |name| ==> IsIdent(name[i])
  }

  predicate PlainText(s: string) {
    forall i :: 0 <= i < |s| ==> s[i] != '"' && s[i] != '\\' && s[i] as int >= 32
  }

  predicate PrintableStep(step: Step) {
    match step
    case Member(name) => Identifier(name)
    case Index(i) => i < INDEX_LIMIT
  }

  predicate PrintableLit(v: Value) {
    match v
    case Null => true
    case Bool(_) => true
    case Int(n) => 0 <= n < 9000000000000000
    case Str(s) => PlainText(s)
    case _ => false
  }

  predicate DistinctKeys(fields: seq<Field>) {
    forall i, j :: 0 <= i < j < |fields| ==> fields[i].key != fields[j].key
  }

  predicate Printable(node: Node) {
    match node
    case Path(_, steps) => forall i :: 0 <= i < |steps| ==> PrintableStep(steps[i])
    case Lit(v) => PrintableLit(v)
    case Changed(name) => '"' !in name
    case Exists(x) => Printable(x)
    case Not(x) => Printable(x)
    case Neg(x) => Printable(x)
    case Binary(_, lhs, rhs) => Printable(lhs) && Printable(rhs)
    case Object(fields) =>
      && DistinctKeys(fields)
      && forall i :: 0 <= i < |fields| ==> Identifier(fields[i].key) && Printable(fields[i].value)
    case Array(items) => forall i :: 0 <= i < |items| ==> Printable(items[i])
    case Quantified(_, body) => Printable(body)
  }

  /** A printed node never runs into what follows it. */
  predicate Stops(rest: string) {
    rest == "" || rest[0] in {' ', ')', ',', ']', '}'}
  }

  /** No operator follows. */
  predicate Closes(rest: string) {
    && Stops(rest)
    && var t := Skip(rest); t == "" || t[0] in {')', ',', ']', '}'}
  }

  // ---- Reading the front of a text -----------------------------------------------

  lemma {:induction false} RunOver(of: Class, w: string, rest: string)
    requires forall i :: 0 <= i < |w| ==> of.Has(w[i])
    requires rest == "" || !of.Has(rest[0])
    ensures Front(of, w + rest) == w && Back(of, w + rest) == rest
  {
    if w == "" {
      assert w + rest == rest;
    } else {
      RunOver(of, w[1..], rest);
      assert (w + rest)[1..] == w[1..] + rest;
    }
  }

  lemma NoSpace(s: string)
    requires s == "" || !IsSpace(s[0])
    ensures Skip(s) == s
  {
  }

  lemma OneSpace(t: string)
    ensures Skip(" " + t) == Skip(t)
  {
    assert (" " + t)[1..] == t;
  }

  lemma EatFront(token: string, rest: string)
    requires !AllAlpha(token) || rest == "" || !IsIdent(rest[0])
    ensures Eat(token, token + rest) == Some(rest)
  {
    assert (token + rest)[..|token|] == token;
  }

  lemma EatOther(token: string, s: string)
    requires token != "" && (s == "" || s[0] != token[0])
    ensures Eat(token, s) == None
  {
  }

  lemma AtomFront(s: string)
    requires s != "" && !IsSpace(s[0]) && s[0] != '-' && s[0] != 'n'
    ensures ParseUnary(s) == ParseAtom(s)
  {
    NoSpace(s);
    EatOther("not", s);
    EatOther("-", s);
  }

  lemma WordFront(w: string, rest: string)
    requires w != "" && IsAlpha(w[0]) && w[0] != 'n' && Identifier(w)
    requires rest == "" || !IsIdent(rest[0])
    ensures ParseUnary(w + rest) == ParseWord(w + rest)
    ensures Front(Ident, w + rest) == w && Back(Ident, w + rest) == rest
  {
    RunOver(Ident, w, rest);
    assert (w + rest)[0] == w[0];
    AtomIsWord(w + rest);
  }

  lemma AtomIsWord(s: string)
    requires s != "" && IsAlpha(s[0]) && s[0] != 'n'
    ensures ParseUnary(s) == ParseWord(s)
  {
    AtomFront(s);
    WordAtom(s);
  }

  lemma WordAtom(s: string)
    requires s != "" && IsAlpha(s[0])
    ensures ParseAtom(s) == ParseWord(s)
  {
    NoSpace(s);
    assert !Text.IsDigit(s[0]) && IsIdent(s[0]);
  }

  /** The words the printer writes are the ones the parser knows. */
  lemma Words()
    ensures forall root: Root :: WordOf(root.Name()) == Slot(root)
    ensures forall how: Quant :: WordOf(how.Name()) == Quantifier(how)
    ensures WordOf("changed") == ChangedCall && WordOf("exists") == ExistsCall
    ensures WordOf("true") == Constant(Bool(true)) && WordOf("false") == Constant(Bool(false))
    ensures WordOf("null") == Constant(Null)
  {
    forall root: Root ensures WordOf(root.Name()) == Slot(root) { RootWord(root); }
    forall how: Quant ensures WordOf(how.Name()) == Quantifier(how) { QuantWord(how); }
    OtherWords();
  }

  lemma RootWord(root: Root)
    ensures WordOf(root.Name()) == Slot(root)
  {
  }

  lemma QuantWord(how: Quant)
    ensures WordOf(how.Name()) == Quantifier(how)
  {
  }

  lemma OtherWords()
    ensures WordOf("changed") == ChangedCall && WordOf("exists") == ExistsCall
    ensures WordOf("true") == Constant(Bool(true)) && WordOf("false") == Constant(Bool(false))
    ensures WordOf("null") == Constant(Null)
  {
  }

  // ---- Leaves ------------------------------------------------------------------------

  lemma StepPrinted(step: Step, rest: string)
    requires PrintableStep(step)
    requires rest == "" || (!IsIdent(rest[0]) && !Text.IsDigit(rest[0]))
    ensures OpensStep(RenderStep(step) + rest)
    ensures ParseStep(RenderStep(step) + rest) == Got(step, rest)
  {
    match step
    case Member(name) =>
      assert (RenderStep(step) + rest)[1..] == name + rest;
      RunOver(Ident, name, rest);
    case Index(i) =>
      var digits := Text.NatText(i);
      assert (RenderStep(step) + rest)[1..] == digits + ("]" + rest);
      RunOver(Digit, digits, "]" + rest);
      EatFront("]", rest);
      Text.NatTextReads(i);
  }

  lemma StepThen(root: Root, done: seq<Step>, s: string, step: Step, more: string)
    requires OpensStep(s) && ParseStep(s) == Got(step, more)
    ensures ParseSteps(root, done, s) == ParseSteps(root, done + [step], more)
  {
  }

  lemma {:induction false} StepsPrinted(root: Root, done: seq<Step>, todo: seq<Step>, rest: string)
    requires forall i :: 0 <= i < |todo| ==> PrintableStep(todo[i])
    requires Stops(rest)
    ensures ParseSteps(root, done, RenderSteps(todo) + rest) == Got(Path(root, done + todo), rest)
    decreases |todo|
  {
    if todo == [] {
      assert RenderSteps(todo) + rest == rest && done + todo == done;
    } else {
      var more := RenderSteps(todo[1..]) + rest;
      Text.Assoc(RenderStep(todo[0]), RenderSteps(todo[1..]), rest);
      StepsStart(todo[1..], rest);
      StepPrinted(todo[0], more);
      StepThen(root, done, RenderStep(todo[0]) + more, todo[0], more);
      Text.Shift(done, todo);
      StepsPrinted(root, done + [todo[0]], todo[1..], rest);
    }
  }

  lemma PathPrinted(root: Root, steps: seq<Step>, rest: string)
    requires forall i :: 0 <= i < |steps| ==> PrintableStep(steps[i])
    requires Stops(rest)
    ensures ParseUnary(root.Name() + (RenderSteps(steps) + rest)) == Got(Path(root, steps), rest)
  {
    StepsStart(steps, rest);
    SlotParsed(root, RenderSteps(steps) + rest);
    StepsPrinted(root, [], steps, rest);
    assert [] + steps == steps;
  }

  lemma SlotParsed(root: Root, after: string)
    requires after == "" || !IsIdent(after[0])
    ensures ParseUnary(root.Name() + after) == ParseSteps(root, [], after)
  {
    Words();
    NameIsWord(root);
    WordFront(root.Name(), after);
  }

  lemma NameIsWord(root: Root)
    ensures Identifier(root.Name()) && IsAlpha(root.Name()[0]) && root.Name()[0] != 'n'
  {
  }

  lemma StepsStart(steps: seq<Step>, rest: string)
    requires Stops(rest)
    ensures var t := RenderSteps(steps) + rest; t == "" || (!IsIdent(t[0]) && !Text.IsDigit(t[0]))
  {
    if steps != [] { assert (RenderSteps(steps) + rest)[0] == RenderStep(steps[0])[0]; }
  }

  lemma {:induction false} PlainEscaped(s: string)
    requires PlainText(s)
    ensures Escaped(s) == s
  {
    if s != "" {
      PlainEscaped(s[1..]);
      assert Escape(s[0]) == [s[0]];
    }
  }

  lemma StringPrinted(s: string, rest: string)
    requires '"' !in s
    ensures ParseString(s + ("\"" + rest)) == Got(s, rest)
  {
    RunOver(Unquoted, s, "\"" + rest);
    assert ("\"" + rest)[1..] == rest;
  }

  lemma NumberPrinted(n: nat, rest: string)
    requires n < 9000000000000000 && Stops(rest)
    ensures ParseUnary(Text.NatText(n) + rest) == Got(Lit(Int(n)), rest)
  {
    var digits := Text.NatText(n);
    var s := digits + rest;
    assert s[0] == digits[0] && Text.IsDigit(s[0]);
    AtomFront(s);
    NoSpace(s);
    assert ParseAtom(s) == ParseNumber(s);
    DigitsParsed(n, rest);
  }

  lemma DigitsParsed(n: nat, rest: string)
    requires n < 9000000000000000 && Stops(rest)
    ensures var s := Text.NatText(n) + rest; s != "" && Text.IsDigit(s[0]) && ParseNumber(s) == Got(Lit(Int(n)), rest)
  {
    var digits := Text.NatText(n);
    assert (digits + rest)[0] == digits[0];
    RunOver(NumberPart, digits, rest);
    DigitsRead(n);
  }

  lemma DigitsRead(n: nat)
    ensures Decimal(Text.NatText(n)) == Some(n as real)
    ensures n < 9000000000000000 ==> Evaluator.JsonNumber(n as real) == Int(n)
  {
    var digits := Text.NatText(n);
    RunOver(Digit, digits, "");
    assert digits + "" == digits;
    Text.NatTextReads(n);
    assert (n as real).Floor == n;
  }

  lemma LitPrinted(v: Value, show: Value -> string, rest: string)
    requires PrintableLit(v) && Stops(rest)
    ensures ParseUnary(LitText(v, show) + rest) == Got(Lit(v), rest)
  {
    match v
    case Null => NullPrinted(rest);
    case Bool(b) =>
      Words();
      WordFront(if b then "true" else "false", rest);
    case Int(n) => NumberPrinted(n, rest);
    case Str(text) => TextPrinted(text, rest);
  }

  lemma NullPrinted(rest: string)
    requires Stops(rest)
    ensures ParseUnary("null" + rest) == Got(Lit(Null), rest)
  {
    var s := "null" + rest;
    NoSpace(s);
    NotNot(s);
    EatOther("-", s);
    assert ParseUnary(s) == ParseAtom(s);
    Words();
    RunOver(Ident, "null", rest);
    assert ParseAtom(s) == ParseWord(s);
  }

  lemma NotNot(s: string)
    requires |s| > 1 && s[1] == 'u'
    ensures Eat("not", s) == None
  {
    assert "not"[1] == 'o';
  }

  lemma TextPrinted(text: string, rest: string)
    requires PlainText(text)
    ensures ParseUnary(Quote(text) + rest) == Got(Lit(Str(text)), rest)
  {
    PlainEscaped(text);
    var t := text + ("\"" + rest);
    assert Quote(text) + rest == "\"" + t;
    AtomFront("\"" + t);
    NoSpace("\"" + t);
    assert ("\"" + t)[1..] == t;
    StringPrinted(text, rest);
  }

  lemma ChangedPrinted(name: string, rest: string)
    requires '"' !in name
    ensures ParseUnary("changed" + ("(" + ("\"" + (name + ("\"" + (")" + rest)))))) == Got(Changed(name), rest)
  {
    var text := name + ("\"" + (")" + rest));
    var quoted := "\"" + text;
    Words();
    WordFront("changed", "(" + quoted);
    NoSpace("(" + quoted);
    EatFront("(", quoted);
    NoSpace(quoted);
    assert quoted[1..] == text;
    StringPrinted(name, ")" + rest);
    assert ParseDirection(quoted) == Got(name, ")" + rest);
    NoSpace(")" + rest);
    EatFront(")", rest);
    assert ParseChanged("(" + quoted) == Got(Changed(name), rest);
  }

  // ---- Levels of precedence ---------------------------------------------------------

  function LevelOf(op: BinOp): nat {
    match op
    case Or => 0
    case And => 1
    case Add => 3
    case Sub => 3
    case Mul => 4
    case Div => 4
    case _ => 2
  }

  lemma NoOperator(lv: nat, s: string)
    requires s == "" || s[0] in {')', ',', ']', '}'}
    ensures FirstOp(Level(lv), s) == Bad
  {
    NoneOf(Level(lv), s);
  }

  lemma {:induction false} NoneOf(ops: seq<BinOp>, s: string)
    requires forall i :: 0 <= i < |ops| ==> s == "" || s[0] != ops[i].Name()[0]
    ensures FirstOp(ops, s) == Bad
  {
    if ops != [] {
      EatOther(ops[0].Name(), s);
      NoneOf(ops[1..], s);
    }
  }

  /** An operator between spaces is eaten at its own level and no tighter one. */
  lemma OperatorPrinted(lv: nat, op: BinOp, t: string)
    requires LevelOf(op) <= lv < LEVELS
    ensures FirstOp(Level(lv), op.Name() + (" " + t)) ==
            if lv == LevelOf(op) then Got(op, " " + t) else Bad
  {
    var s := op.Name() + (" " + t);
    assert s[0] == op.Name()[0];
    EatFront(op.Name(), " " + t);
    if lv != LevelOf(op) {
      NoneOf(Level(lv), s);
    } else if lv == 2 {
      ComparisonPrinted(op, t);
    } else {
      OnlyAmong(Level(lv), op, s, " " + t);
    }
  }

  lemma {:induction false} OnlyAmong(ops: seq<BinOp>, op: BinOp, s: string, rest: string)
    requires op in ops && s != "" && Eat(op.Name(), s) == Some(rest)
    requires forall o :: o in ops && o != op ==> o.Name()[0] != s[0]
    ensures FirstOp(ops, s) == Got(op, rest)
  {
    if ops[0] != op {
      EatOther(ops[0].Name(), s);
      OnlyAmong(ops[1..], op, s, rest);
    }
  }

  /** Each comparison is tried after the ones it begins. */
  lemma ComparisonPrinted(op: BinOp, t: string)
    requires LevelOf(op) == 2
    ensures FirstOp(Level(2), op.Name() + (" " + t)) == Got(op, " " + t)
  {
    var s := op.Name() + (" " + t);
    EatFront(op.Name(), " " + t);
    var i := if op == Eq then 0 else if op == Ne then 1 else if op == Le then 2
             else if op == Ge then 3 else if op == Lt then 4 else 5;
    forall j | 0 <= j < i ensures Eat(Level(2)[j].Name(), s) == None {
      var o := Level(2)[j];
      assert o.Name()[0] != s[0] || (|o.Name()| == 2 && o.Name()[1] != s[1]);
    }
    FirstAt(Level(2), i, s);
  }

  lemma {:induction false} FirstAt(ops: seq<BinOp>, i: nat, s: string)
    requires i < |ops| && Eat(ops[i].Name(), s).Some?
    requires forall j :: 0 <= j < i ==> Eat(ops[j].Name(), s) == None
    ensures FirstOp(ops, s) == Got(ops[i], Eat(ops[i].Name(), s).value)
  {
    if i > 0 {
      var more := ops[1..];
      assert forall j :: 0 <= j < i - 1 ==> more[j] == ops[j + 1];
      FirstAt(more, i - 1, s);
    }
  }

  lemma Top(s: string)
    ensures ParseExpr(LEVELS, s) == ParseUnary(s)
  {
  }

  lemma Up(lv: nat, s: string, lhs: Node, rest: string)
    requires lv < LEVELS && ParseExpr(lv + 1, s) == Got(lhs, rest)
    ensures ParseExpr(lv, s) == ParseMore(lv, lhs, rest)
  {
  }

  lemma MoreEnds(lv: nat, lhs: Node, s: string)
    requires lv < LEVELS && FirstOp(Level(lv), Skip(s)) == Bad
    ensures ParseMore(lv, lhs, s) == Got(lhs, Skip(s))
  {
  }

  lemma MoreGoes(lv: nat, lhs: Node, s: string, op: BinOp, after: string, rhs: Node, rest: string)
    requires lv < LEVELS && FirstOp(Level(lv), Skip(s)) == Got(op, after)
    requires ParseExpr(lv + 1, Skip(after)) == Got(rhs, rest)
    ensures ParseMore(lv, lhs, s) == ParseMore(lv, Binary(op, lhs, rhs), rest)
  {
  }

  lemma PassUp(lv: nat, s: string, n: Node, rest: string)
    requires lv < LEVELS && ParseExpr(lv + 1, s) == Got(n, rest)
    requires FirstOp(Level(lv), Skip(rest)) == Bad
    ensures ParseExpr(lv, s) == Got(n, Skip(rest))
  {
    Up(lv, s, n, rest);
    MoreEnds(lv, n, rest);
  }

  lemma ClosingStops(lv: nat, rest: string)
    requires Closes(rest)
    ensures Skip(Skip(rest)) == Skip(rest) && FirstOp(Level(lv), Skip(rest)) == Bad
  {
    NoSpace(Skip(rest));
    NoOperator(lv, Skip(rest));
  }

  /** An operand with no operator after it passes up through every level. */
  lemma {:induction false} OperandAlone(lv: nat, n: Node, s: string, rest: string)
    requires lv <= LEVELS
    requires ParseUnary(s) == Got(n, rest) && Closes(rest)
    ensures ParseExpr(lv, s) == Got(n, if lv == LEVELS then rest else Skip(rest))
    decreases LEVELS - lv
  {
    if lv == LEVELS {
      Top(s);
    } else {
      OperandAlone(lv + 1, n, s, rest);
      ClosingStops(lv, rest);
      PassUp(lv, s, n, if lv + 1 == LEVELS then rest else Skip(rest));
    }
  }

  /** An operand passes up through the levels that what follows is not of. */
  lemma {:induction false} OperandBefore(lv: nat, n: Node, s: string, u: string)
    requires lv <= LEVELS && ParseUnary(s) == Got(n, " " + u)
    requires u != "" && !IsSpace(u[0])
    requires forall k :: lv <= k < LEVELS ==> FirstOp(Level(k), u) == Bad
    ensures ParseExpr(lv, s) == Got(n, if lv == LEVELS then " " + u else u)
    decreases LEVELS - lv
  {
    if lv == LEVELS {
      Top(s);
    } else {
      OperandBefore(lv + 1, n, s, u);
      OneSpace(u);
      NoSpace(u);
      PassUp(lv, s, n, if lv + 1 == LEVELS then " " + u else u);
    }
  }

  /** Two operands and their operator, up to a closing parenthesis. */
  lemma {:induction false} BinaryParsed(lv: nat, op: BinOp, l: Node, r: Node, s: string, t: string, rest: string)
    requires lv <= LevelOf(op)
    requires ParseUnary(s) == Got(l, " " + (op.Name() + (" " + t)))
    requires ParseUnary(t) == Got(r, ")" + rest) && t != "" && !IsSpace(t[0])
    ensures ParseExpr(lv, s) == Got(Binary(op, l, r), ")" + rest)
    decreases LEVELS - lv
  {
    if lv < LevelOf(op) {
      BinaryParsed(lv + 1, op, l, r, s, t, rest);
      Lifted(lv, s, Binary(op, l, r), rest);
    } else {
      BinaryHere(lv, op, l, r, s, t, rest);
    }
  }

  /** Before a parenthesis, what one level reads the level above it reads. */
  lemma Lifted(lv: nat, s: string, n: Node, rest: string)
    requires lv < LEVELS && ParseExpr(lv + 1, s) == Got(n, ")" + rest)
    ensures ParseExpr(lv, s) == Got(n, ")" + rest)
  {
    Up(lv, s, n, ")" + rest);
    ClosedHere(lv, n, rest);
  }

  lemma BinaryHere(lv: nat, op: BinOp, l: Node, r: Node, s: string, t: string, rest: string)
    requires lv == LevelOf(op)
    requires ParseUnary(s) == Got(l, " " + (op.Name() + (" " + t)))
    requires ParseUnary(t) == Got(r, ")" + rest) && t != "" && !IsSpace(t[0])
    ensures ParseExpr(lv, s) == Got(Binary(op, l, r), ")" + rest)
  {
    var u := op.Name() + (" " + t);
    assert u[0] == op.Name()[0];
    forall k | lv < k < LEVELS ensures FirstOp(Level(k), u) == Bad { OperatorPrinted(k, op, t); }
    OperandBefore(lv + 1, l, s, u);
    OneSpace(u);
    NoSpace(u);
    var v := if lv + 1 == LEVELS then " " + u else u;
    Up(lv, s, l, v);
    AtOperator(lv, op, l, r, v, t, rest);
  }

  lemma ClosedHere(lv: nat, n: Node, rest: string)
    requires lv < LEVELS
    ensures ParseMore(lv, n, ")" + rest) == Got(n, ")" + rest)
  {
    NoSpace(")" + rest);
    NoOperator(lv, ")" + rest);
    MoreEnds(lv, n, ")" + rest);
  }

  lemma AtOperator(lv: nat, op: BinOp, l: Node, r: Node, v: string, t: string, rest: string)
    requires lv == LevelOf(op) && Skip(v) == op.Name() + (" " + t)
    requires ParseUnary(t) == Got(r, ")" + rest) && t != "" && !IsSpace(t[0])
    ensures ParseMore(lv, l, v) == Got(Binary(op, l, r), ")" + rest)
  {
    OperatorTaken(lv, op, t);
    ParenCloses(rest);
    OperandAlone(lv + 1, r, t, ")" + rest);
    MoreGoes(lv, l, v, op, " " + t, r, ")" + rest);
    ClosedHere(lv, Binary(op, l, r), rest);
  }

  lemma OperatorTaken(lv: nat, op: BinOp, t: string)
    requires lv == LevelOf(op) && t != "" && !IsSpace(t[0])
    ensures FirstOp(Level(lv), op.Name() + (" " + t)) == Got(op, " " + t) && Skip(" " + t) == t
  {
    OperatorPrinted(lv, op, t);
    OneSpace(t);
    NoSpace(t);
  }

  lemma ParenCloses(rest: string)
    ensures Closes(")" + rest) && Skip(")" + rest) == ")" + rest
  {
    NoSpace(")" + rest);
  }

  // ---- Printed text, with what follows it ---------------------------------------------

  /** `Render(node)` and then `rest`, token by token. */
  ghost function Ahead(node: Node, show: Value -> string, rest: string): string
    decreases node, 0
  {
    match node
    case Path(root, steps) => root.Name() + (RenderSteps(steps) + rest)
    case Lit(v) => LitText(v, show) + rest
    case Changed(name) => "changed" + ("(" + ("\"" + (name + ("\"" + (")" + rest)))))
    case Exists(x) => "exists" + ("(" + Ahead(x, show, ")" + rest))
    case Not(x) => "not" + (" " + ("(" + Ahead(x, show, ")" + rest)))
    case Neg(x) => "-" + ("(" + Ahead(x, show, ")" + rest))
    case Binary(op, lhs, rhs) =>
      "(" + Ahead(lhs, show, " " + (op.Name() + (" " + Ahead(rhs, show, ")" + rest))))
    case Object(fields) => "{" + (" " + FieldsAhead(fields, show, " " + ("}" + rest)))
    case Array(items) => "[" + ItemsAhead(items, show, "]" + rest)
    case Quantified(how, body) =>
      how.Name() + ("(" + ("anchors" + ("," + (" " + Ahead(body, show, ")" + rest)))))
  }

  ghost function FieldsAhead(fields: seq<Field>, show: Value -> string, rest: string): string
    decreases fields, 0
  {
    if fields == [] then rest
    else fields[0].key + (":" + (" " + Ahead(fields[0].value, show, FieldsAfter(fields[1..], show, rest))))
  }

  ghost function FieldsAfter(fields: seq<Field>, show: Value -> string, rest: string): string
    decreases fields, 1
  {
    if fields == [] then rest else "," + (" " + FieldsAhead(fields, show, rest))
  }

  ghost function ItemsAhead(items: seq<Node>, show: Value -> string, rest: string): string
    decreases items, 0
  {
    if items == [] then rest else Ahead(items[0], show, ItemsAfter(items[1..], show, rest))
  }

  ghost function ItemsAfter(items: seq<Node>, show: Value -> string, rest: string): string
    decreases items, 1
  {
    if items == [] then rest else "," + (" " + ItemsAhead(items, show, rest))
  }

  lemma Chain3(a: string, b: string, c: string, r: string)
    ensures a + b + c + r == a + (b + (c + r))
  {
    Text.Assoc(a + b, c, r);
    Text.Assoc(a, b, c + r);
  }

  lemma Chain4(a: string, b: string, c: string, d: string, r: string)
    ensures a + b + c + d + r == a + (b + (c + (d + r)))
  {
    Text.Assoc(a + b + c, d, r);
    Chain3(a, b, c, d + r);
  }

  lemma Chain5(a: string, b: string, c: string, d: string, e: string, r: string)
    ensures a + b + c + d + e + r == a + (b + (c + (d + (e + r))))
  {
    Text.Assoc(a + b + c + d, e, r);
    Chain4(a, b, c, d, e + r);
  }

  lemma Chain7(a: string, b: string, c: string, d: string, e: string, f: string, g: string, r: string)
    ensures a + b + c + d + e + f + g + r == a + (b + (c + (d + (e + (f + (g + r))))))
  {
    Text.Assoc(a + b + c + d + e + f, g, r);
    Text.Assoc(a + b + c + d + e, f, g + r);
    Chain5(a, b, c, d, e, f + (g + r));
  }

  lemma Chain6(a: string, b: string, c: string, d: string, e: string, f: string, r: string)
    ensures a + b + c + d + e + f + r == a + (b + (c + (d + (e + (f + r)))))
  {
    Text.Assoc(a + b + c + d + e, f, r);
    Chain5(a, b, c, d, e, f + r);
  }

  lemma {:induction false} AheadIsRender(node: Node, show: Value -> string, rest: string)
    ensures Ahead(node, show, rest) == Render(node, show) + rest
    decreases node, 0
  {
    match node
    case Path(root, steps) => Text.Assoc(root.Name(), RenderSteps(steps), rest);
    case Lit(v) =>
    case Changed(name) => Chain6("changed", "(", "\"", name, "\"", ")", rest);
    case Exists(x) =>
      AheadIsRender(x, show, ")" + rest);
      Chain4("exists", "(", Render(x, show), ")", rest);
    case Not(x) =>
      AheadIsRender(x, show, ")" + rest);
      Chain5("not", " ", "(", Render(x, show), ")", rest);
    case Neg(x) =>
      AheadIsRender(x, show, ")" + rest);
      Chain4("-", "(", Render(x, show), ")", rest);
    case Binary(op, lhs, rhs) =>
      AheadIsRender(rhs, show, ")" + rest);
      AheadIsRender(lhs, show, " " + (op.Name() + (" " + Ahead(rhs, show, ")" + rest))));
      Chain7("(", Render(lhs, show), " ", op.Name(), " ", Render(rhs, show), ")", rest);
    case Object(fields) =>
      FieldsAheadIsRender(fields, show, " " + ("}" + rest));
      Chain5("{", " ", RenderFields(fields, show), " ", "}", rest);
    case Array(items) =>
      ItemsAheadIsRender(items, show, "]" + rest);
      Chain3("[", RenderItems(items, show), "]", rest);
    case Quantified(how, body) =>
      AheadIsRender(body, show, ")" + rest);
      Chain7(how.Name(), "(", "anchors", ",", " ", Render(body, show), ")", rest);
  }

  lemma {:induction false} FieldsAheadIsRender(fields: seq<Field>, show: Value -> string, rest: string)
    ensures FieldsAhead(fields, show, rest) == RenderFields(fields, show) + rest
    decreases fields, 0
  {
    if fields == [] {
      assert RenderFields(fields, show) + rest == rest;
    } else {
      var f, more := fields[0], fields[1..];
      var after := FieldsAfter(more, show, rest);
      AheadIsRender(f.value, show, after);
      Chain4(f.key, ":", " ", Render(f.value, show), after);
      if |fields| > 1 {
        FieldsAheadIsRender(more, show, rest);
        Chain4(RenderField(f, show), ",", " ", RenderFields(more, show), rest);
      }
    }
  }

  lemma {:induction false} ItemsAheadIsRender(items: seq<Node>, show: Value -> string, rest: string)
    ensures ItemsAhead(items, show, rest) == RenderItems(items, show) + rest
    decreases items, 0
  {
    if items == [] {
      assert RenderItems(items, show) + rest == rest;
    } else {
      var more := items[1..];
      AheadIsRender(items[0], show, ItemsAfter(more, show, rest));
      if |items| > 1 {
        ItemsAheadIsRender(more, show, rest);
        Chain4(Render(items[0], show), ",", " ", RenderItems(more, show), rest);
      }
    }
  }

  // ---- The round trip -----------------------------------------------------------------

  lemma StartsPlainly(node: Node, show: Value -> string, rest: string)
    requires Printable(node)
    ensures var s := Ahead(node, show, rest); s != "" && !IsSpace(s[0]) && s[0] != ']'
  {
  }

  lemma {:induction false} UnaryPrinted(node: Node, show: Value -> string, rest: string)
    requires Printable(node) && Stops(rest)
    ensures ParseUnary(Ahead(node, show, rest)) == Got(node, rest)
    decreases node, 5
  {
    match node
    case Path(root, steps) => PathPrinted(root, steps, rest);
    case Lit(v) => LitPrinted(v, show, rest);
    case Changed(name) => ChangedPrinted(name, rest);
    case Exists(x) =>
      EnclosedPrinted(x, show, rest);
      ExistsParsed(x, Ahead(x, show, ")" + rest), rest);
    case Not(x) =>
      EnclosedPrinted(x, show, rest);
      NotParsed(x, Ahead(x, show, ")" + rest), rest);
    case Neg(x) =>
      EnclosedPrinted(x, show, rest);
      NegParsed(x, Ahead(x, show, ")" + rest), rest);
    case Binary(op, lhs, rhs) =>
      var t := Ahead(rhs, show, ")" + rest);
      var u := Ahead(lhs, show, " " + (op.Name() + (" " + t)));
      UnaryPrinted(lhs, show, " " + (op.Name() + (" " + t)));
      UnaryPrinted(rhs, show, ")" + rest);
      StartsPlainly(rhs, show, ")" + rest);
      BinaryParsed(0, op, lhs, rhs, u, t, rest);
      ParenParsed(node, u, rest);
    case Object(fields) =>
      FieldsPrinted([], fields, show, rest);
      assert [] + fields == fields;
      ObjectParsed(" " + FieldsAhead(fields, show, " " + ("}" + rest)));
    case Array(items) =>
      ItemsPrinted([], items, show, rest);
      assert [] + items == items;
      ArrayParsed(ItemsAhead(items, show, "]" + rest));
    case Quantified(how, body) =>
      EnclosedPrinted(body, show, rest);
      QuantifiedParsed(how, body, Ahead(body, show, ")" + rest), rest);
  }

  lemma EnclosedPrinted(x: Node, show: Value -> string, rest: string)
    requires Printable(x)
    ensures Enclosed(Ahead(x, show, ")" + rest)) == Got(x, rest)
    decreases x, 6
  {
    UnaryPrinted(x, show, ")" + rest);
    NoSpace(")" + rest);
    OperandAlone(0, x, Ahead(x, show, ")" + rest), ")" + rest);
    EnclosedParsed(x, Ahead(x, show, ")" + rest), rest);
  }

  lemma EnclosedParsed(x: Node, t: string, rest: string)
    requires ParseExpr(0, t) == Got(x, ")" + rest)
    ensures Enclosed(t) == Got(x, rest)
  {
    NoSpace(")" + rest);
    EatFront(")", rest);
  }

  lemma ParenParsed(x: Node, t: string, rest: string)
    requires ParseExpr(0, t) == Got(x, ")" + rest)
    ensures ParseUnary("(" + t) == Got(x, rest)
  {
    EnclosedParsed(x, t, rest);
    AtomFront("(" + t);
    NoSpace("(" + t);
    assert ("(" + t)[1..] == t;
  }

  lemma ParenthesisParsed(x: Node, t: string, rest: string)
    requires Enclosed(t) == Got(x, rest)
    ensures ParseUnary("(" + t) == Got(x, rest)
  {
    AtomFront("(" + t);
    NoSpace("(" + t);
    assert ("(" + t)[1..] == t;
  }

  lemma ExistsParsed(x: Node, t: string, rest: string)
    requires Enclosed(t) == Got(x, rest)
    ensures ParseUnary("exists" + ("(" + t)) == Got(Exists(x), rest)
  {
    Words();
    WordFront("exists", "(" + t);
    NoSpace("(" + t);
    EatFront("(", t);
  }

  lemma NotParsed(x: Node, t: string, rest: string)
    requires Enclosed(t) == Got(x, rest)
    ensures ParseUnary("not" + (" " + ("(" + t))) == Got(Not(x), rest)
  {
    ParenthesisParsed(x, t, rest);
    NoSpace("not" + (" " + ("(" + t)));
    EatFront("not", " " + ("(" + t));
    OneSpace("(" + t);
    NoSpace("(" + t);
  }

  lemma NegParsed(x: Node, t: string, rest: string)
    requires Enclosed(t) == Got(x, rest)
    ensures ParseUnary("-" + ("(" + t)) == Got(Neg(x), rest)
  {
    ParenthesisParsed(x, t, rest);
    NoSpace("-" + ("(" + t));
    EatOther("not", "-" + ("(" + t));
    EatFront("-", "(" + t);
    NoSpace("(" + t);
  }

  lemma AnchorsPrinted(t: string)
    ensures AfterAnchors("(" + ("anchors" + ("," + t))) == Some(t)
  {
    var u := "anchors" + ("," + t);
    NoSpace("(" + u);
    EatFront("(", u);
    NoSpace(u);
    RunOver(Ident, "anchors", "," + t);
    NoSpace("," + t);
    EatFront(",", t);
  }

  lemma QuantifiedParsed(how: Quant, body: Node, t: string, rest: string)
    requires Enclosed(t) == Got(body, rest)
    ensures ParseUnary(how.Name() + ("(" + ("anchors" + ("," + (" " + t))))) == Got(Quantified(how, body), rest)
  {
    var u := "(" + ("anchors" + ("," + (" " + t)));
    Words();
    WordFront(how.Name(), u);
    AnchorsPrinted(" " + t);
    SpaceBefore(0, t);
    EnclosedSpace(t);
    assert ParseQuantified(how, u) == Got(Quantified(how, body), rest);
  }

  lemma EnclosedSpace(t: string)
    requires ParseExpr(0, " " + t) == ParseExpr(0, t)
    ensures Enclosed(" " + t) == Enclosed(t)
  {
  }

  /** Space before an expression is skipped at every level. */
  lemma {:induction false} SpaceBefore(lv: nat, t: string)
    requires lv <= LEVELS
    ensures ParseExpr(lv, " " + t) == ParseExpr(lv, t)
    decreases LEVELS - lv
  {
    if lv == LEVELS {
      Top(t);
      Top(" " + t);
      OneSpace(t);
    } else {
      SpaceBefore(lv + 1, t);
    }
  }

  lemma ObjectParsed(t: string)
    ensures ParseUnary("{" + t) == ParseFields([], t)
  {
    AtomFront("{" + t);
    NoSpace("{" + t);
    assert ("{" + t)[1..] == t;
  }

  lemma ArrayParsed(t: string)
    ensures ParseUnary("[" + t) == ParseItems([], t)
  {
    AtomFront("[" + t);
    NoSpace("[" + t);
    assert ("[" + t)[1..] == t;
  }

  /** Text that ends a list, or goes on with it. */
  lemma AfterMember(after: string)
    requires (after != "" && after[0] in {',', ']'}) || (|after| > 1 && after[0] == ' ' && after[1] == '}')
    ensures Closes(after)
    ensures after != "" && after[0] != ' ' ==> Skip(after) == after
  {
    if after[0] == ' ' {
      assert after == " " + after[1..];
      OneSpace(after[1..]);
      NoSpace(after[1..]);
    } else {
      NoSpace(after);
    }
  }

  lemma FieldStep(done: seq<Field>, t: string, key: string, value: Node, after: string, rest: string)
    requires Before(done == [], "}", t) == More(key + (":" + after))
    requires Identifier(key) && !HasKey(done, key)
    requires ParseExpr(0, after) == Got(value, rest)
    ensures ParseFields(done, t) == ParseFields(done + [Field(key, value)], rest)
  {
    RunOver(Ident, key, ":" + after);
    assert (key + (":" + after))[0] == key[0];
    assert ParseKey(key + (":" + after)) == Got(key, ":" + after);
    NoSpace(":" + after);
    EatFront(":", after);
  }

  lemma QuotedFieldStep(done: seq<Field>, t: string, key: string, value: Node, after: string, rest: string)
    requires Before(done == [], "}", t) == More("\"" + (key + ("\"" + (":" + after))))
    requires '"' !in key && !HasKey(done, key)
    requires ParseExpr(0, after) == Got(value, rest)
    ensures ParseFields(done, t) == ParseFields(done + [Field(key, value)], rest)
  {
    var quoted := key + ("\"" + (":" + after));
    StringPrinted(key, ":" + after);
    assert ("\"" + quoted)[1..] == quoted;
    assert ParseKey("\"" + quoted) == Got(key, ":" + after);
    NoSpace(":" + after);
    EatFront(":", after);
  }

  lemma FieldsEnd(done: seq<Field>, t: string, rest: string)
    requires Skip(t) == "}" + rest
    ensures ParseFields(done, t) == Got(Object(done), rest)
  {
    assert !IsAlpha("}"[0]);
    EatFront("}", rest);
  }

  /** A comma and a space before a member; a space or nothing before the first. */
  lemma GapBefore(first: bool, close: string, u: string, t: string)
    requires |close| == 1 && u != "" && !IsSpace(u[0]) && u[0] != close[0] && close[0] != ','
    requires if first then t == " " + u || t == u else t == "," + (" " + u)
    ensures Before(first, close, t) == More(u)
  {
    NoSpace(u);
    OneSpace(u);
    EatOther(close, u);
    if !first {
      NoSpace(t);
      EatOther(close, t);
      EatFront(",", " " + u);
    }
  }

  /** One printed field is read, up to what follows it. */
  lemma FieldPrinted(done: seq<Field>, field: Field, show: Value -> string, after: string)
    requires Identifier(field.key) && !HasKey(done, field.key) && Printable(field.value)
    requires (after != "" && after[0] == ',') || (|after| > 1 && after[0] == ' ' && after[1] == '}')
    ensures var u := field.key + (":" + (" " + Ahead(field.value, show, after)));
            var t := if done == [] then " " + u else "," + (" " + u);
            ParseFields(done, t) == ParseFields(done + [field], Skip(after))
    decreases field.value, 6
  {
    var value := Ahead(field.value, show, after);
    var u := field.key + (":" + (" " + value));
    assert u[0] == field.key[0] && IsIdent(u[0]);
    var t := if done == [] then " " + u else "," + (" " + u);
    GapBefore(done == [], "}", u, t);
    AfterMember(after);
    UnaryPrinted(field.value, show, after);
    OperandAlone(0, field.value, value, after);
    SpaceBefore(0, value);
    FieldStep(done, t, field.key, field.value, " " + value, Skip(after));
  }

  lemma NewKey(done: seq<Field>, todo: seq<Field>)
    requires todo != [] && Printable(Object(done + todo))
    ensures !HasKey(done, todo[0].key) && Identifier(todo[0].key) && Printable(todo[0].value)
  {
    var all := done + todo;
    assert all[|done|] == todo[0];
    forall i | 0 <= i < |done| ensures done[i].key != todo[0].key { assert all[i] == done[i]; }
  }

  lemma {:induction false} FieldsPrinted(done: seq<Field>, todo: seq<Field>, show: Value -> string, rest: string)
    requires Printable(Object(done + todo))
    ensures var end := " " + ("}" + rest);
            var t := if done == [] then " " + FieldsAhead(todo, show, end) else Skip(FieldsAfter(todo, show, end));
            ParseFields(done, t) == Got(Object(done + todo), rest)
    decreases todo, 9
  {
    var end := " " + ("}" + rest);
    OneSpace("}" + rest);
    NoSpace("}" + rest);
    if todo == [] {
      OneSpace(end);
      FieldsEnd(done, if done == [] then " " + end else Skip(end), rest);
      assert done + todo == done;
    } else {
      var after := FieldsAfter(todo[1..], show, end);
      NewKey(done, todo);
      FieldPrinted(done, todo[0], show, after);
      NoSpace("," + (" " + FieldsAhead(todo, show, end)));
      Text.Shift(done, todo);
      FieldsPrinted(done + [todo[0]], todo[1..], show, rest);
    }
  }

  lemma ItemStep(done: seq<Node>, t: string, u: string, item: Node, rest: string)
    requires Before(done == [], "]", t) == More(u) && u != ""
    requires ParseExpr(0, u) == Got(item, rest)
    ensures ParseItems(done, t) == ParseItems(done + [item], rest)
  {
  }

  lemma ItemsEnd(done: seq<Node>, rest: string)
    ensures ParseItems(done, "]" + rest) == Got(Array(done), rest)
  {
    NoSpace("]" + rest);
    EatFront("]", rest);
  }

  /** One printed item is read, up to what follows it. */
  lemma ItemPrinted(done: seq<Node>, item: Node, show: Value -> string, after: string)
    requires Printable(item) && after != "" && after[0] in {',', ']'}
    ensures var u := Ahead(item, show, after);
            var t := if done == [] then u else "," + (" " + u);
            ParseItems(done, t) == ParseItems(done + [item], after)
    decreases item, 6
  {
    var u := Ahead(item, show, after);
    var t := if done == [] then u else "," + (" " + u);
    StartsPlainly(item, show, after);
    GapBefore(done == [], "]", u, t);
    AfterMember(after);
    UnaryPrinted(item, show, after);
    OperandAlone(0, item, u, after);
    ItemStep(done, t, u, item, after);
  }

  lemma {:induction false} ItemsPrinted(done: seq<Node>, todo: seq<Node>, show: Value -> string, rest: string)
    requires Printable(Array(done + todo))
    ensures var t := if done == [] then ItemsAhead(todo, show, "]" + rest) else ItemsAfter(todo, show, "]" + rest);
            ParseItems(done, t) == Got(Array(done + todo), rest)
    decreases todo, 9
  {
    if todo == [] {
      ItemsEnd(done, rest);
      assert done + todo == done;
    } else {
      Text.Shift(done, todo);
      assert Printable(todo[0]) by { assert todo[0] == (done + todo)[|done|]; }
      ItemPrinted(done, todo[0], show, ItemsAfter(todo[1..], show, "]" + rest));
      ItemsPrinted(done + [todo[0]], todo[1..], show, rest);
    }
  }

  /** An operand that is the whole of a text. */
  lemma WholeParsed(node: Node, s: string)
    requires s != "" && !IsSpace(s[0]) && ParseUnary(s) == Got(node, "")
    ensures Grammar.Parse(s) == Some(node)
  {
    NoSpace(s);
    OperandAlone(0, node, s, "");
  }

  /** Parsing the printed form of a printable node gives that node back. */
  lemma RoundTrip(node: Node, show: Value -> string)
    requires Printable(node)
    ensures Grammar.Parse(Render(node, show)) == Some(node)
  {
    var s := Render(node, show);
    AheadIsRender(node, show, "");
    assert s + "" == s;
    StartsPlainly(node, show, "");
    UnaryPrinted(node, show, "");
    WholeParsed(node, s);
  }
}
