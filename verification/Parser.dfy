/** The parser as it runs: one cursor over the characters, moved in place. */
module Cursor {
  import opened Wrappers
  import opened Json
  import opened Ast
  import opened Grammar
  import Text
  import Evaluator

  datatype SyntaxError = SyntaxError

  method ParseSource(source: string) returns (r: Result<Node, SyntaxError>)
    ensures r == match Grammar.Parse(source) case Some(n) => Ok(n) case None => Err(SyntaxError)
  {
    var p := new Parser(source);
    p.SkipSpace();
    if p.at >= |p.chars| { return Err(SyntaxError); }
    var node := p.Expr(0);
    if node.Err? { return Err(SyntaxError); }
    p.SkipSpace();
    r := if p.at < |p.chars| then Err(SyntaxError) else node;
  }

  class Parser {
    const chars: string
    var at: nat

    constructor (source: string)
      ensures chars == source && at == 0 && Valid()
    {
      chars := source;
      at := 0;
    }

    ghost predicate Valid()
      reads this
    {
      at <= |chars|
    }

    /** The text not yet read. */
    ghost function Rest(): string
      reads this
      requires Valid()
    {
      chars[at..]
    }

    /** The result `r` and the cursor are what `p` says. */
    ghost predicate Did<T(!new)>(p: Parsed<T>, r: Result<T, SyntaxError>)
      reads this
    {
      && Valid()
      && match p
         case Got(value, rest) => r == Ok(value) && Rest() == rest
         case Bad => r.Err?
    }

    method Advance()
      requires Valid() && at < |chars|
      modifies this
      ensures Valid() && Rest() == old(Rest())[1..]
    {
      at := at + 1;
    }

    /** Moves past the characters of one class and returns them. */
    method TakeWhile(of: Class) returns (taken: string)
      requires Valid()
      modifies this
      ensures Valid()
      ensures taken == Front(of, old(Rest())) && Rest() == Back(of, old(Rest()))
    {
      taken := "";
      while at < |chars| && of.Has(chars[at])
        invariant Valid() && Back(of, old(Rest())) == Back(of, Rest())
        invariant Front(of, old(Rest())) == taken + Front(of, Rest())
        decreases |chars| - at
      {
        Text.Assoc(taken, [chars[at]], Front(of, Rest()[1..]));
        taken := taken + [chars[at]];
        Advance();
      }
    }

    method SkipSpace()
      requires Valid()
      modifies this
      ensures Valid() && Rest() == Skip(old(Rest()))
    {
      while at < |chars| && IsSpace(chars[at])
        invariant Valid() && Skip(Rest()) == Skip(old(Rest()))
        decreases |chars| - at
      {
        Advance();
      }
    }

    method Token(token: string) returns (found: bool)
      requires Valid()
      modifies this
      ensures Valid() && found == Eat(token, old(Rest())).Some?
      ensures Rest() == if found then Eat(token, old(Rest())).value else old(Rest())
    {
      var n := |token|;
      if |chars| < at + n { return false; }
      assert chars[at..at + n] == Rest()[..n];
      if chars[at..at + n] != token { return false; }
      if AllAlpha(token) && at + n < |chars| && IsIdent(chars[at + n]) { return false; }
      at := at + n;
      found := true;
    }

    /** Eats `token` after any space; the space is eaten either way. */
    method Expect(token: string) returns (found: bool)
      requires Valid()
      modifies this
      ensures Valid() && found == Eat(token, Skip(old(Rest()))).Some?
      ensures found ==> Rest() == Eat(token, Skip(old(Rest()))).value
    {
      SkipSpace();
      found := Token(token);
    }

    /** Eats the first operator of one level that stands here. */
    method Operator(lv: nat) returns (op: Option<BinOp>)
      requires Valid()
      modifies this
      ensures Valid()
      ensures match FirstOp(Level(lv), old(Rest()))
              case Got(o, rest) => op == Some(o) && Rest() == rest
              case Bad => op == None && Rest() == old(Rest())
    {
      var ops := Level(lv);
      for i := 0 to |ops|
        invariant Valid() && Rest() == old(Rest())
        invariant FirstOp(ops, Rest()) == FirstOp(ops[i..], Rest())
      {
        var found := Token(ops[i].Name());
        if found { return Some(ops[i]); }
      }
      op := None;
    }

    method Expr(lv: nat) returns (r: Result<Node, SyntaxError>)
      requires Valid() && lv <= LEVELS
      modifies this
      ensures Did(ParseExpr(lv, old(Rest())), r)
      decreases |chars| - at, 20 - lv
    {
      if lv == LEVELS {
        r := Unary();
        return;
      }
      r := Expr(lv + 1);
      if r.Err? { return; }
      var lhs := r.value;
      while true
        invariant Valid() && |Rest()| < |old(Rest())|
        invariant ParseExpr(lv, old(Rest())) == ParseMore(lv, lhs, Rest())
        decreases |chars| - at
      {
        SkipSpace();
        var op := Operator(lv);
        if op == None { return Ok(lhs); }
        SkipSpace();
        r := Expr(lv + 1);
        if r.Err? { return; }
        lhs := Binary(op.value, lhs, r.value);
      }
    }

    method Unary() returns (r: Result<Node, SyntaxError>)
      requires Valid()
      modifies this
      ensures Did(ParseUnary(old(Rest())), r)
      decreases |chars| - at, 10
    {
      SkipSpace();
      var found := Token("not");
      if found {
        SkipSpace();
        r := Unary();
        if r.Ok? { r := Ok(Not(r.value)); }
        return;
      }
      found := Token("-");
      if found {
        SkipSpace();
        r := Unary();
        if r.Ok? { r := Ok(Neg(r.value)); }
        return;
      }
      r := Atom();
    }

    method Atom() returns (r: Result<Node, SyntaxError>)
      requires Valid()
      modifies this
      ensures Did(ParseAtom(old(Rest())), r)
      decreases |chars| - at, 9
    {
      SkipSpace();
      if at == |chars| { return Err(SyntaxError); }
      var c := chars[at];
      if c == '(' {
        Advance();
        r := Inside();
      } else if c == '{' {
        r := ObjectLiteral();
      } else if c == '[' {
        r := ArrayLiteral();
      } else if c == '"' {
        var text := StringLiteral();
        r := if text.Ok? then Ok(Lit(Str(text.value))) else Err(SyntaxError);
      } else if Text.IsDigit(c) {
        r := Number();
      } else if IsIdent(c) {
        r := Word();
      } else {
        r := Err(SyntaxError);
      }
    }

    method Inside() returns (r: Result<Node, SyntaxError>)
      requires Valid()
      modifies this
      ensures Did(Enclosed(old(Rest())), r)
      decreases |chars| - at, 25
    {
      r := Expr(0);
      if r.Err? { return; }
      var closed := Expect(")");
      if !closed { r := Err(SyntaxError); }
    }

    /** Moves to the next member of a list, or past its end. */
    method Gap(first: bool, close: string) returns (g: Gap)
      requires Valid() && close != ""
      modifies this
      ensures Valid() && g == Before(first, close, old(Rest()))
      ensures !g.Broken? ==> g.rest == Rest()
    {
      SkipSpace();
      var ended := Token(close);
      if ended { return Ended(chars[at..]); }
      if !first {
        var comma := Token(",");
        if !comma { return Broken; }
        SkipSpace();
        ended := Token(close);
        if ended { return Ended(chars[at..]); }
      }
      g := More(chars[at..]);
    }

    method Key() returns (r: Result<string, SyntaxError>)
      requires Valid()
      modifies this
      ensures Did(ParseKey(old(Rest())), r)
    {
      if at == |chars| { return Err(SyntaxError); }
      if chars[at] == '"' {
        r := StringLiteral();
      } else if IsIdent(chars[at]) {
        var name := TakeWhile(Ident);
        r := Ok(name);
      } else {
        r := Err(SyntaxError);
      }
    }

    method ObjectLiteral() returns (r: Result<Node, SyntaxError>)
      requires Valid() && at < |chars|
      modifies this
      ensures Did(ParseFields([], old(Rest())[1..]), r)
      decreases |chars| - at, 8
    {
      Advance();
      var fields: seq<Field> := [];
      while true
        invariant Valid() && |Rest()| < |old(Rest())|
        invariant ParseFields([], old(Rest())[1..]) == ParseFields(fields, Rest())
        decreases |chars| - at
      {
        var gap := Gap(fields == [], "}");
        if gap.Ended? { return Ok(Object(fields)); }
        if gap.Broken? { return Err(SyntaxError); }
        var name := Key();
        if name.Err? || HasKey(fields, name.value) { return Err(SyntaxError); }
        var colon := Expect(":");
        if !colon { return Err(SyntaxError); }
        r := Expr(0);
        if r.Err? { return; }
        fields := fields + [Field(name.value, r.value)];
      }
    }

    method ArrayLiteral() returns (r: Result<Node, SyntaxError>)
      requires Valid() && at < |chars|
      modifies this
      ensures Did(ParseItems([], old(Rest())[1..]), r)
      decreases |chars| - at, 8
    {
      Advance();
      var items: seq<Node> := [];
      while true
        invariant Valid() && |Rest()| < |old(Rest())|
        invariant ParseItems([], old(Rest())[1..]) == ParseItems(items, Rest())
        decreases |chars| - at
      {
        var gap := Gap(items == [], "]");
        if gap.Ended? { return Ok(Array(items)); }
        if gap.Broken? || at == |chars| { return Err(SyntaxError); }
        r := Expr(0);
        if r.Err? { return; }
        items := items + [r.value];
      }
    }

    method StringLiteral() returns (r: Result<string, SyntaxError>)
      requires Valid() && at < |chars|
      modifies this
      ensures Did(ParseString(old(Rest())[1..]), r)
    {
      Advance();
      var text := TakeWhile(Unquoted);
      if at == |chars| { return Err(SyntaxError); }
      Advance();
      r := Ok(text);
    }

    method Number() returns (r: Result<Node, SyntaxError>)
      requires Valid() && at < |chars| && Text.IsDigit(chars[at])
      modifies this
      ensures Did(ParseNumber(old(Rest())), r)
    {
      var text := TakeWhile(NumberPart);
      var scale := 1.0;
      if at < |chars| && IsUnit(chars[at]) && !(at + 1 < |chars| && IsIdent(chars[at + 1])) {
        scale := Seconds(chars[at]);
        at := at + 1;
      }
      var n := Decimal(text);
      r := if n.Some? then Ok(Lit(Evaluator.JsonNumber(n.value * scale))) else Err(SyntaxError);
    }

    method Word() returns (r: Result<Node, SyntaxError>)
      requires Valid() && at < |chars| && IsIdent(chars[at])
      modifies this
      ensures Did(ParseWord(old(Rest())), r)
      decreases |chars| - at, 5
    {
      var word := TakeWhile(Ident);
      match WordOf(word) {
        case Constant(v) => r := Ok(Lit(v));
        case ChangedCall => r := ChangedName();
        case ExistsCall =>
          var entered := Expect("(");
          if !entered { return Err(SyntaxError); }
          r := Inside();
          if r.Ok? { r := Ok(Exists(r.value)); }
        case Quantifier(how) => r := QuantifierBody(how);
        case Slot(root) => r := Steps(root);
        case Unknown => r := Err(SyntaxError);
      }
    }

    method Direction() returns (r: Result<string, SyntaxError>)
      requires Valid()
      modifies this
      ensures Did(ParseDirection(old(Rest())), r)
    {
      SkipSpace();
      if at == |chars| || chars[at] != '"' { return Err(SyntaxError); }
      r := StringLiteral();
    }

    method ChangedName() returns (r: Result<Node, SyntaxError>)
      requires Valid()
      modifies this
      ensures Did(ParseChanged(old(Rest())), r)
    {
      var entered := Expect("(");
      if !entered { return Err(SyntaxError); }
      var name := Direction();
      if name.Err? { return Err(SyntaxError); }
      var closed := Expect(")");
      r := if closed then Ok(Changed(name.value)) else Err(SyntaxError);
    }

    method Collection() returns (found: bool)
      requires Valid()
      modifies this
      ensures Valid() && found == AfterAnchors(old(Rest())).Some?
      ensures found ==> AfterAnchors(old(Rest())) == Some(Rest()) && |Rest()| < |old(Rest())|
    {
      var entered := Expect("(");
      if !entered { return false; }
      SkipSpace();
      var word := TakeWhile(Ident);
      if word != "anchors" { return false; }
      found := Expect(",");
    }

    method QuantifierBody(how: Quant) returns (r: Result<Node, SyntaxError>)
      requires Valid()
      modifies this
      ensures Did(ParseQuantified(how, old(Rest())), r)
      decreases |chars| - at, 25
    {
      var over := Collection();
      if !over { return Err(SyntaxError); }
      r := Inside();
      if r.Ok? { r := Ok(Quantified(how, r.value)); }
    }

    method Step() returns (r: Result<Step, SyntaxError>)
      requires Valid() && OpensStep(Rest())
      modifies this
      ensures Did(ParseStep(old(Rest())), r)
    {
      var dot := chars[at] == '.';
      Advance();
      if dot {
        var name := TakeWhile(Ident);
        r := if name == "" then Err(SyntaxError) else Ok(Member(name));
      } else {
        var digits := TakeWhile(Digit);
        var closed := Token("]");
        if !closed || digits == "" || Text.NatOf(digits) >= INDEX_LIMIT { return Err(SyntaxError); }
        r := Ok(Index(Text.NatOf(digits)));
      }
    }

    method Steps(root: Root) returns (r: Result<Node, SyntaxError>)
      requires Valid()
      modifies this
      ensures Did(ParseSteps(root, [], old(Rest())), r)
    {
      var steps: seq<Step> := [];
      while at < |chars| && (chars[at] == '.' || chars[at] == '[')
        invariant Valid()
        invariant ParseSteps(root, [], old(Rest())) == ParseSteps(root, steps, Rest())
        decreases |chars| - at
      {
        var step := Step();
        if step.Err? { return Err(SyntaxError); }
        steps := steps + [step.value];
      }
      r := Ok(Path(root, steps));
    }
  }
}
