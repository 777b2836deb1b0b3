/** How operators written in a row group, said apart from the parser. */
module Precedence {
  import opened Wrappers
  import opened Json
  import opened Ast
  import opened Grammar
  import opened Printed
  import Text

  /** The place of the last of the loosest operators. */
  function LastLoosest(ops: seq<BinOp>): (i: nat)
    requires ops != []
    ensures i < |ops|
    ensures forall j :: 0 <= j < i ==> LevelOf(ops[i]) <= LevelOf(ops[j])
    ensures forall j :: i < j < |ops| ==> LevelOf(ops[i]) < LevelOf(ops[j])
  {
    if |ops| == 1 then 0
    else
      var i := LastLoosest(ops[1..]);
      if LevelOf(ops[0]) < LevelOf(ops[1..][i]) then 0 else i + 1
  }

  /** Operands in a row, grouped: the last of the loosest operators is outermost. */
  function Grouped(xs: seq<Node>, ops: seq<BinOp>): Node
    requires |xs| == |ops| + 1
    decreases |ops|
  {
    if ops == [] then xs[0]
    else
      var i := LastLoosest(ops);
      Binary(ops[i], Grouped(xs[..i + 1], ops[..i]), Grouped(xs[i + 1..], ops[i + 1..]))
  }

  /** Operands and the operators between them, with no parentheses around any pair. */
  function RowText(xs: seq<Node>, ops: seq<BinOp>, show: Value -> string): string
    requires |xs| == |ops| + 1
    decreases |ops|
  {
    if ops == [] then Render(xs[0], show)
    else Render(xs[0], show) + " " + ops[0].Name() + " " + RowText(xs[1..], ops[1..], show)
  }

  /** That text and then `rest`, token by token. */
  ghost function RowAhead(xs: seq<Node>, ops: seq<BinOp>, show: Value -> string, rest: string): string
    requires |xs| == |ops| + 1
    decreases |ops|
  {
    Ahead(xs[0], show, if ops == [] then rest else Then(ops[0], RowAhead(xs[1..], ops[1..], show, rest)))
  }

  ghost function Then(op: BinOp, t: string): string { " " + (op.Name() + (" " + t)) }

  lemma {:induction false} RowIsText(xs: seq<Node>, ops: seq<BinOp>, show: Value -> string, rest: string)
    requires |xs| == |ops| + 1
    ensures RowAhead(xs, ops, show, rest) == RowText(xs, ops, show) + rest
    decreases |ops|
  {
    if ops == [] {
      AheadIsRender(xs[0], show, rest);
    } else {
      var more := RowText(xs[1..], ops[1..], show);
      RowIsText(xs[1..], ops[1..], show, rest);
      AheadIsRender(xs[0], show, Then(ops[0], more + rest));
      Chain4(Render(xs[0], show), " ", ops[0].Name(), " ", more + rest);
      Text.Assoc(Render(xs[0], show) + " " + ops[0].Name() + " ", more, rest);
    }
  }

  /** A row up to one of its operators, and the row after it. */
  lemma {:induction false} RowSplits(ls: seq<Node>, lops: seq<BinOp>, op: BinOp, rs: seq<Node>, rops: seq<BinOp>,
                                     show: Value -> string, rest: string)
    requires |ls| == |lops| + 1 && |rs| == |rops| + 1
    ensures RowAhead(ls + rs, lops + ([op] + rops), show, rest) ==
            RowAhead(ls, lops, show, Then(op, RowAhead(rs, rops, show, rest)))
    decreases |lops|
  {
    RowGoesOn(ls + rs, lops + ([op] + rops), show, rest);
    TailOf(ls, rs);
    if lops == [] {
      assert ls[1..] + rs == rs && lops + ([op] + rops) == [op] + rops;
      TailOf([op], rops);
      assert [op][1..] + rops == rops;
    } else {
      TailOf(lops, [op] + rops);
      RowSplits(ls[1..], lops[1..], op, rs, rops, show, rest);
      RowGoesOn(ls, lops, show, Then(op, RowAhead(rs, rops, show, rest)));
    }
  }

  lemma TailOf<T>(a: seq<T>, b: seq<T>)
    requires a != []
    ensures (a + b)[0] == a[0] && (a + b)[1..] == a[1..] + b
  {
  }

  lemma Around<T>(s: seq<T>, i: nat)
    requires i < |s|
    ensures s == s[..i] + ([s[i]] + s[i + 1..]) && s == s[..i + 1] + s[i + 1..]
  {
  }

  lemma RowGoesOn(xs: seq<Node>, ops: seq<BinOp>, show: Value -> string, rest: string)
    requires |xs| == |ops| + 1 && ops != []
    ensures RowAhead(xs, ops, show, rest) == Ahead(xs[0], show, Then(ops[0], RowAhead(xs[1..], ops[1..], show, rest)))
  {
  }

  ghost predicate Operands(xs: seq<Node>) { forall i :: 0 <= i < |xs| ==> Printable(xs[i]) }

  /** No operator tighter than the level begins what follows. */
  ghost predicate NoneTighter(lv: nat, rest: string) {
    Stops(rest) && forall k :: lv < k < LEVELS ==> FirstOp(Level(k), Skip(rest)) == Bad
  }

  lemma MoreSkips(lv: nat, n: Node, rest: string)
    requires lv < LEVELS
    ensures ParseMore(lv, n, Skip(rest)) == ParseMore(lv, n, rest)
  {
    SkippedTwice(rest);
  }

  lemma {:induction false} SkippedTwice(s: string)
    ensures Skip(Skip(s)) == Skip(s)
  {
    if s != "" && IsSpace(s[0]) { SkippedTwice(s[1..]); }
  }

  /** What a level makes of a row that it reads from the front of `s`. */
  ghost predicate Reads(lv: nat, s: string, n: Node, rest: string)
    requires lv <= LEVELS
  {
    ParseExpr(lv, s) == if lv == LEVELS then Got(n, rest) else ParseMore(lv, n, rest)
  }

  lemma Ends(lv: nat, s: string, n: Node, rest: string)
    requires 0 < lv <= LEVELS && Reads(lv, s, n, rest) && NoneTighter(lv - 1, rest)
    ensures ParseExpr(lv, s) == Got(n, if lv == LEVELS then rest else Skip(rest))
  {
    if lv < LEVELS { MoreEnds(lv, n, rest); }
  }

  /** What a tighter level reads whole, the level goes on from. */
  lemma Climbs(lv: nat, s: string, n: Node, rest: string)
    requires lv < LEVELS && Reads(lv + 1, s, n, rest) && NoneTighter(lv, rest)
    ensures Reads(lv, s, n, rest)
  {
    Ends(lv + 1, s, n, rest);
    Up(lv, s, n, if lv + 1 == LEVELS then rest else Skip(rest));
    MoreSkips(lv, n, rest);
  }

  lemma ThenStops(op: BinOp, t: string)
    ensures NoneTighter(LevelOf(op), Then(op, t)) && Skip(Then(op, t)) == op.Name() + (" " + t)
  {
    var u := op.Name() + (" " + t);
    assert u[0] == op.Name()[0];
    OneSpace(u);
    NoSpace(u);
    forall k | LevelOf(op) < k < LEVELS ensures FirstOp(Level(k), u) == Bad { OperatorPrinted(k, op, t); }
  }

  /** Past an operator of the level comes one row of a tighter level. */
  lemma Grows(op: BinOp, l: Node, t: string, r: Node, rest: string)
    requires t != "" && !IsSpace(t[0])
    requires Reads(LevelOf(op) + 1, t, r, rest) && NoneTighter(LevelOf(op), rest)
    ensures ParseMore(LevelOf(op), l, Then(op, t)) == ParseMore(LevelOf(op), Binary(op, l, r), rest)
  {
    var lv := LevelOf(op);
    ThenStops(op, t);
    OperatorPrinted(lv, op, t);
    OneSpace(t);
    NoSpace(t);
    Ends(lv + 1, t, r, rest);
    MoreGoes(lv, l, Then(op, t), op, " " + t, r, if lv + 1 == LEVELS then rest else Skip(rest));
    MoreSkips(lv, Binary(op, l, r), rest);
  }

  lemma RowStarts(xs: seq<Node>, ops: seq<BinOp>, show: Value -> string, rest: string)
    requires |xs| == |ops| + 1 && Operands(xs)
    ensures var s := RowAhead(xs, ops, show, rest); s != "" && !IsSpace(s[0])
  {
    StartsPlainly(xs[0], show, if ops == [] then rest else Then(ops[0], RowAhead(xs[1..], ops[1..], show, rest)));
  }

  lemma Joins(lv: nat, s: string, l: Node, op: BinOp, t: string, r: Node, rest: string)
    requires lv == LevelOf(op) && t != "" && !IsSpace(t[0])
    requires Reads(lv, s, l, Then(op, t)) && Reads(lv + 1, t, r, rest) && NoneTighter(lv, rest)
    ensures Reads(lv, s, Binary(op, l, r), rest)
  {
    Grows(op, l, t, r, rest);
  }

  ghost predicate NoneLooser(lv: nat, ops: seq<BinOp>) { forall i :: 0 <= i < |ops| ==> lv <= LevelOf(ops[i]) }

  lemma LevelsEnd(lv: nat, ops: seq<BinOp>)
    requires NoneLooser(lv, ops)
    ensures ops == [] || lv < LEVELS
  {
    assert ops == [] || lv <= LevelOf(ops[0]);
  }

  /** The parts on either side of the outermost operator. */
  lemma Sides(lv: nat, xs: seq<Node>, ops: seq<BinOp>)
    requires |xs| == |ops| + 1 && ops != [] && NoneLooser(lv, ops) && lv == LevelOf(ops[LastLoosest(ops)])
    ensures var i := LastLoosest(ops);
            && NoneLooser(lv, ops[..i]) && NoneLooser(lv + 1, ops[i + 1..])
            && (Operands(xs) ==> Operands(xs[..i + 1]) && Operands(xs[i + 1..]))
  {
  }

  /** A level reads a row of its own and tighter operators as it is grouped. */
  lemma {:induction false} RowParsed(lv: nat, xs: seq<Node>, ops: seq<BinOp>, show: Value -> string, rest: string)
    requires lv <= LEVELS && |xs| == |ops| + 1 && Operands(xs) && NoneTighter(lv, rest) && NoneLooser(lv, ops)
    ensures Reads(lv, RowAhead(xs, ops, show, rest), Grouped(xs, ops), rest)
    decreases |ops|, LEVELS - lv
  {
    if lv == LEVELS {
      LevelsEnd(lv, ops);
      Top(RowAhead(xs, ops, show, rest));
      UnaryPrinted(xs[0], show, rest);
    } else if ops == [] || lv < LevelOf(ops[LastLoosest(ops)]) {
      RowParsed(lv + 1, xs, ops, show, rest);
      Climbs(lv, RowAhead(xs, ops, show, rest), Grouped(xs, ops), rest);
    } else {
      RowsParsed(lv, xs, ops, show, rest);
    }
  }

  lemma {:induction false} RowsParsed(lv: nat, xs: seq<Node>, ops: seq<BinOp>, show: Value -> string, rest: string)
    requires lv < LEVELS && |xs| == |ops| + 1 && Operands(xs) && NoneTighter(lv, rest) && NoneLooser(lv, ops)
    requires ops != [] && lv == LevelOf(ops[LastLoosest(ops)])
    ensures Reads(lv, RowAhead(xs, ops, show, rest), Grouped(xs, ops), rest)
    decreases |ops|, 0
  {
    var i := LastLoosest(ops);
    var t := RowAhead(xs[i + 1..], ops[i + 1..], show, rest);
    Sides(lv, xs, ops);
    ThenStops(ops[i], t);
    RowParsed(lv, xs[..i + 1], ops[..i], show, Then(ops[i], t));
    RowParsed(lv + 1, xs[i + 1..], ops[i + 1..], show, rest);
    Around(xs, i);
    Around(ops, i);
    RowSplits(xs[..i + 1], ops[..i], ops[i], xs[i + 1..], ops[i + 1..], show, rest);
    RowStarts(xs[i + 1..], ops[i + 1..], show, rest);
    Joins(lv, RowAhead(xs, ops, show, rest), Grouped(xs[..i + 1], ops[..i]), ops[i], t,
      Grouped(xs[i + 1..], ops[i + 1..]), rest);
  }

  /** Printable operands in a row, with any operators between them, parse grouped:
      tighter operators first, and to the left among those of one level. */
  lemma RowsGroup(xs: seq<Node>, ops: seq<BinOp>, show: Value -> string)
    requires |xs| == |ops| + 1 && Operands(xs)
    ensures Grammar.Parse(RowText(xs, ops, show)) == Some(Grouped(xs, ops))
  {
    var s := RowAhead(xs, ops, show, "");
    RowIsText(xs, ops, show, "");
    assert RowText(xs, ops, show) + "" == RowText(xs, ops, show);
    forall k | 0 <= k < LEVELS ensures FirstOp(Level(k), "") == Bad { NoOperator(k, ""); }
    RowParsed(0, xs, ops, show, "");
    RowStarts(xs, ops, show, "");
    NoSpace(s);
    MoreEnds(0, Grouped(xs, ops), "");
  }
}
