/** Watch lists: compiled to an expression's source text, then parsed and
    evaluated over an anchor's state. */
module Delivery {
  import opened Wrappers
  import opened Json
  import opened Ast
  import opened Evaluator
  import opened Grammar
  import opened Printed
  import Text

  /** `(exists(state.v.AXIS) and state.v.AXIS)`, token by token. */
  function AxisText(axis: string): string {
    var at := "state" + (".v" + ("." + axis));
    "(" + ("exists" + "(" + at + ")") + " " + "and" + " " + at + ")"
  }

  function AxisTexts(axes: seq<string>): (r: seq<string>)
    ensures |r| == |axes|
  {
    if axes == [] then [] else [AxisText(axes[0])] + AxisTexts(axes[1..])
  }

  function AxesPredicate(axes: seq<string>): string {
    if axes == [] then "false" else Text.Join(AxisTexts(axes), " or ")
  }

  /** The axes a state has set, if it keeps any. */
  function AxesSet(state: Value): Option<set<string>> {
    match state.Get("v")
    case Some(Obj(axes)) => Some(set k | k in axes && axes[k] == Bool(true))
    case _ => None
  }

  datatype Snag = Unparsed | NotYesOrNo | Nothing | Unsettled(f: Fault)

  /** Whether a watch list hands its memory back, in this state. */
  function Delivers(axes: seq<string>, state: Value): Result<bool, Snag> {
    match Parse(AxesPredicate(axes))
    case None => Err(Unparsed)
    case Some(node) =>
      match Eval(node, Ctx(Null, state, 0, 0, []))
      case Val(Bool(on)) => Ok(on)
      case Val(_) => Err(NotYesOrNo)
      case Absent => Err(Nothing)
      case Faulted(f) => Err(Unsettled(f))
  }

  // ---- What the text parses to -----------------------------------------------------

  function AxisPath(axis: string): Node { Path(State, [Member("v"), Member(axis)]) }

  function AxisNode(axis: string): Node {
    Binary(And, Exists(AxisPath(axis)), AxisPath(axis))
  }

  function OrOnto(lhs: Node, axes: seq<string>): Node
    decreases |axes|
  {
    if axes == [] then lhs else OrOnto(Binary(Or, lhs, AxisNode(axes[0])), axes[1..])
  }

  lemma PathText(axis: string, show: Value -> string)
    ensures Render(AxisPath(axis), show) == "state" + (".v" + ("." + axis))
  {
    var steps := [Member("v"), Member(axis)];
    assert steps[1..] == [Member(axis)] && steps[1..][1..] == [];
    assert "." + axis + "" == "." + axis;
    assert RenderStep(Member("v")) == ".v";
    assert [Member(axis)][1..] == [];
    assert RenderSteps([Member(axis)]) == "." + axis;
    assert RenderSteps(steps) == RenderStep(steps[0]) + RenderSteps(steps[1..]);
  }

  lemma AxisTextIsPrinted(axis: string, show: Value -> string)
    ensures AxisText(axis) == Render(AxisNode(axis), show)
  {
    PathText(axis, show);
  }

  lemma AxisParsed(axis: string, rest: string)
    requires Identifier(axis) && Stops(rest)
    ensures ParseUnary(AxisText(axis) + rest) == Got(AxisNode(axis), rest)
    ensures var s := AxisText(axis) + rest; s != "" && !IsSpace(s[0])
  {
    var show := (v: Value) => "";
    AxisTextIsPrinted(axis, show);
    AheadIsRender(AxisNode(axis), show, rest);
    PathIsPrintable(axis);
    UnaryPrinted(AxisNode(axis), show, rest);
    StartsPlainly(AxisNode(axis), show, rest);
  }

  lemma PathIsPrintable(axis: string)
    requires Identifier(axis)
    ensures Printable(AxisNode(axis))
  {
    assert IsIdent("v"[0]);
  }

  /** The text from one disjunct's `or` on. */
  ghost function OrRest(axes: seq<string>): string
    decreases |axes|, 0
  {
    if axes == [] then "" else "or" + (" " + (AxisText(axes[0]) + OrTail(axes[1..])))
  }

  /** The same with the space before it. */
  ghost function OrTail(axes: seq<string>): string
    decreases |axes|, 1
  {
    if axes == [] then "" else " " + OrRest(axes)
  }

  lemma {:induction false} JoinIsTail(axes: seq<string>)
    requires axes != []
    ensures AxesPredicate(axes) == AxisText(axes[0]) + OrTail(axes[1..])
  {
    if |axes| == 1 {
      assert AxisText(axes[0]) + OrTail(axes[1..]) == AxisText(axes[0]);
    } else {
      var texts := AxisTexts(axes);
      assert texts[1..] == AxisTexts(axes[1..]);
      JoinIsTail(axes[1..]);
      OrBetween(texts[0], Text.Join(texts[1..], " or "));
    }
  }

  lemma OrBetween(a: string, b: string)
    ensures a + " or " + b == a + (" " + ("or" + (" " + b)))
  {
    assert " or " == " " + ("or" + " ");
    Text.Assoc(a, " or ", b);
    Text.Assoc(" ", "or" + " ", b);
    Text.Assoc("or", " ", b);
  }

  /** One disjunct is read whole, at the level under `or`. */
  lemma DisjunctParsed(axis: string, more: seq<string>)
    requires Identifier(axis)
    ensures ParseExpr(1, AxisText(axis) + OrTail(more)) == Got(AxisNode(axis), OrRest(more))
  {
    var s := AxisText(axis) + OrTail(more);
    AxisParsed(axis, OrTail(more));
    if more == [] {
      OperandAlone(1, AxisNode(axis), s, "");
    } else {
      NoneTighter(AxisText(more[0]) + OrTail(more[1..]));
      OperandBefore(1, AxisNode(axis), s, OrRest(more));
    }
  }

  lemma NoneTighter(t: string)
    ensures forall k :: 1 <= k < LEVELS ==> FirstOp(Level(k), "or" + (" " + t)) == Bad
  {
    forall k | 1 <= k < LEVELS ensures FirstOp(Level(k), "or" + (" " + t)) == Bad { OperatorPrinted(k, Or, t); }
  }

  lemma {:induction false} OrsParsed(lhs: Node, axes: seq<string>)
    requires forall i :: 0 <= i < |axes| ==> Identifier(axes[i])
    ensures ParseMore(0, lhs, OrRest(axes)) == Got(OrOnto(lhs, axes), "")
    decreases |axes|
  {
    if axes == [] {
      NoOperator(0, "");
      MoreEnds(0, lhs, "");
    } else {
      OrParsed(lhs, axes[0], axes[1..]);
      OrsParsed(Binary(Or, lhs, AxisNode(axes[0])), axes[1..]);
    }
  }

  lemma OrParsed(lhs: Node, axis: string, more: seq<string>)
    requires Identifier(axis)
    ensures var t := AxisText(axis) + OrTail(more);
            ParseMore(0, lhs, "or" + (" " + t)) == ParseMore(0, Binary(Or, lhs, AxisNode(axis)), OrRest(more))
  {
    var t := AxisText(axis) + OrTail(more);
    NoSpace("or" + (" " + t));
    OperatorPrinted(0, Or, t);
    AxisFirst(axis, OrTail(more));
    OneSpace(t);
    NoSpace(t);
    DisjunctParsed(axis, more);
    MoreGoes(0, lhs, "or" + (" " + t), Or, " " + t, AxisNode(axis), OrRest(more));
  }

  lemma AxisFirst(axis: string, rest: string)
    ensures var s := AxisText(axis) + rest; s != "" && !IsSpace(s[0])
  {
  }

  lemma AxesParsed(axes: seq<string>)
    requires axes != [] && forall i :: 0 <= i < |axes| ==> Identifier(axes[i])
    ensures Parse(AxesPredicate(axes)) == Some(OrOnto(AxisNode(axes[0]), axes[1..]))
  {
    var s := AxesPredicate(axes);
    var more := axes[1..];
    JoinIsTail(axes);
    AxisFirst(axes[0], OrTail(more));
    NoSpace(s);
    DisjunctParsed(axes[0], more);
    Up(0, s, AxisNode(axes[0]), OrRest(more));
    OrsParsed(AxisNode(axes[0]), more);
  }

  // ---- What it evaluates to -------------------------------------------------------------

  /** In this state the axis is missing, null, or a boolean. */
  predicate Settled(state: Value, axis: string) {
    match state.Get("v")
    case Some(Obj(axes)) => axis in axes ==> axes[axis].Null? || axes[axis].Bool?
    case _ => true
  }

  predicate IsSet(state: Value, axis: string) {
    match AxesSet(state)
    case Some(on) => axis in on
    case None => false
  }

  lemma AxisEvaluated(axis: string, state: Value)
    requires Settled(state, axis)
    ensures Eval(AxisNode(axis), Ctx(Null, state, 0, 0, [])) == Truth(IsSet(state, axis))
  {
    AxisPathEvaluated(axis, state);
  }

  /** The path has a value only where the axis is a boolean. */
  lemma AxisPathEvaluated(axis: string, state: Value)
    requires Settled(state, axis)
    ensures var r := Eval(AxisPath(axis), Ctx(Null, state, 0, 0, []));
            if r.Val? then r == Truth(IsSet(state, axis)) else !IsSet(state, axis)
  {
    var steps := [Member("v"), Member(axis)];
    assert steps[1..] == [Member(axis)] && steps[1..][1..] == [];
    if !state.Null? {
      match Into(state, steps[0], true)
      case Val(v) =>
        assert WalkFrom(state, steps, true) == WalkFrom(v, steps[1..], true);
        if !v.Null? {
          match Into(v, steps[1], true)
          case Val(w) => assert WalkFrom(v, steps[1..], true) == WalkFrom(w, [], true);
          case _ =>
        }
      case _ =>
    }
  }

  lemma {:induction false} OrsEvaluated(lhs: Node, axes: seq<string>, state: Value, b: bool)
    requires Eval(lhs, Ctx(Null, state, 0, 0, [])) == Truth(b)
    requires forall i :: 0 <= i < |axes| ==> Settled(state, axes[i])
    ensures Eval(OrOnto(lhs, axes), Ctx(Null, state, 0, 0, [])) ==
            Truth(b || exists i :: 0 <= i < |axes| && IsSet(state, axes[i]))
    decreases |axes|
  {
    if axes != [] {
      AxisEvaluated(axes[0], state);
      var on := IsSet(state, axes[0]);
      assert Eval(Binary(Or, lhs, AxisNode(axes[0])), Ctx(Null, state, 0, 0, [])) == Truth(b || on);
      OrsEvaluated(Binary(Or, lhs, AxisNode(axes[0])), axes[1..], state, b || on);
      AnySet(axes, state);
    }
  }

  lemma AnySet(axes: seq<string>, state: Value)
    requires axes != []
    ensures (exists i :: 0 <= i < |axes| && IsSet(state, axes[i])) <==>
            IsSet(state, axes[0]) || exists i :: 0 <= i < |axes[1..]| && IsSet(state, axes[1..][i])
  {
    if i :| 1 <= i < |axes| && IsSet(state, axes[i]) { assert axes[1..][i - 1] == axes[i]; }
    if i :| 0 <= i < |axes[1..]| && IsSet(state, axes[1..][i]) { assert axes[i + 1] == axes[1..][i]; }
  }

  lemma NoAxesParsed()
    ensures Parse("false") == Some(Lit(Bool(false)))
  {
    LitPrinted(Bool(false), (v: Value) => "", "");
    assert "false" + "" == "false";
    NoSpace("false");
    OperandAlone(0, Lit(Bool(false)), "false", "");
  }

  /** A watch list answers yes exactly when one of its axes is set. */
  lemma WatchAnswersItsAxes(axes: seq<string>, state: Value)
    requires forall i :: 0 <= i < |axes| ==> Identifier(axes[i]) && Settled(state, axes[i])
    ensures Delivers(axes, state) == Ok(exists i :: 0 <= i < |axes| && IsSet(state, axes[i]))
  {
    if axes == [] {
      NoAxesParsed();
      DeliversBy(axes, state, Lit(Bool(false)), false);
    } else {
      AxesParsed(axes);
      AxesEvaluated(axes, state);
      DeliversBy(axes, state, OrOnto(AxisNode(axes[0]), axes[1..]),
                 exists i :: 0 <= i < |axes| && IsSet(state, axes[i]));
    }
  }

  lemma AxesEvaluated(axes: seq<string>, state: Value)
    requires axes != [] && forall i :: 0 <= i < |axes| ==> Settled(state, axes[i])
    ensures Eval(OrOnto(AxisNode(axes[0]), axes[1..]), Ctx(Null, state, 0, 0, [])) ==
            Truth(exists i :: 0 <= i < |axes| && IsSet(state, axes[i]))
  {
    AxisEvaluated(axes[0], state);
    OrsEvaluated(AxisNode(axes[0]), axes[1..], state, IsSet(state, axes[0]));
    AnySet(axes, state);
  }

  lemma DeliversBy(axes: seq<string>, state: Value, node: Node, on: bool)
    requires Parse(AxesPredicate(axes)) == Some(node) && Eval(node, Ctx(Null, state, 0, 0, [])) == Truth(on)
    ensures Delivers(axes, state) == Ok(on)
  {
  }
}
