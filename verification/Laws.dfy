/** What expressions mean, apart from how they are evaluated. */
module Laws {
  import opened Wrappers
  import opened Json
  import opened Ast
  import opened Evaluator
  import Text

  // ---- Quantifiers, anchor by anchor ---------------------------------------------------

  /** What the body comes to at each anchor. */
  function Outcomes(body: Node, ctx: Ctx): (os: seq<Evaluated>)
    ensures |os| == |ctx.anchors|
    ensures forall i :: 0 <= i < |os| ==> os[i] == Eval(body, ctx.Each(ctx.anchors[i]))
  {
    seq(|ctx.anchors|, i requires 0 <= i < |ctx.anchors| => Eval(body, ctx.Each(ctx.anchors[i])))
  }

  /** An answer no quantifier can count. */
  predicate Spoils(o: Evaluated) { o.Faulted? || (o.Val? && !o.v.Bool?) }

  function Spoiling(o: Evaluated): Fault
    requires Spoils(o)
  {
    if o.Faulted? then o.f else NotComparable
  }

  ghost predicate NoneSpoils(os: seq<Evaluated>) {
    forall i :: 0 <= i < |os| ==> !Spoils(os[i])
  }

  function Holding(os: seq<Evaluated>): set<nat> { set i: nat | i < |os| && os[i] == Truth(true) }

  function Answering(os: seq<Evaluated>): set<nat> { set i: nat | i < |os| && os[i].Val? }

  /** The first outcome that spoils the count, and the fault it makes. */
  ghost predicate FirstSpoiled(os: seq<Evaluated>, i: int, f: Fault) {
    0 <= i < |os| && NoneSpoils(os[..i]) && Spoils(os[i]) && f == Spoiling(os[i])
  }

  /** A tally of outcomes. */
  function TallyOf(os: seq<Evaluated>, held: nat, answered: nat): Tallied {
    if os == [] then Counted(held, answered)
    else if Spoils(os[0]) then Stopped(Spoiling(os[0]))
    else TallyOf(os[1..], if os[0] == Truth(true) then held + 1 else held,
                 if os[0].Val? then answered + 1 else answered)
  }

  lemma {:induction false} TallyIsOfOutcomes(body: Node, ctx: Ctx, k: nat, held: nat, answered: nat)
    requires k <= |ctx.anchors|
    ensures Tally(body, ctx, ctx.anchors[k..], held, answered) == TallyOf(Outcomes(body, ctx)[k..], held, answered)
    decreases |ctx.anchors| - k
  {
    if k < |ctx.anchors| {
      var o := Outcomes(body, ctx)[k];
      TallyStep(body, ctx, k, held, answered, o);
      if !Spoils(o) {
        TallyIsOfOutcomes(body, ctx, k + 1, if o == Truth(true) then held + 1 else held,
                          if o.Val? then answered + 1 else answered);
      }
    }
  }

  lemma TallyStep(body: Node, ctx: Ctx, k: nat, held: nat, answered: nat, o: Evaluated)
    requires k < |ctx.anchors| && o == Eval(body, ctx.Each(ctx.anchors[k]))
    ensures Tally(body, ctx, ctx.anchors[k..], held, answered) ==
            if Spoils(o) then Stopped(Spoiling(o))
            else Tally(body, ctx, ctx.anchors[k + 1..],
                       if o == Truth(true) then held + 1 else held, if o.Val? then answered + 1 else answered)
  {
    assert ctx.anchors[k..][0] == ctx.anchors[k] && ctx.anchors[k..][1..] == ctx.anchors[k + 1..];
  }

  /** A tally counts those that answered and those that held, or stops at the first
      outcome that spoils it. */
  ghost predicate Tallies(os: seq<Evaluated>, t: Tallied) {
    if t.Stopped? then exists i :: FirstSpoiled(os, i, t.f)
    else NoneSpoils(os) && t.held == |Holding(os)| && t.answered == |Answering(os)|
  }

  lemma OneMoreTells(os: seq<Evaluated>, k: nat)
    requires k < |os|
    ensures |Holding(os[..k + 1])| == |Holding(os[..k])| + (if os[k] == Truth(true) then 1 else 0)
    ensures |Answering(os[..k + 1])| == |Answering(os[..k])| + (if os[k].Val? then 1 else 0)
  {
    assert forall i :: 0 <= i < k ==> os[..k + 1][i] == os[..k][i];
    OneMoreIn(Holding(os[..k]), Holding(os[..k + 1]), k, os[k] == Truth(true));
    OneMoreIn(Answering(os[..k]), Answering(os[..k + 1]), k, os[k].Val?);
  }

  lemma OneMoreIn(a: set<nat>, b: set<nat>, k: nat, more: bool)
    requires forall i :: i in a ==> i < k && i in b
    requires forall i :: i in b ==> i in a || i == k
    requires k in b <==> more
    ensures |b| == |a| + (if more then 1 else 0)
  {
    assert b == if more then a + {k} else a;
  }

  lemma TallyOfStep(os: seq<Evaluated>, k: nat, held: nat, answered: nat)
    requires k < |os|
    ensures TallyOf(os[k..], held, answered) ==
            if Spoils(os[k]) then Stopped(Spoiling(os[k]))
            else TallyOf(os[k + 1..], if os[k] == Truth(true) then held + 1 else held,
                         if os[k].Val? then answered + 1 else answered)
  {
    assert os[k..][0] == os[k] && os[k..][1..] == os[k + 1..];
  }

  lemma NoneYet(os: seq<Evaluated>, k: nat)
    requires k < |os| && NoneSpoils(os[..k]) && !Spoils(os[k])
    ensures NoneSpoils(os[..k + 1])
  {
    assert os[..k + 1] == os[..k] + [os[k]];
  }

  lemma {:induction false} TalliedFrom(os: seq<Evaluated>, k: nat)
    requires k <= |os| && NoneSpoils(os[..k])
    ensures Tallies(os, TallyOf(os[k..], |Holding(os[..k])|, |Answering(os[..k])|))
    decreases |os| - k
  {
    if k == |os| {
      assert os[..k] == os && os[k..] == [];
    } else {
      TallyOfStep(os, k, |Holding(os[..k])|, |Answering(os[..k])|);
      if Spoils(os[k]) {
        assert FirstSpoiled(os, k, Spoiling(os[k]));
      } else {
        OneMoreTells(os, k);
        NoneYet(os, k);
        TalliedFrom(os, k + 1);
      }
    }
  }

  /** What a quantifier says of the outcomes that are answers. */
  ghost predicate Quantifies(how: Quant, os: seq<Evaluated>, v: Value) {
    match how
    case Any => v.Bool? && (v.b <==> exists i :: 0 <= i < |os| && os[i] == Truth(true))
    case All => v.Bool? && (v.b <==> forall i :: 0 <= i < |os| ==> os[i].Absent? || os[i] == Truth(true))
    case Count => v == Int(|Holding(os)|)
  }

  /** Any, all and count over the anchors that answer; none answering is an absence,
      and the first answer that spoils the count is the fault. */
  ghost predicate QuantifierMeans(how: Quant, os: seq<Evaluated>, r: Evaluated) {
    if r.Faulted? then exists i :: FirstSpoiled(os, i, r.f)
    else if r.Absent? then os != [] && forall i :: 0 <= i < |os| ==> os[i].Absent?
    else NoneSpoils(os) && Quantifies(how, os, r.v)
  }

  lemma AnswersMean(how: Quant, os: seq<Evaluated>, t: Tallied)
    requires Tallies(os, t)
    ensures QuantifierMeans(how, os, Answer(how, t, |os|))
  {
    if t.Counted? { SizesTell(os); }
  }

  /** A quantified expression means what its body comes to at the anchors. */
  lemma QuantifiersMean(how: Quant, body: Node, ctx: Ctx)
    ensures QuantifierMeans(how, Outcomes(body, ctx), Eval(Quantified(how, body), ctx))
  {
    var os := Outcomes(body, ctx);
    TallyIsOfOutcomes(body, ctx, 0, 0, 0);
    TalliedFrom(os, 0);
    assert ctx.anchors[0..] == ctx.anchors && os[0..] == os && Holding(os[..0]) == {} && Answering(os[..0]) == {};
    AnswersMean(how, os, Tally(body, ctx, ctx.anchors, 0, 0));
  }

  lemma SizesTell(os: seq<Evaluated>)
    requires NoneSpoils(os)
    ensures |Answering(os)| == 0 <==> forall i :: 0 <= i < |os| ==> os[i].Absent?
    ensures |Holding(os)| > 0 <==> exists i :: 0 <= i < |os| && os[i] == Truth(true)
    ensures |Holding(os)| == |Answering(os)| <==> forall i :: 0 <= i < |os| ==> os[i].Absent? || os[i] == Truth(true)
  {
    var held, answered := Holding(os), Answering(os);
    assert held <= answered;
    if |answered| == 0 {
      forall i | 0 <= i < |os| ensures os[i].Absent? { assert i !in answered; }
    } else {
      var i :| i in answered;
    }
    if |held| > 0 { var i :| i in held; }
    if i :| 0 <= i < |os| && os[i] == Truth(true) { assert i in held; }
    if |held| == |answered| {
      SameSizeSame(held, answered);
      forall i | 0 <= i < |os| ensures os[i].Absent? || os[i] == Truth(true) { assert i in answered ==> i in held; }
    }
    if forall i :: 0 <= i < |os| ==> os[i].Absent? || os[i] == Truth(true) { assert held == answered; }
  }

  lemma SameSizeSame(a: set<nat>, b: set<nat>)
    requires a <= b && |a| == |b|
    ensures a == b
  {
    assert |b - a| == |b| - |a|;
  }

  // ---- Negation -----------------------------------------------------------------------------

  /** Not both is either not, absences and faults included. */
  lemma DeMorgan(a: Node, b: Node, ctx: Ctx)
    ensures Eval(Not(Binary(And, a, b)), ctx) == Eval(Binary(Or, Not(a), Not(b)), ctx)
    ensures Eval(Not(Binary(Or, a, b)), ctx) == Eval(Binary(And, Not(a), Not(b)), ctx)
  {
    var left, right := Eval(a, ctx), Eval(b, ctx);
    assert Eval(Not(a), ctx) == Negated(left) && Eval(Not(b), ctx) == Negated(right);
  }

  /** Negation undoes itself except on what is neither true, false, absent nor a fault. */
  lemma TwiceNegated(a: Node, ctx: Ctx)
    ensures Eval(Not(Not(a)), ctx) == Eval(a, ctx) <==> !(Eval(a, ctx).Val? && !Eval(a, ctx).v.Bool?)
  {
    assert Eval(Not(a), ctx) == Negated(Eval(a, ctx));
  }

  /** The tally of a negated body holds where the body was answered and did not hold. */
  lemma {:induction false} TallyNegated(body: Node, ctx: Ctx, states: seq<Value>, held: nat, answered: nat)
    requires held <= answered
    ensures match Tally(body, ctx, states, held, answered)
            case Stopped(f) => Tally(Not(body), ctx, states, answered - held, answered) == Stopped(f)
            case Counted(h, n) =>
              h <= n && Tally(Not(body), ctx, states, answered - held, answered) == Counted(n - h, n)
    decreases |states|
  {
    if states != [] {
      var o := Eval(body, ctx.Each(states[0]));
      assert Eval(Not(body), ctx.Each(states[0])) == Negated(o);
      if o.Val? && o.v.Bool? {
        TallyNegated(body, ctx, states[1..], if o.v.b then held + 1 else held, answered + 1);
      } else if o.Absent? {
        TallyNegated(body, ctx, states[1..], held, answered);
      }
    }
  }

  /** Not all is any not, and not any is all not. */
  lemma QuantifierDuality(body: Node, ctx: Ctx)
    ensures Eval(Not(Quantified(All, body)), ctx) == Eval(Quantified(Any, Not(body)), ctx)
    ensures Eval(Not(Quantified(Any, body)), ctx) == Eval(Quantified(All, Not(body)), ctx)
  {
    TallyNegated(body, ctx, ctx.anchors, 0, 0);
    assert Eval(Not(Quantified(All, body)), ctx) == Negated(Eval(Quantified(All, body), ctx));
    assert Eval(Not(Quantified(Any, body)), ctx) == Negated(Eval(Quantified(Any, body), ctx));
  }

  // ---- Comparison ------------------------------------------------------------------------------

  /** Where two values compare, exactly one of less, greater and neither holds, and
      the other comparisons follow from it. */
  lemma ComparisonsAgree(a: Node, b: Node, ctx: Ctx)
    requires Eval(a, ctx).Val? && Eval(b, ctx).Val? && Eval(Binary(Lt, a, b), ctx).Val?
    ensures Eval(Binary(Gt, b, a), ctx) == Eval(Binary(Lt, a, b), ctx)
    ensures Eval(Binary(Ge, a, b), ctx) == Eval(Not(Binary(Lt, a, b)), ctx)
    ensures Eval(Binary(Le, a, b), ctx) == Eval(Not(Binary(Gt, a, b)), ctx)
    ensures !(Eval(Binary(Lt, a, b), ctx) == Truth(true) && Eval(Binary(Gt, a, b), ctx) == Truth(true))
    ensures Eval(Binary(Eq, a, b), ctx) == Truth(true) ==>
              Eval(Binary(Le, a, b), ctx) == Truth(true) && Eval(Binary(Ge, a, b), ctx) == Truth(true)
  {
    var x, y := Eval(a, ctx).v, Eval(b, ctx).v;
    OrderMirrors(x, y);
    assert Eval(Not(Binary(Lt, a, b)), ctx) == Negated(Eval(Binary(Lt, a, b), ctx));
    assert Eval(Not(Binary(Gt, a, b)), ctx) == Negated(Eval(Binary(Gt, a, b), ctx));
  }

  lemma OrderMirrors(x: Value, y: Value)
    ensures Order(y, x) == match Order(x, y)
                           case Some(Lesser) => Some(Greater)
                           case Some(Greater) => Some(Lesser)
                           case other => other
  {
    if x.Str? && y.Str? {
      Text.LessTotal(x.s, y.s);
      if Text.Less(x.s, y.s) { Text.LessAsymmetric(x.s, y.s); }
      if Text.Less(y.s, x.s) { Text.LessAsymmetric(y.s, x.s); }
    }
  }

  /** Neither less nor greater is not yet equal: a whole number and a fraction of the
      same size compare alike and are different values. */
  lemma AlikeIsNotEqual(n: int, ctx: Ctx)
    ensures var a, b := Lit(Int(n)), Lit(Float(n as real));
            && Eval(Binary(Le, a, b), ctx) == Truth(true) && Eval(Binary(Ge, a, b), ctx) == Truth(true)
            && Eval(Binary(Eq, a, b), ctx) == Truth(false)
  {
  }
}
