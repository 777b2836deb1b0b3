/** What an expression reads, found without evaluating it, and why that is all
    it reads. */
module Reads {
  import opened Json
  import opened Ast
  import opened Evaluator
  import Text

  // ---- The analyses ---------------------------------------------------------------

  predicate ReadsState(node: Node) {
    match node
    case Path(root, _) => root == State
    case Lit(_) => false
    case Changed(_) => false
    case Exists(x) => ReadsState(x)
    case Not(x) => ReadsState(x)
    case Neg(x) => ReadsState(x)
    case Binary(_, lhs, rhs) => ReadsState(lhs) || ReadsState(rhs)
    case Object(fields) => exists i :: 0 <= i < |fields| && ReadsState(fields[i].value)
    case Array(items) => exists i :: 0 <= i < |items| && ReadsState(items[i])
    case Quantified(_, _) => false
  }

  predicate ReadsAnchors(node: Node) {
    match node
    case Quantified(_, body) => ReadsState(body)
    case Exists(x) => ReadsAnchors(x)
    case Not(x) => ReadsAnchors(x)
    case Neg(x) => ReadsAnchors(x)
    case Binary(_, lhs, rhs) => ReadsAnchors(lhs) || ReadsAnchors(rhs)
    case Object(fields) => exists i :: 0 <= i < |fields| && ReadsAnchors(fields[i].value)
    case Array(items) => exists i :: 0 <= i < |items| && ReadsAnchors(items[i])
    case Path(_, _) => false
    case Lit(_) => false
    case Changed(_) => false
  }

  /** The names a path starts with, up to its first index. */
  function Leading(steps: seq<Step>): (names: seq<string>)
    ensures |names| <= |steps|
  {
    if steps == [] || steps[0].Index? then [] else [steps[0].name] + Leading(steps[1..])
  }

  function DottedRead(root: Root, steps: seq<Step>): set<string> {
    if root == Obs && Leading(steps) != [] then {Text.Join(Leading(steps), ".")} else {}
  }

  function ReadsObs(node: Node): set<string>
    decreases node, 0
  {
    match node
    case Path(root, steps) => DottedRead(root, steps)
    case Lit(_) => {}
    case Changed(name) => {name}
    case Exists(x) => ReadsObs(x)
    case Not(x) => ReadsObs(x)
    case Neg(x) => ReadsObs(x)
    case Binary(_, lhs, rhs) => ReadsObs(lhs) + ReadsObs(rhs)
    case Object(fields) => FieldReads(fields)
    case Array(items) => ItemReads(items)
    case Quantified(_, body) => ReadsObs(body)
  }

  function FieldReads(fields: seq<Field>): set<string>
    decreases fields, 1
  {
    if fields == [] then {} else ReadsObs(fields[0].value) + FieldReads(fields[1..])
  }

  function ItemReads(items: seq<Node>): set<string>
    decreases items, 1
  {
    if items == [] then {} else ReadsObs(items[0]) + ItemReads(items[1..])
  }

  /** The reads as they are gathered: into one growing set. */
  method CollectObs(node: Node, gathered: set<string>) returns (out: set<string>)
    ensures out == gathered + ReadsObs(node)
  {
    match node {
      case Path(root, steps) => out := gathered + DottedRead(root, steps);
      case Changed(name) => out := gathered + {name};
      case Lit(_) => out := gathered;
      case Exists(x) => out := CollectObs(x, gathered);
      case Not(x) => out := CollectObs(x, gathered);
      case Neg(x) => out := CollectObs(x, gathered);
      case Binary(_, lhs, rhs) =>
        out := CollectObs(lhs, gathered);
        out := CollectObs(rhs, out);
      case Object(fields) =>
        out := gathered;
        for i := 0 to |fields|
          invariant out + FieldReads(fields[i..]) == gathered + FieldReads(fields)
        {
          out := CollectObs(fields[i].value, out);
        }
      case Array(items) =>
        out := gathered;
        for i := 0 to |items|
          invariant out + ItemReads(items[i..]) == gathered + ItemReads(items)
        {
          out := CollectObs(items[i], out);
        }
      case Quantified(_, body) => out := CollectObs(body, gathered);
    }
  }

  // ---- reads_obs is sound ------------------------------------------------------------

  function Members(names: seq<string>): (steps: seq<Step>)
    ensures |steps| == |names|
  {
    seq(|names|, i requires 0 <= i < |names| => Member(names[i]))
  }

  /** What an observation holds along a dotted path. */
  function Along(obs: Value, path: string): Evaluated {
    WalkFrom(obs, Members(Text.Split(path, '.')), false)
  }

  ghost predicate Agree(paths: set<string>, a: Value, b: Value) {
    forall p :: p in paths ==> Along(a, p) == Along(b, p)
  }

  predicate DotFree(name: string) { Text.Free(name, '.') }

  /** No field name on a path holds a dot; true of everything parsed. */
  predicate NamesDotFree(node: Node) {
    match node
    case Path(_, steps) => forall n :: n in Leading(steps) ==> DotFree(n)
    case Lit(_) => true
    case Changed(_) => true
    case Exists(x) => NamesDotFree(x)
    case Not(x) => NamesDotFree(x)
    case Neg(x) => NamesDotFree(x)
    case Binary(_, lhs, rhs) => NamesDotFree(lhs) && NamesDotFree(rhs)
    case Object(fields) => forall i :: 0 <= i < |fields| ==> NamesDotFree(fields[i].value)
    case Array(items) => forall i :: 0 <= i < |items| ==> NamesDotFree(items[i])
    case Quantified(_, body) => NamesDotFree(body)
  }

  /** No read is of the whole of `obs`, and no `changed` name holds a dot. */
  predicate ReadsParts(node: Node) {
    match node
    case Path(root, steps) => root == Obs ==> steps != []
    case Lit(_) => true
    case Changed(name) => DotFree(name)
    case Exists(x) => ReadsParts(x)
    case Not(x) => ReadsParts(x)
    case Neg(x) => ReadsParts(x)
    case Binary(_, lhs, rhs) => ReadsParts(lhs) && ReadsParts(rhs)
    case Object(fields) => forall i :: 0 <= i < |fields| ==> ReadsParts(fields[i].value)
    case Array(items) => forall i :: 0 <= i < |items| ==> ReadsParts(items[i])
    case Quantified(_, body) => ReadsParts(body)
  }

  /** Walking on from where a walk ended. */
  function Onward(reached: Evaluated, steps: seq<Step>, lenient: bool): Evaluated {
    match reached
    case Val(v) => WalkFrom(v, steps, lenient)
    case other => other
  }

  lemma {:induction false} WalkInTwo(cur: Value, a: seq<Step>, b: seq<Step>, lenient: bool)
    ensures WalkFrom(cur, a + b, lenient) == Onward(WalkFrom(cur, a, lenient), b, lenient)
  {
    if a == [] {
      assert a + b == b;
    } else if !cur.Null? {
      match Into(cur, a[0], lenient)
      case Val(next) =>
        assert (a + b)[1..] == a[1..] + b;
        WalkInTwo(next, a[1..], b, lenient);
      case _ =>
    }
  }

  lemma {:induction false} LeadingSplits(steps: seq<Step>)
    ensures steps == Members(Leading(steps)) + steps[|Leading(steps)|..]
  {
    if steps != [] && steps[0].Member? {
      var names := Leading(steps);
      LeadingSplits(steps[1..]);
      assert Members(names) == [Member(names[0])] + Members(names[1..]);
      assert steps == [steps[0]] + steps[1..];
    }
  }

  lemma PathDependsOnReads(steps: seq<Step>, a: Value, b: Value)
    requires steps != [] && forall n :: n in Leading(steps) ==> DotFree(n)
    requires a.Obj? && b.Obj? && Agree(DottedRead(Obs, steps), a, b)
    ensures WalkFrom(a, steps, false) == WalkFrom(b, steps, false)
  {
    if steps[0].Member? { FieldsFirst(steps, a, b); }
  }

  lemma FieldsFirst(steps: seq<Step>, a: Value, b: Value)
    requires Leading(steps) != [] && forall n :: n in Leading(steps) ==> DotFree(n)
    requires Agree(DottedRead(Obs, steps), a, b)
    ensures WalkFrom(a, steps, false) == WalkFrom(b, steps, false)
  {
    var names := Leading(steps);
    var rest := steps[|names|..];
    LeadingSplits(steps);
    Text.SplitJoin(names, '.');
    assert Text.Join(names, ".") in DottedRead(Obs, steps);
    WalkInTwo(a, Members(names), rest, false);
    WalkInTwo(b, Members(names), rest, false);
  }

  lemma ChangedDependsOnName(name: string, ctx: Ctx, a: Value, b: Value)
    requires a.Obj? && b.Obj? && DotFree(name) && Agree({name}, a, b)
    ensures ChangedIn(name, ctx.(obs := a)) == ChangedIn(name, ctx.(obs := b))
  {
    AlongOneName(a, name);
    AlongOneName(b, name);
    assert Along(a, name) == Along(b, name);
  }

  lemma AlongOneName(obs: Value, name: string)
    requires obs.Obj? && DotFree(name)
    ensures Along(obs, name) ==
            if name in obs.fields then ValueOrAbsent(obs.fields[name]) else Faulted(NoSuchField)
  {
    Text.SplitOne(name, '.');
    var steps := Members([name]);
    assert steps == [Member(name)];
    if name in obs.fields {
      assert Into(obs, steps[0], false) == Val(obs.fields[name]);
      assert WalkFrom(obs.fields[name], steps[1..], false) == ValueOrAbsent(obs.fields[name]);
    }
  }

  /** Two object observations that agree along every listed path are one to the
      expression: value, absence and fault alike. */
  lemma {:induction false} ReadsObsSound(node: Node, ctx: Ctx, a: Value, b: Value)
    requires a.Obj? && b.Obj? && ReadsParts(node) && NamesDotFree(node) && Agree(ReadsObs(node), a, b)
    ensures Eval(node, ctx.(obs := a)) == Eval(node, ctx.(obs := b))
    decreases node, 0
  {
    match node
    case Path(root, steps) => if root == Obs { PathDependsOnReads(steps, a, b); }
    case Lit(_) =>
    case Changed(name) => ChangedDependsOnName(name, ctx, a, b);
    case Exists(x) => ReadsObsSound(x, ctx, a, b);
    case Not(x) => ReadsObsSound(x, ctx, a, b);
    case Neg(x) => ReadsObsSound(x, ctx, a, b);
    case Binary(_, lhs, rhs) =>
      ReadsObsSound(lhs, ctx, a, b);
      ReadsObsSound(rhs, ctx, a, b);
    case Object(fields) => FieldsSound(fields, ctx, a, b, map[]);
    case Array(items) => ItemsSound(items, ctx, a, b, []);
    case Quantified(_, body) => TallySound(body, ctx, ctx.anchors, a, b, 0, 0);
  }

  lemma {:induction false} FieldsSound(fields: seq<Field>, ctx: Ctx, a: Value, b: Value, built: map<string, Value>)
    requires a.Obj? && b.Obj? && Agree(FieldReads(fields), a, b)
    requires forall i :: 0 <= i < |fields| ==> ReadsParts(fields[i].value) && NamesDotFree(fields[i].value)
    ensures EvalFields(fields, ctx.(obs := a), built) == EvalFields(fields, ctx.(obs := b), built)
    decreases fields, 1
  {
    if fields != [] {
      ReadsObsSound(fields[0].value, ctx, a, b);
      var r := Eval(fields[0].value, ctx.(obs := a));
      if !r.Faulted? {
        FieldsSound(fields[1..], ctx, a, b, built[fields[0].key := if r.Val? then r.v else Null]);
      }
    }
  }

  lemma {:induction false} ItemsSound(items: seq<Node>, ctx: Ctx, a: Value, b: Value, built: seq<Value>)
    requires a.Obj? && b.Obj? && Agree(ItemReads(items), a, b)
    requires forall i :: 0 <= i < |items| ==> ReadsParts(items[i]) && NamesDotFree(items[i])
    ensures EvalItems(items, ctx.(obs := a), built) == EvalItems(items, ctx.(obs := b), built)
    decreases items, 1
  {
    if items != [] {
      ReadsObsSound(items[0], ctx, a, b);
      var r := Eval(items[0], ctx.(obs := a));
      if !r.Faulted? {
        ItemsSound(items[1..], ctx, a, b, built + [if r.Val? then r.v else Null]);
      }
    }
  }

  lemma {:induction false} TallySound(body: Node, ctx: Ctx, states: seq<Value>, a: Value, b: Value, held: nat,
                                      answered: nat)
    requires a.Obj? && b.Obj? && ReadsParts(body) && NamesDotFree(body) && Agree(ReadsObs(body), a, b)
    ensures Tally(body, ctx.(obs := a), states, held, answered) == Tally(body, ctx.(obs := b), states, held, answered)
    decreases body, 1, |states|
  {
    if states != [] {
      ReadsObsSound(body, ctx.Each(states[0]), a, b);
      assert ctx.(obs := a).Each(states[0]) == ctx.Each(states[0]).(obs := a);
      assert ctx.(obs := b).Each(states[0]) == ctx.Each(states[0]).(obs := b);
      var r := Eval(body, ctx.Each(states[0]).(obs := a));
      if r.Absent? {
        TallySound(body, ctx, states[1..], a, b, held, answered);
      } else if r.Val? && r.v.Bool? {
        TallySound(body, ctx, states[1..], a, b, if r.v.b then held + 1 else held, answered + 1);
      }
    }
  }

  /** Object observations that agree along what is listed are one to the expression. */
  ghost predicate ListsItsReads(node: Node) {
    forall ctx: Ctx, a: Value, b: Value :: a.Obj? && b.Obj? && Agree(ReadsObs(node), a, b) ==>
      Eval(node, ctx.(obs := a)) == Eval(node, ctx.(obs := b))
  }

  /** Of the paths a parser can give, exactly the bare `obs` has a read not listed. */
  lemma PathsListTheirReadsExactly(root: Root, steps: seq<Step>)
    requires forall n :: n in Leading(steps) ==> DotFree(n)
    ensures ListsItsReads(Path(root, steps)) <==> !(root == Obs && steps == [])
  {
    var node := Path(root, steps);
    if root == Obs && steps == [] {
      BareObsIsNotListed(Ctx(Null, Null, 0, 0, []));
    } else {
      forall ctx: Ctx, a: Value, b: Value | a.Obj? && b.Obj? && Agree(ReadsObs(node), a, b)
        ensures Eval(node, ctx.(obs := a)) == Eval(node, ctx.(obs := b))
      {
        ReadsObsSound(node, ctx, a, b);
      }
    }
  }

  /** A bare `obs` is a read that is not listed. */
  lemma BareObsIsNotListed(ctx: Ctx)
    ensures var node := Path(Obs, []);
            ReadsObs(node) == {} &&
            exists a: Value, b: Value :: a.Obj? && b.Obj? && Agree(ReadsObs(node), a, b) &&
              Eval(node, ctx.(obs := a)) != Eval(node, ctx.(obs := b))
  {
    var a, b := Obj(map[]), Obj(map["x" := Null]);
    assert "x" in b.fields && "x" !in a.fields;
    assert Eval(Path(Obs, []), ctx.(obs := a)) == Val(a);
    assert Eval(Path(Obs, []), ctx.(obs := b)) == Val(b);
    assert Agree(ReadsObs(Path(Obs, [])), a, b);
  }

  /** `changed` lists its read exactly if its name holds no dot. */
  lemma ChangedListsItsReadExactly(name: string)
    ensures ListsItsReads(Changed(name)) <==> DotFree(name)
  {
    var node := Changed(name);
    if DotFree(name) {
      forall ctx: Ctx, a: Value, b: Value | a.Obj? && b.Obj? && Agree(ReadsObs(node), a, b)
        ensures Eval(node, ctx.(obs := a)) == Eval(node, ctx.(obs := b))
      {
        ReadsObsSound(node, ctx, a, b);
      }
    } else {
      DottedChangedIsListedWrongly(name, Ctx(Null, Null, 0, 0, []));
    }
  }

  lemma {:induction false} DottedHasParts(name: string)
    requires !DotFree(name)
    ensures |Text.Split(name, '.')| > 1
  {
    if name[0] != '.' {
      assert name == [name[0]] + name[1..];
      DottedHasParts(name[1..]);
    }
  }

  /** A `changed` name that holds a dot is listed as a path it does not read. */
  lemma DottedChangedIsListedWrongly(name: string, ctx: Ctx)
    requires !DotFree(name)
    ensures exists a: Value, b: Value :: a.Obj? && b.Obj? && Agree(ReadsObs(Changed(name)), a, b) &&
              Eval(Changed(name), ctx.(obs := a)) != Eval(Changed(name), ctx.(obs := b))
  {
    var parts := Text.Split(name, '.');
    DottedHasParts(name);
    assert Text.Free(parts[0], '.') && parts[0] != name;
    var a, b := Obj(map[parts[0] := Null]), Obj(map[parts[0] := Null, name := Null]);
    var steps := Members(parts);
    assert Into(a, steps[0], false) == Val(Null) && Into(b, steps[0], false) == Val(Null);
    assert WalkFrom(Null, steps[1..], false) == Absent;
    assert Along(a, name) == Along(b, name);
    assert Agree(ReadsObs(Changed(name)), a, b);
    assert Eval(Changed(name), ctx.(obs := a)) == Faulted(NoSuchField);
    assert Eval(Changed(name), ctx.(obs := b)).Val?;
  }

  // ---- reads_anchors is sound -----------------------------------------------------------

  /** In a quantifier's body, no `changed` and no quantifier whose own body reads
      state. `inside` says that this node is in such a body. */
  predicate PlainQuantifiers(node: Node, inside: bool) {
    match node
    case Path(_, _) => true
    case Lit(_) => true
    case Changed(_) => !inside
    case Exists(x) => PlainQuantifiers(x, inside)
    case Not(x) => PlainQuantifiers(x, inside)
    case Neg(x) => PlainQuantifiers(x, inside)
    case Binary(_, lhs, rhs) => PlainQuantifiers(lhs, inside) && PlainQuantifiers(rhs, inside)
    case Object(fields) => forall i :: 0 <= i < |fields| ==> PlainQuantifiers(fields[i].value, inside)
    case Array(items) => forall i :: 0 <= i < |items| ==> PlainQuantifiers(items[i], inside)
    case Quantified(_, body) => PlainQuantifiers(body, true) && (inside ==> !ReadsState(body))
  }

  /** A plain body that reads no state answers the same of every anchor, among any
      as many anchors. */
  lemma {:induction false} BodyIgnoresState(node: Node, ctx: Ctx, other: Ctx)
    requires PlainQuantifiers(node, true) && !ReadsState(node)
    requires other == ctx.(state := other.state, anchors := other.anchors) && |other.anchors| == |ctx.anchors|
    ensures Eval(node, ctx) == Eval(node, other)
    decreases node, 0
  {
    match node
    case Path(_, _) =>
    case Lit(_) =>
    case Exists(x) => BodyIgnoresState(x, ctx, other);
    case Not(x) => BodyIgnoresState(x, ctx, other);
    case Neg(x) => BodyIgnoresState(x, ctx, other);
    case Binary(_, lhs, rhs) =>
      BodyIgnoresState(lhs, ctx, other);
      BodyIgnoresState(rhs, ctx, other);
    case Object(fields) => FieldsIgnoreState(fields, ctx, other, map[]);
    case Array(items) => ItemsIgnoreState(items, ctx, other, []);
    case Quantified(_, body) => TallyCountsOnly(body, ctx, other, ctx.anchors, other.anchors, 0, 0);
  }

  lemma {:induction false} FieldsIgnoreState(fields: seq<Field>, ctx: Ctx, other: Ctx, built: map<string, Value>)
    requires forall i :: 0 <= i < |fields| ==> PlainQuantifiers(fields[i].value, true) && !ReadsState(fields[i].value)
    requires other == ctx.(state := other.state, anchors := other.anchors) && |other.anchors| == |ctx.anchors|
    ensures EvalFields(fields, ctx, built) == EvalFields(fields, other, built)
    decreases fields, 1
  {
    if fields != [] {
      BodyIgnoresState(fields[0].value, ctx, other);
      var r := Eval(fields[0].value, ctx);
      if !r.Faulted? {
        FieldsIgnoreState(fields[1..], ctx, other, built[fields[0].key := if r.Val? then r.v else Null]);
      }
    }
  }

  lemma {:induction false} ItemsIgnoreState(items: seq<Node>, ctx: Ctx, other: Ctx, built: seq<Value>)
    requires forall i :: 0 <= i < |items| ==> PlainQuantifiers(items[i], true) && !ReadsState(items[i])
    requires other == ctx.(state := other.state, anchors := other.anchors) && |other.anchors| == |ctx.anchors|
    ensures EvalItems(items, ctx, built) == EvalItems(items, other, built)
    decreases items, 1
  {
    if items != [] {
      BodyIgnoresState(items[0], ctx, other);
      var r := Eval(items[0], ctx);
      if !r.Faulted? {
        ItemsIgnoreState(items[1..], ctx, other, built + [if r.Val? then r.v else Null]);
      }
    }
  }

  lemma {:induction false} TallyCountsOnly(body: Node, ctx: Ctx, other: Ctx, s: seq<Value>, t: seq<Value>, held: nat,
                                           answered: nat)
    requires PlainQuantifiers(body, true) && !ReadsState(body) && |s| == |t|
    requires other == ctx.(state := other.state, anchors := other.anchors) && |other.anchors| == |ctx.anchors|
    ensures Tally(body, ctx, s, held, answered) == Tally(body, other, t, held, answered)
    decreases body, 1, |s|
  {
    if s != [] {
      BodyIgnoresState(body, ctx.Each(s[0]), other.Each(t[0]));
      var r := Eval(body, ctx.Each(s[0]));
      if r.Absent? {
        TallyCountsOnly(body, ctx, other, s[1..], t[1..], held, answered);
      } else if r.Val? && r.v.Bool? {
        TallyCountsOnly(body, ctx, other, s[1..], t[1..], if r.v.b then held + 1 else held, answered + 1);
      }
    }
  }

  /** An expression said not to reach the anchors learns only how many there are. */
  lemma {:induction false} ReadsAnchorsSound(node: Node, ctx: Ctx, others: seq<Value>)
    requires PlainQuantifiers(node, false) && !ReadsAnchors(node) && |others| == |ctx.anchors|
    ensures Eval(node, ctx) == Eval(node, ctx.(anchors := others))
    decreases node, 0
  {
    match node
    case Path(_, _) =>
    case Lit(_) =>
    case Changed(_) =>
    case Exists(x) => ReadsAnchorsSound(x, ctx, others);
    case Not(x) => ReadsAnchorsSound(x, ctx, others);
    case Neg(x) => ReadsAnchorsSound(x, ctx, others);
    case Binary(_, lhs, rhs) =>
      ReadsAnchorsSound(lhs, ctx, others);
      ReadsAnchorsSound(rhs, ctx, others);
    case Object(fields) => FieldsMissAnchors(fields, ctx, others, map[]);
    case Array(items) => ItemsMissAnchors(items, ctx, others, []);
    case Quantified(_, body) =>
      TallyCountsOnly(body, ctx, ctx.(anchors := others), ctx.anchors, others, 0, 0);
  }

  lemma {:induction false} FieldsMissAnchors(fields: seq<Field>, ctx: Ctx, others: seq<Value>,
                                             built: map<string, Value>)
    requires forall i :: 0 <= i < |fields| ==>
      PlainQuantifiers(fields[i].value, false) && !ReadsAnchors(fields[i].value)
    requires |others| == |ctx.anchors|
    ensures EvalFields(fields, ctx, built) == EvalFields(fields, ctx.(anchors := others), built)
    decreases fields, 1
  {
    if fields != [] {
      ReadsAnchorsSound(fields[0].value, ctx, others);
      var r := Eval(fields[0].value, ctx);
      if !r.Faulted? {
        FieldsMissAnchors(fields[1..], ctx, others, built[fields[0].key := if r.Val? then r.v else Null]);
      }
    }
  }

  lemma {:induction false} ItemsMissAnchors(items: seq<Node>, ctx: Ctx, others: seq<Value>, built: seq<Value>)
    requires forall i :: 0 <= i < |items| ==> PlainQuantifiers(items[i], false) && !ReadsAnchors(items[i])
    requires |others| == |ctx.anchors|
    ensures EvalItems(items, ctx, built) == EvalItems(items, ctx.(anchors := others), built)
    decreases items, 1
  {
    if items != [] {
      ReadsAnchorsSound(items[0], ctx, others);
      var r := Eval(items[0], ctx);
      if !r.Faulted? {
        ItemsMissAnchors(items[1..], ctx, others, built + [if r.Val? then r.v else Null]);
      }
    }
  }

  /** An expression that `reads_anchors` passes and that still tells anchors apart. */
  ghost predicate ReachesUnseen(node: Node) {
    && !ReadsAnchors(node)
    && exists ctx: Ctx, others: seq<Value> ::
      |others| == |ctx.anchors| && Eval(node, ctx) != Eval(node, ctx.(anchors := others))
  }

  /** Every quantified `changed` does. */
  lemma QuantifiedChangedReachesUnseen(how: Quant, name: string)
    ensures ReachesUnseen(Quantified(how, Changed(name)))
  {
    var node := Quantified(how, Changed(name));
    var with := Ctx(Null, Null, 0, 0, [Obj(map[name := Null])]);
    var without := [Obj(map[])];
    assert Tally(Changed(name), with, with.anchors, 0, 0) == Counted(1, 1);
    assert Tally(Changed(name), with.(anchors := without), without, 0, 0) == Counted(0, 1);
    assert Eval(node, with) != Eval(node, with.(anchors := without));
  }

  /** And so does every quantifier over a path of the state in a quantifier's body. */
  lemma NestedQuantifierReachesUnseen(outer: Quant, inner: Quant, steps: seq<Step>)
    ensures ReachesUnseen(Quantified(outer, Quantified(inner, Path(State, steps))))
  {
    var body := Quantified(inner, Path(State, steps));
    var ctx := Ctx(Null, Null, 0, 0, [Bool(true)]);
    var other := ctx.(anchors := [Null]);
    AbsentOfNull(inner, steps, other.Each(Null));
    assert Tally(body, other, [Null], 0, 0) == Tally(body, other, [Null][1..], 0, 0);
    PresentOfTrue(inner, steps, ctx.Each(Bool(true)));
    var r := Eval(body, ctx.Each(Bool(true)));
    assert r.Val? && r.v.Bool? ==>
      Tally(body, ctx, [Bool(true)], 0, 0) == Tally(body, ctx, [Bool(true)][1..], if r.v.b then 1 else 0, 1);
    assert Eval(Quantified(outer, body), ctx) != Eval(Quantified(outer, body), other);
  }

  lemma AbsentOfNull(how: Quant, steps: seq<Step>, ctx: Ctx)
    requires ctx.anchors == [Null]
    ensures Eval(Quantified(how, Path(State, steps)), ctx) == Absent
  {
    var body := Path(State, steps);
    assert Eval(body, ctx.Each(Null)) == Absent;
    assert Tally(body, ctx, [Null], 0, 0) == Tally(body, ctx, [Null][1..], 0, 0);
  }

  lemma PresentOfTrue(how: Quant, steps: seq<Step>, ctx: Ctx)
    requires ctx.anchors == [Bool(true)]
    ensures !Eval(Quantified(how, Path(State, steps)), ctx).Absent?
  {
    var body := Path(State, steps);
    var here := ctx.Each(Bool(true));
    assert Eval(body, here) == WalkFrom(Bool(true), steps, true);
    if steps == [] {
      assert Tally(body, ctx, [Bool(true)], 0, 0) == Tally(body, ctx, [Bool(true)][1..], 1, 1);
    } else {
      assert Eval(body, here).Faulted?;
    }
  }
}
