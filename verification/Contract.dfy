/** What an anchor's rules read and write, checked against what its probe says
    it observes and what its watches name. */
module Contract {
  import opened Wrappers
  import opened Json
  import opened Ast
  import opened Evaluator
  import opened Reads
  import Grammar
  import Parsed
  import Printed
  import Text

  /** One rule: both sides as source text. */
  datatype Rule = Rule(when: string, to: string)

  // ---- Reads against declarations ---------------------------------------------------

  /** The fields a probe declares, if it declares any. */
  datatype Observes = Named(fields: set<string>) | Unknown {
    /** A read is covered by itself or by any path it goes on from. */
    predicate Covers(read: string) {
      Unknown? || read in fields ||
      exists i :: 0 <= i < |read| && read[i] == '.' && read[..i] in fields
    }
  }

  function RuleReads(rule: Rule): Option<set<string>> {
    match (Grammar.Parse(rule.when), Grammar.Parse(rule.to))
    case (Some(test), Some(next)) => Some(ReadsObs(test) + ReadsObs(next))
    case _ => None
  }

  /** All the reads of all the rules, unless one does not parse. */
  function ReadsOf(rules: seq<Rule>): Option<set<string>> {
    if rules == [] then Some({})
    else
      match (RuleReads(rules[0]), ReadsOf(rules[1..]))
      case (Some(a), Some(b)) => Some(a + b)
      case _ => None
  }

  method GatherReads(rules: seq<Rule>) returns (out: Option<set<string>>)
    ensures out == ReadsOf(rules)
  {
    var found: set<string> := {};
    for i := 0 to |rules|
      invariant ReadsOf(rules).Some? <==> ReadsOf(rules[i..]).Some?
      invariant ReadsOf(rules).Some? ==> ReadsOf(rules).value == found + ReadsOf(rules[i..]).value
    {
      var test, next := Grammar.Parse(rules[i].when), Grammar.Parse(rules[i].to);
      if test == None || next == None { return None; }
      ghost var before := found;
      found := CollectObs(test.value, found);
      found := CollectObs(next.value, found);
      assert found == before + (ReadsObs(test.value) + ReadsObs(next.value));
    }
    out := Some(found);
  }

  function Unmet(asked: set<string>, observes: Observes): set<string> {
    set r | r in asked && !observes.Covers(r)
  }

  /** A covered read depends only on the declared field that covers it. */
  lemma CoveredAgrees(read: string, fields: set<string>, a: Value, b: Value)
    requires Named(fields).Covers(read) && Agree(fields, a, b)
    ensures Along(a, read) == Along(b, read)
  {
    if read !in fields {
      var i :| 0 <= i < |read| && read[i] == '.' && read[..i] in fields;
      assert Along(a, read[..i]) == Along(b, read[..i]);
      AlongInTwo(a, read, i);
      AlongInTwo(b, read, i);
    }
  }

  /** Along a path is along its first part and then along the rest. */
  lemma AlongInTwo(obs: Value, read: string, i: nat)
    requires i < |read| && read[i] == '.'
    ensures Along(obs, read) == Onward(Along(obs, read[..i]), Members(Text.Split(read[i + 1..], '.')), false)
  {
    var head, tail := Text.Split(read[..i], '.'), Text.Split(read[i + 1..], '.');
    SplitAt(read, i);
    MembersInTwo(head, tail);
    WalkInTwo(obs, Members(head), Members(tail), false);
  }

  lemma MembersInTwo(a: seq<string>, b: seq<string>)
    ensures Members(a + b) == Members(a) + Members(b)
  {
  }

  lemma SplitAt(s: string, i: nat)
    requires i < |s| && s[i] == '.'
    ensures Text.Split(s, '.') == Text.Split(s[..i], '.') + Text.Split(s[i + 1..], '.')
  {
    assert s == s[..i] + (['.'] + s[i + 1..]);
    Text.SplitAcross(s[..i], '.', s[i + 1..]);
  }

  lemma ParsedNamesAreDotFree(source: string)
    ensures match Grammar.Parse(source) case Some(node) => NamesDotFree(node) case None => true
  {
    Parsed.ParsedIsWellFormed(source);
    match Grammar.Parse(source)
    case Some(node) => WellFormedNames(node);
    case None =>
  }

  lemma {:induction false} WellFormedNames(node: Node)
    requires Parsed.WellFormed(node)
    ensures NamesDotFree(node)
  {
    match node
    case Path(_, steps) => LeadingIdentifiers(steps);
    case Lit(_) =>
    case Changed(_) =>
    case Exists(x) => WellFormedNames(x);
    case Not(x) => WellFormedNames(x);
    case Neg(x) => WellFormedNames(x);
    case Binary(_, lhs, rhs) =>
      WellFormedNames(lhs);
      WellFormedNames(rhs);
    case Object(fields) =>
      forall i | 0 <= i < |fields| ensures NamesDotFree(fields[i].value) { WellFormedNames(fields[i].value); }
    case Array(items) =>
      forall i | 0 <= i < |items| ensures NamesDotFree(items[i]) { WellFormedNames(items[i]); }
    case Quantified(_, body) => WellFormedNames(body);
  }

  lemma {:induction false} LeadingIdentifiers(steps: seq<Step>)
    requires forall i :: 0 <= i < |steps| ==> Printed.PrintableStep(steps[i])
    ensures forall n :: n in Leading(steps) ==> Printed.Identifier(n) && DotFree(n)
  {
    if steps != [] && steps[0].Member? {
      LeadingIdentifiers(steps[1..]);
      assert Printed.PrintableStep(steps[0]);
    }
  }

  /** No rule reads the whole of `obs`, and `changed` names hold no dot. */
  predicate RuleReadsParts(rule: Rule) {
    match (Grammar.Parse(rule.when), Grammar.Parse(rule.to))
    case (Some(test), Some(next)) => ReadsParts(test) && ReadsParts(next)
    case _ => false
  }

  /** Both sides of a rule are one to the two observations. */
  ghost predicate SameAnswers(rule: Rule, ctx: Ctx, a: Value, b: Value) {
    forall source :: source in {rule.when, rule.to} && Grammar.Parse(source).Some? ==>
      Eval(Grammar.Parse(source).value, ctx.(obs := a)) == Eval(Grammar.Parse(source).value, ctx.(obs := b))
  }

  /** When nothing is unmet, fields the probe does not declare cannot change the
      answer of either side of any rule. */
  lemma {:induction false} DeclaredFieldsDecide(rules: seq<Rule>, fields: set<string>, ctx: Ctx, a: Value, b: Value)
    requires ReadsOf(rules).Some? && Unmet(ReadsOf(rules).value, Named(fields)) == {}
    requires forall i :: 0 <= i < |rules| ==> RuleReadsParts(rules[i])
    requires a.Obj? && b.Obj? && Agree(fields, a, b)
    ensures forall i :: 0 <= i < |rules| ==> SameAnswers(rules[i], ctx, a, b)
  {
    if rules != [] {
      var all, more := ReadsOf(rules).value, ReadsOf(rules[1..]).value;
      forall r | r in all ensures Along(a, r) == Along(b, r) && Named(fields).Covers(r) {
        assert r !in Unmet(all, Named(fields));
        CoveredAgrees(r, fields, a, b);
      }
      ParsedNamesAreDotFree(rules[0].when);
      ParsedNamesAreDotFree(rules[0].to);
      ReadsObsSound(Grammar.Parse(rules[0].when).value, ctx, a, b);
      ReadsObsSound(Grammar.Parse(rules[0].to).value, ctx, a, b);
      assert more <= all;
      DeclaredFieldsDecide(rules[1..], fields, ctx, a, b);
      forall i | 0 <= i < |rules| ensures SameAnswers(rules[i], ctx, a, b) {
        if i > 0 { assert rules[i] == rules[1..][i - 1]; }
      }
    }
  }

  // ---- Writes ---------------------------------------------------------------------------

  /** The paths rules construct, and those whose insides are not spelled out. */
  datatype Writes = Writes(paths: set<string>, sealed: set<string>)

  function Extend(prefix: string, key: string): string {
    if prefix == "" then key else prefix + "." + key
  }

  function Constructed(node: Node, prefix: string, out: Writes): Writes
    decreases node, 0
  {
    if node.Object? then ConstructedFields(node.fields, prefix, out)
    else if prefix != "" then out.(sealed := out.sealed + {prefix})
    else out
  }

  function ConstructedFields(fields: seq<Field>, prefix: string, out: Writes): Writes
    decreases fields, 1
  {
    if fields == [] then out
    else
      var path := Extend(prefix, fields[0].key);
      var more := Constructed(fields[0].value, path, out.(paths := out.paths + {path}));
      ConstructedFields(fields[1..], prefix, more)
  }

  method Construct(node: Node, prefix: string, out0: Writes) returns (out: Writes)
    ensures out == Constructed(node, prefix, out0)
  {
    out := out0;
    if !node.Object? {
      if prefix != "" { out := out.(sealed := out.sealed + {prefix}); }
      return;
    }
    for i := 0 to |node.fields|
      invariant Constructed(node, prefix, out0) == ConstructedFields(node.fields[i..], prefix, out)
    {
      var path := Extend(prefix, node.fields[i].key);
      out := out.(paths := out.paths + {path});
      out := Construct(node.fields[i].value, path, out);
    }
  }

  function WritesFrom(rules: seq<Rule>, out: Writes): Option<Writes> {
    if rules == [] then Some(out)
    else
      match Grammar.Parse(rules[0].to)
      case Some(node) => WritesFrom(rules[1..], Constructed(node, "", out))
      case None => None
  }

  function WritesOf(rules: seq<Rule>): Option<Writes> {
    WritesFrom(rules, Writes({}, {}))
  }

  method GatherWrites(rules: seq<Rule>) returns (out: Option<Writes>)
    ensures out == WritesOf(rules)
  {
    var writes := Writes({}, {});
    for i := 0 to |rules|
      invariant WritesOf(rules) == WritesFrom(rules[i..], writes)
    {
      var node := Grammar.Parse(rules[i].to);
      if node == None { return None; }
      writes := Construct(node.value, "", writes);
    }
    out := Some(writes);
  }

  /** The prefixes of a path, as they are built up part by part. */
  function Prefixes(parts: seq<string>, prefix: string): set<string> {
    if parts == [] then {}
    else {Extend(prefix, parts[0])} + Prefixes(parts[1..], Extend(prefix, parts[0]))
  }

  predicate Reaches(writes: Writes, path: string) {
    path in writes.paths || Prefixes(Text.Split(path, '.'), "") * writes.sealed != {}
  }

  method DoesReach(writes: Writes, path: string) returns (r: bool)
    ensures r == Reaches(writes, path)
  {
    if path in writes.paths { return true; }
    var prefix := "";
    var parts := Text.Split(path, '.');
    for i := 0 to |parts|
      invariant Prefixes(parts, "") * writes.sealed == Prefixes(parts[i..], prefix) * writes.sealed
    {
      ghost var ahead := Prefixes(parts[i..], prefix);
      assert parts[i..][0] == parts[i] && parts[i..][1..] == parts[i + 1..];
      prefix := Extend(prefix, parts[i]);
      if prefix in writes.sealed {
        assert prefix in ahead * writes.sealed;
        return true;
      }
    }
    r := false;
  }

  // ---- writes_of is sound ------------------------------------------------------------------

  /** The value holds something under these keys, one inside the other. */
  predicate Present(v: Value, keys: seq<string>)
    decreases |keys|
  {
    keys == [] || (v.Obj? && keys[0] in v.fields && Present(v.fields[keys[0]], keys[1..]))
  }

  function Deeper(prefix: string, keys: seq<string>): string
    decreases |keys|
  {
    if keys == [] then prefix else Deeper(Extend(prefix, keys[0]), keys[1..])
  }

  /** `q` is `path`, or ends at one of its dots. */
  predicate CutOf(q: string, path: string) {
    q == path || (|q| < |path| && path[..|q|] == q && path[|q|] == '.')
  }

  ghost predicate Accounted(writes: Writes, path: string) {
    path in writes.paths || exists q :: q in writes.sealed && CutOf(q, path)
  }

  predicate Within(a: Writes, b: Writes) { a.paths <= b.paths && a.sealed <= b.sealed }

  lemma {:induction false} ConstructedGrows(node: Node, prefix: string, out: Writes)
    ensures Within(out, Constructed(node, prefix, out))
    decreases node, 0
  {
    if node.Object? { FieldsGrow(node.fields, prefix, out); }
  }

  lemma {:induction false} FieldsGrow(fields: seq<Field>, prefix: string, out: Writes)
    ensures Within(out, ConstructedFields(fields, prefix, out))
    decreases fields, 1
  {
    if fields != [] {
      var path := Extend(prefix, fields[0].key);
      var with := out.(paths := out.paths + {path});
      ConstructedGrows(fields[0].value, path, with);
      FieldsGrow(fields[1..], prefix, Constructed(fields[0].value, path, with));
    }
  }

  lemma AccountedGrows(a: Writes, b: Writes, path: string)
    requires Within(a, b) && Accounted(a, path)
    ensures Accounted(b, path)
  {
  }

  lemma {:induction false} DeeperStarts(prefix: string, keys: seq<string>)
    requires prefix != ""
    ensures CutOf(prefix, Deeper(prefix, keys))
    decreases |keys|
  {
    if keys != [] {
      var next := Extend(prefix, keys[0]);
      DeeperStarts(next, keys[1..]);
      var path := Deeper(next, keys[1..]);
      assert path[..|next|] == next;
      assert path[..|prefix|] == path[..|next|][..|prefix|];
      assert path[|prefix|] == path[..|next|][|prefix|];
    }
  }

  /** Whatever a value built at `prefix` holds is accounted for. */
  lemma {:induction false} BuiltIsAccounted(node: Node, prefix: string, out: Writes, ctx: Ctx, v: Value,
                                            keys: seq<string>)
    requires prefix != "" && keys != []
    requires Eval(node, ctx) == Val(v) && Present(v, keys)
    ensures Accounted(Constructed(node, prefix, out), Deeper(prefix, keys))
    decreases node, 0
  {
    if node.Object? {
      FieldsAreAccounted(node.fields, prefix, out, ctx, map[], v, keys);
    } else {
      DeeperStarts(prefix, keys);
    }
  }

  /** A key the object gained from these fields is accounted for, with all
      that lies under it. */
  lemma {:induction false} FieldsAreAccounted(
    fields: seq<Field>, prefix: string, out: Writes, ctx: Ctx, built: map<string, Value>, v: Value, keys: seq<string>)
    requires keys != [] && Extend(prefix, keys[0]) != ""
    requires EvalFields(fields, ctx, built) == Val(v) && Present(v, keys)
    requires keys[0] in built ==> Accounted(out, Deeper(prefix, keys)) || v.fields[keys[0]] != built[keys[0]]
    ensures Accounted(ConstructedFields(fields, prefix, out), Deeper(prefix, keys))
    decreases fields, 1
  {
    if fields != [] {
      var key := fields[0].key;
      var path := Extend(prefix, key);
      var with := out.(paths := out.paths + {path});
      var after := Constructed(fields[0].value, path, with);
      var r := Eval(fields[0].value, ctx);
      var held := if r.Val? then r.v else Null;
      ConstructedGrows(fields[0].value, path, with);
      if Accounted(out, Deeper(prefix, keys)) {
        AccountedGrows(out, after, Deeper(prefix, keys));
      } else if key == keys[0] && v.fields[key] == held {
        if |keys| > 1 {
          BuiltIsAccounted(fields[0].value, path, with, ctx, held, keys[1..]);
        } else {
          assert Deeper(prefix, keys) == Deeper(path, []) == path;
        }
      }
      FieldsAreAccounted(fields[1..], prefix, after, ctx, built[key := held], v, keys);
    }
  }

  // ---- From accounted for to reached -------------------------------------------------------

  lemma FirstDot(s: string) returns (i: nat)
    requires '.' in s
    ensures i < |s| && s[i] == '.' && Text.Free(s[..i], '.')
  {
    i := 0;
    while s[i] != '.'
      invariant i < |s| && Text.Free(s[..i], '.') && '.' in s[i..]
      decreases |s| - i
    {
      assert s[i..] == [s[i]] + s[i + 1..];
      i := i + 1;
    }
  }

  /** The loop over parts meets every cut of a path that does not start with a dot. */
  lemma {:induction false} CutsAreMet(prefix: string, s: string, q: string)
    requires CutOf(q, s) && (prefix != "" || (s != "" && s[0] != '.'))
    ensures (if prefix == "" then q else prefix + "." + q) in Prefixes(Text.Split(s, '.'), prefix)
    decreases |s|
  {
    if '.' !in s {
      Text.SplitOne(s, '.');
    } else {
      var i := FirstDot(s);
      var head, tail := s[..i], s[i + 1..];
      assert s == head + ['.'] + tail;
      Text.SplitFirst(head, '.', tail);
      CutPastDot(head, tail, q);
      if q != head {
        var next, more := Extend(prefix, head), q[i + 1..];
        CutsAreMet(next, tail, more);
        JoinedOn(prefix, head, more);
      }
    }
  }

  lemma CutPastDot(head: string, tail: string, q: string)
    requires Text.Free(head, '.') && CutOf(q, head + ['.'] + tail)
    ensures q == head ||
            (|q| > |head| && q == head + "." + q[|head| + 1..] && CutOf(q[|head| + 1..], tail))
  {
    var s := head + ['.'] + tail;
    assert forall k :: 0 <= k < |head| ==> s[k] == head[k] && head[k] in head;
    if |q| > |head| {
      var more := q[|head| + 1..];
      assert q == s[..|q|];
      assert more == tail[..|more|];
      assert |q| < |s| ==> tail[|more|] == s[|q|];
    }
    assert s[..|head|] == head;
  }

  lemma JoinedOn(prefix: string, head: string, more: string)
    ensures Extend(prefix, head) + "." + more ==
            if prefix == "" then head + "." + more else prefix + "." + (head + "." + more)
  {
    Text.Assoc(prefix + "." + head, ".", more);
    Text.Assoc(prefix + ".", head, "." + more);
    Text.Assoc(head, ".", more);
  }

  lemma AccountedIsReached(writes: Writes, path: string)
    requires Accounted(writes, path) && path != "" && path[0] != '.'
    ensures Reaches(writes, path)
  {
    if path !in writes.paths {
      var q :| q in writes.sealed && CutOf(q, path);
      CutsAreMet("", path, q);
      assert q in Prefixes(Text.Split(path, '.'), "") * writes.sealed;
    }
  }

  lemma {:induction false} DeeperIsJoin(prefix: string, keys: seq<string>)
    requires keys != [] && Extend(prefix, keys[0]) != ""
    ensures Deeper(prefix, keys) == Extend(prefix, Text.Join(keys, "."))
    decreases |keys|
  {
    if |keys| > 1 {
      var next := Extend(prefix, keys[0]);
      DeeperIsJoin(next, keys[1..]);
    }
  }

  /** Each key of the object is a name, not empty and not starting with a dot. */
  predicate NamedKeys(node: Node) {
    node.Object? && forall i :: 0 <= i < |node.fields| ==> node.fields[i].key != "" && node.fields[i].key[0] != '.'
  }

  lemma {:induction false} OnlyThoseKeys(fields: seq<Field>, ctx: Ctx, built: map<string, Value>, v: Value, key: string)
    requires EvalFields(fields, ctx, built) == Val(v)
    ensures v.Obj?
    ensures key in v.fields ==> key in built || exists i :: 0 <= i < |fields| && fields[i].key == key
    decreases |fields|
  {
    if fields != [] {
      var r := Eval(fields[0].value, ctx);
      OnlyThoseKeys(fields[1..], ctx, built[fields[0].key := if r.Val? then r.v else Null], v, key);
      if key in v.fields && key !in built && key != fields[0].key {
        var i :| 0 <= i < |fields[1..]| && fields[1..][i].key == key;
        assert fields[i + 1].key == key;
      }
    }
  }

  /** Any path present in what an object literal evaluates to is reached. */
  lemma WrittenIsReached(node: Node, out: Writes, ctx: Ctx, v: Value, keys: seq<string>)
    requires NamedKeys(node) && Eval(node, ctx) == Val(v)
    requires keys != [] && Present(v, keys)
    ensures Reaches(Constructed(node, "", out), Text.Join(keys, "."))
  {
    OnlyThoseKeys(node.fields, ctx, map[], v, keys[0]);
    FieldsAreAccounted(node.fields, "", out, ctx, map[], v, keys);
    DeeperIsJoin("", keys);
    var path := Text.Join(keys, ".");
    assert path[0] == keys[0][0];
    AccountedIsReached(Constructed(node, "", out), path);
  }

  lemma ReachesGrows(a: Writes, b: Writes, path: string)
    requires Within(a, b) && Reaches(a, path)
    ensures Reaches(b, path)
  {
    if path !in a.paths {
      var q :| q in Prefixes(Text.Split(path, '.'), "") * a.sealed;
      assert q in Prefixes(Text.Split(path, '.'), "") * b.sealed;
    }
  }

  lemma {:induction false} LaterRulesKeep(rules: seq<Rule>, out: Writes)
    ensures match WritesFrom(rules, out) case Some(all) => Within(out, all) case None => true
  {
    if rules != [] {
      match Grammar.Parse(rules[0].to)
      case Some(node) =>
        ConstructedGrows(node, "", out);
        LaterRulesKeep(rules[1..], Constructed(node, "", out));
      case None =>
    }
  }

  lemma {:induction false} RuleIsReached(rules: seq<Rule>, out: Writes, i: nat, node: Node, ctx: Ctx, v: Value,
                                         keys: seq<string>)
    requires i < |rules| && WritesFrom(rules, out).Some? && Grammar.Parse(rules[i].to) == Some(node)
    requires NamedKeys(node) && Eval(node, ctx) == Val(v)
    requires keys != [] && Present(v, keys)
    ensures Reaches(WritesFrom(rules, out).value, Text.Join(keys, "."))
  {
    var first := Constructed(Grammar.Parse(rules[0].to).value, "", out);
    if i == 0 {
      WrittenIsReached(node, out, ctx, v, keys);
      LaterRulesKeep(rules[1..], first);
      ReachesGrows(first, WritesFrom(rules, out).value, Text.Join(keys, "."));
    } else {
      RuleIsReached(rules[1..], first, i - 1, node, ctx, v, keys);
    }
  }

  /** The paths a watch names that no rule is known to write. */
  function Unwritable(named: set<string>, writes: Writes): set<string> {
    set p | p in named && !Reaches(writes, p)
  }

  /** A path refused as unwritable is in no state that any rule constructs. */
  lemma UnwritableIsNeverWritten(
    rules: seq<Rule>, named: set<string>, path: string, i: nat, node: Node, ctx: Ctx, v: Value, keys: seq<string>)
    requires WritesOf(rules).Some? && path in Unwritable(named, WritesOf(rules).value)
    requires i < |rules| && Grammar.Parse(rules[i].to) == Some(node)
    requires NamedKeys(node) && Eval(node, ctx) == Val(v)
    requires keys != [] && Text.Join(keys, ".") == path
    ensures !Present(v, keys)
  {
    if Present(v, keys) { RuleIsReached(rules, Writes({}, {}), i, node, ctx, v, keys); }
  }

  // ---- Exactly which keys are accounted for -----------------------------------------------

  /** Every path present in what a rule's `to` evaluates to is reached by its own writes. */
  ghost predicate AllReached(node: Node) {
    forall ctx: Ctx, v: Value, keys: seq<string> :: keys != [] && Eval(node, ctx) == Val(v) && Present(v, keys) ==>
      Reaches(Constructed(node, "", Writes({}, {})), Text.Join(keys, "."))
  }

  /** `{ "KEY": state }`. */
  function KeepsAs(key: string): Node { Object([Field(key, Path(State, []))]) }

  /** The state under one key. */
  lemma KeptAs(key: string, ctx: Ctx)
    requires !ctx.state.Null?
    ensures Eval(KeepsAs(key), ctx) == Val(Obj(map[key := ctx.state]))
  {
    var fields := KeepsAs(key).fields;
    assert Eval(Path(State, []), ctx) == Val(ctx.state);
    assert EvalFields(fields, ctx, map[]) == EvalFields(fields[1..], ctx, map[key := ctx.state]);
  }

  lemma KeepsAsWrites(key: string)
    ensures Constructed(KeepsAs(key), "", Writes({}, {})) == Writes({key}, if key == "" then {} else {key})
  {
    var none: set<string> := {};
    assert none + {key} == {key} && KeepsAs(key).fields[1..] == [];
    assert Writes({}, {}).(paths := none + {key}) == Writes({key}, {});
    assert ConstructedFields(KeepsAs(key).fields, "", Writes({}, {}))
      == Constructed(Path(State, []), key, Writes({key}, {}));
  }

  /** The loop over parts drops the dots a path begins with, and never builds a
      prefix that begins with one. */
  lemma {:induction false} PrefixesStartPlainly(parts: seq<string>, prefix: string)
    requires forall i :: 0 <= i < |parts| ==> Text.Free(parts[i], '.')
    requires prefix == "" || prefix[0] != '.'
    ensures forall q :: q in Prefixes(parts, prefix) ==> q == "" || q[0] != '.'
    decreases |parts|
  {
    if parts != [] {
      var next := Extend(prefix, parts[0]);
      assert Text.Free(parts[0], '.');
      assert parts[0] != "" ==> parts[0][0] in parts[0];
      PrefixesStartPlainly(parts[1..], next);
    }
  }

  /** That text is what writes it down, for any key that can stand in quotes. */
  lemma KeepsAsParsed(key: string)
    requires '"' !in key
    ensures Grammar.Parse("{ \"" + key + "\": state }") == Some(KeepsAs(key))
  {
    var t := "\"" + (key + ("\"" + (":" + (" " + ("state" + " }")))));
    Printed.GapBefore(true, "}", t, " " + t);
    StateIsRead();
    Printed.QuotedFieldStep([], " " + t, key, Path(State, []), " " + ("state" + " }"), "}");
    assert "}" + "" == "}" && [] + KeepsAs(key).fields == KeepsAs(key).fields;
    Printed.NoSpace("}");
    Printed.FieldsEnd(KeepsAs(key).fields, "}", "");
    Printed.ObjectParsed(" " + t);
    Printed.WholeParsed(KeepsAs(key), "{" + (" " + t));
    KeepsAsText(key, "state" + " }");
  }

  lemma StateIsRead()
    ensures Grammar.ParseExpr(0, " " + ("state" + " }")) == Grammar.Got(Path(State, []), "}")
  {
    var end := " }";
    assert "" + end == end && end == " " + "}";
    Printed.OneSpace("}");
    Printed.NoSpace("}");
    Printed.PathPrinted(State, [], end);
    Printed.OperandAlone(0, Path(State, []), "state" + end, end);
    Printed.SpaceBefore(0, "state" + end);
  }

  lemma KeepsAsText(key: string, rest: string)
    requires rest == "state }"
    ensures "{" + (" " + ("\"" + (key + ("\"" + (":" + (" " + rest)))))) == "{ \"" + key + "\": state }"
  {
    var after := "\"" + (":" + (" " + rest));
    assert after == "\": state }";
    Text.Assoc("{" + " ", "\"", key + after);
    Text.Assoc("{", " ", "\"" + (key + after));
    Text.Assoc("{ \"", key, after);
  }

  /** A key that is empty or begins with a dot hides what the state holds under it. */
  lemma UnnamedKeyIsMissed(key: string, x: string)
    requires key == "" || key[0] == '.'
    ensures var v := Obj(map[key := Obj(map[x := Null])]);
            var ctx := Ctx(Null, Obj(map[x := Null]), 0, 0, []);
            && Eval(KeepsAs(key), ctx) == Val(v) && Present(v, [key, x])
            && !Reaches(Constructed(KeepsAs(key), "", Writes({}, {})), Text.Join([key, x], "."))
  {
    var ctx := Ctx(Null, Obj(map[x := Null]), 0, 0, []);
    KeptAs(key, ctx);
    KeepsAsWrites(key);
    assert [key, x][1..] == [x] && [x][1..] == [];
    var path := Text.Join([key, x], ".");
    assert Text.Join([x], ".") == x;
    assert path == key + "." + Text.Join([key, x][1..], ".");
    PrefixesStartPlainly(Text.Split(path, '.'), "");
  }

  /** What `{ "KEY": state }` writes is all reached exactly if the key is not empty and
      does not begin with a dot. */
  lemma ReachedExactlyIfNamed(key: string)
    ensures AllReached(KeepsAs(key)) <==> key != "" && key[0] != '.'
  {
    var node := KeepsAs(key);
    if key == "" || key[0] == '.' {
      UnnamedKeyIsMissed(key, "x");
    } else {
      forall ctx: Ctx, v: Value, keys: seq<string> | keys != [] && Eval(node, ctx) == Val(v) && Present(v, keys)
        ensures Reaches(Constructed(node, "", Writes({}, {})), Text.Join(keys, "."))
      {
        WrittenIsReached(node, Writes({}, {}), ctx, v, keys);
      }
    }
  }

  // ---- Rules that are not object literals ----------------------------------------------------

  /** An object that holds something along a path, and nothing else. */
  function Nest(keys: seq<string>): (v: Value)
    ensures Present(v, keys) && !v.Null?
    decreases |keys|
  {
    if keys == [] then Obj(map[]) else Obj(map[keys[0] := Nest(keys[1..])])
  }

  /** A rule that moves to the whole of `state` writes unseen: every path is in some
      state it evaluates to, and its own writes reach none. */
  lemma BareStateWritesUnseen(keys: seq<string>)
    requires keys != []
    ensures var node := Path(State, []);
            && Grammar.Parse("state") == Some(node)
            && (exists ctx: Ctx, v: Value :: Eval(node, ctx) == Val(v) && Present(v, keys))
            && !Reaches(Constructed(node, "", Writes({}, {})), Text.Join(keys, "."))
  {
    var node := Path(State, []);
    Printed.RoundTrip(node, (v: Value) => "");
    assert Render(node, (v: Value) => "") == "state";
    var ctx := Ctx(Null, Nest(keys), 0, 0, []);
    assert Eval(node, ctx) == Val(Nest(keys));
  }
}
