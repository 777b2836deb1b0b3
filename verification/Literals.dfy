/** Exactly which object literals have all they write recorded. */
module Literals {
  import opened Wrappers
  import opened Json
  import opened Ast
  import opened Contract
  import opened Evaluator
  import Printed
  import Text

  // ---- Literals that keep the state -----------------------------------------------------

  /** An object literal, nested or not, whose values are the state or constants. */
  predicate Open(node: Node) {
    match node
    case Object(fields) => Printed.DistinctKeys(fields) && forall i :: 0 <= i < |fields| ==> Open(fields[i].value)
    case Path(root, steps) => root == State && steps == []
    case Lit(v) => !v.Obj?
    case _ => false
  }

  function Find(fields: seq<Field>, key: string): Option<Node> {
    if fields == [] then None else if fields[0].key == key then Some(fields[0].value) else Find(fields[1..], key)
  }

  /** What a literal has along a chain of keys. */
  function Sub(node: Node, keys: seq<string>): Option<Node>
    decreases |keys|
  {
    if keys == [] then Some(node)
    else if !node.Object? || Find(node.fields, keys[0]).None? then None
    else Sub(Find(node.fields, keys[0]).value, keys[1..])
  }

  /** What is present in a literal, of a state. */
  predicate LeafHolds(node: Node, state: Value, keys: seq<string>)
    decreases |keys|
  {
    keys == [] ||
    match node
    case Object(fields) => Find(fields, keys[0]).Some? && LeafHolds(Find(fields, keys[0]).value, state, keys[1..])
    case Path(_, _) => Present(state, keys)
    case _ => false
  }

  /** The value an evaluation leaves in a field. */
  function Left(r: Evaluated): Value { if r.Val? then r.v else Null }

  lemma {:induction false} FoundIsOpen(fields: seq<Field>, key: string)
    requires Open(Object(fields)) && Find(fields, key).Some?
    ensures Open(Find(fields, key).value)
  {
    if fields[0].key != key { FoundIsOpen(fields[1..], key); }
  }

  lemma {:induction false} KeyIsFound(fields: seq<Field>, key: string)
    ensures Find(fields, key).Some? <==> exists i :: 0 <= i < |fields| && fields[i].key == key
  {
    if fields != [] {
      KeyIsFound(fields[1..], key);
      assert forall i :: 0 < i < |fields| ==> fields[i] == fields[1..][i - 1];
      if i :| 0 <= i < |fields| && fields[i].key == key {
        assert i == 0 || fields[1..][i - 1].key == key;
      }
    }
  }

  /** An open literal never faults, and holds what it keeps of the state. */
  lemma {:induction false} OpenHolds(node: Node, ctx: Ctx, keys: seq<string>)
    requires Open(node)
    ensures !Eval(node, ctx).Faulted? && (node.Object? ==> Eval(node, ctx).Val?)
    ensures Present(Left(Eval(node, ctx)), keys) <==> LeafHolds(node, ctx.state, keys)
    decreases node, 0
  {
    match node
    case Object(fields) =>
      FieldsHold(fields, ctx, map[], keys);
    case Path(_, _) =>
      assert Eval(node, ctx) == ValueOrAbsent(ctx.state);
    case Lit(v) =>
  }

  /** A key that no field has is as it was built. */
  lemma {:induction false} FieldsHold(fields: seq<Field>, ctx: Ctx, built: map<string, Value>, keys: seq<string>)
    requires Open(Object(fields))
    ensures EvalFields(fields, ctx, built).Val? && EvalFields(fields, ctx, built).v.Obj?
    ensures keys != [] ==>
              (Present(EvalFields(fields, ctx, built).v, keys) <==>
               if Find(fields, keys[0]).Some? then LeafHolds(Find(fields, keys[0]).value, ctx.state, keys[1..])
               else Present(Obj(built), keys))
    decreases fields, 1
  {
    if fields != [] {
      var f, rest := fields[0], fields[1..];
      var r := Eval(f.value, ctx);
      assert Open(Object(rest));
      OpenHolds(f.value, ctx, if keys == [] then [] else keys[1..]);
      FieldsHold(rest, ctx, built[f.key := Left(r)], keys);
      KeyIsFound(rest, f.key);
    }
  }

  // ---- Beneath a value that may hold anything --------------------------------------------

  /** Some prefix of the path is sealed. */
  predicate Covered(writes: Writes, path: string) { Prefixes(Text.Split(path, '.'), "") * writes.sealed != {} }

  function EndOf(parts: seq<string>, prefix: string): string {
    if parts == [] then prefix else EndOf(parts[1..], Extend(prefix, parts[0]))
  }

  lemma {:induction false} PrefixesSplit(a: seq<string>, b: seq<string>, prefix: string)
    ensures Prefixes(a + b, prefix) == Prefixes(a, prefix) + Prefixes(b, EndOf(a, prefix))
    decreases |a|
  {
    if a == [] {
      assert a + b == b;
    } else {
      assert (a + b)[1..] == a[1..] + b;
      PrefixesSplit(a[1..], b, Extend(prefix, a[0]));
    }
  }

  lemma CoveredBeneath(writes: Writes, path: string, more: string)
    requires Covered(writes, path)
    ensures Reaches(writes, path + ("." + more))
  {
    Text.SplitAcross(path, '.', more);
    PrefixesSplit(Text.Split(path, '.'), Text.Split(more, '.'), "");
    var q :| q in Prefixes(Text.Split(path, '.'), "") * writes.sealed;
    assert q in Prefixes(Text.Split(path + ("." + more), '.'), "") * writes.sealed;
  }

  lemma {:induction false} Longest(s: set<string>) returns (n: nat)
    ensures forall x :: x in s ==> |x| <= n
    decreases s
  {
    n := 0;
    if s != {} {
      var x :| x in s;
      n := Longest(s - {x});
      n := Text.Max(n, |x|);
    }
  }

  function Long(n: nat): (z: string)
    ensures |z| == n && Text.Free(z, '.')
  {
    seq(n, _ => 'a')
  }

  /** Beneath a path that is not covered, a key longer than any recorded is not reached. */
  lemma NewKeyIsMissed(writes: Writes, path: string) returns (z: string)
    ensures Covered(writes, path) || !Reaches(writes, path + ("." + z))
  {
    var n := Longest(writes.paths + writes.sealed);
    z := Long(n + 1);
    var parts := Text.Split(path, '.');
    Text.SplitAcross(path, '.', z);
    Text.SplitOne(z, '.');
    PrefixesSplit(parts, [z], "");
    assert [z][1..] == [];
    var last := Extend(EndOf(parts, ""), z);
    assert Prefixes([z], EndOf(parts, "")) == {last};
    assert |last| > n && |path + ("." + z)| > n;
  }

  lemma JoinedOver(keys: seq<string>, rest: seq<string>)
    requires keys != [] && rest != []
    ensures Text.Join(keys + rest, ".") == Text.Join(keys, ".") + ("." + Text.Join(rest, "."))
    decreases |keys|
  {
    if |keys| == 1 {
      assert (keys + rest)[1..] == rest;
      Text.Assoc(keys[0], ".", Text.Join(rest, "."));
    } else {
      assert (keys + rest)[1..] == keys[1..] + rest;
      JoinedOver(keys[1..], rest);
      Text.Assoc(keys[0] + ".", Text.Join(keys[1..], "."), "." + Text.Join(rest, "."));
    }
  }

  // ---- Exactly which are recorded --------------------------------------------------------------

  /** Every field, nested or not, is reached. */
  ghost predicate FieldsReached(node: Node, writes: Writes) {
    forall keys :: keys != [] && Sub(node, keys).Some? ==> Reaches(writes, Text.Join(keys, "."))
  }

  /** Every field that keeps the state is covered. */
  ghost predicate StatesCovered(node: Node, writes: Writes) {
    forall keys :: keys != [] && Sub(node, keys) == Some(Path(State, [])) ==> Covered(writes, Text.Join(keys, "."))
  }

  /** What is kept is a field, or lies beneath one that keeps the state. */
  lemma {:induction false} KeptIsFieldOrBeneath(node: Node, state: Value, keys: seq<string>) returns (n: nat)
    requires Open(node) && LeafHolds(node, state, keys)
    ensures n <= |keys| && Sub(node, keys[..n]).Some?
    ensures n == |keys| || Sub(node, keys[..n]) == Some(Path(State, []))
    decreases |keys|
  {
    n := 0;
    if keys != [] && node.Object? {
      FoundIsOpen(node.fields, keys[0]);
      n := KeptIsFieldOrBeneath(Find(node.fields, keys[0]).value, state, keys[1..]);
      n := n + 1;
      assert keys[..n][0] == keys[0] && keys[..n][1..] == keys[1..][..n - 1];
    }
  }

  lemma {:induction false} BeneathIsKept(node: Node, state: Value, keys: seq<string>, rest: seq<string>)
    requires Sub(node, keys).Some?
    requires rest == [] || (Sub(node, keys) == Some(Path(State, [])) && Present(state, rest))
    ensures LeafHolds(node, state, keys + rest)
    decreases |keys|
  {
    if keys == [] {
      assert keys + rest == rest;
    } else {
      assert (keys + rest)[1..] == keys[1..] + rest;
      BeneathIsKept(Find(node.fields, keys[0]).value, state, keys[1..], rest);
    }
  }

  lemma KeptIsReached(node: Node, writes: Writes, state: Value, keys: seq<string>)
    requires Open(node) && node.Object? && keys != [] && LeafHolds(node, state, keys)
    requires FieldsReached(node, writes) && StatesCovered(node, writes)
    ensures Reaches(writes, Text.Join(keys, "."))
  {
    var n := KeptIsFieldOrBeneath(node, state, keys);
    assert keys[..0] == [] && keys[..|keys|] == keys && keys == keys[..n] + keys[n..];
    if n < |keys| {
      JoinedOver(keys[..n], keys[n..]);
      CoveredBeneath(writes, Text.Join(keys[..n], "."), Text.Join(keys[n..], "."));
    }
  }

  lemma ReachedIfKept(node: Node, state: Value, keys: seq<string>)
    requires Open(node) && node.Object? && AllReached(node) && keys != [] && LeafHolds(node, state, keys)
    ensures Reaches(Constructed(node, "", Writes({}, {})), Text.Join(keys, "."))
  {
    var ctx := Ctx(Null, state, 0, 0, []);
    OpenHolds(node, ctx, keys);
    assert Eval(node, ctx) == Val(Left(Eval(node, ctx)));
  }

  lemma StateIsCovered(node: Node, keys: seq<string>)
    requires Open(node) && node.Object? && AllReached(node)
    requires keys != [] && Sub(node, keys) == Some(Path(State, []))
    ensures Covered(Constructed(node, "", Writes({}, {})), Text.Join(keys, "."))
  {
    var writes, path := Constructed(node, "", Writes({}, {})), Text.Join(keys, ".");
    var z := NewKeyIsMissed(writes, path);
    BeneathIsKept(node, Nest([z]), keys, [z]);
    ReachedIfKept(node, Nest([z]), keys + [z]);
    JoinedOver(keys, [z]);
    assert Text.Join([z], ".") == z;
  }

  /** All that a literal writes of the state is recorded exactly if every field of it is
      reached, and every field that keeps the state has a sealed prefix. */
  lemma OpenIsReachedExactly(node: Node)
    requires node.Object? && Open(node)
    ensures var writes := Constructed(node, "", Writes({}, {}));
            AllReached(node) <==> FieldsReached(node, writes) && StatesCovered(node, writes)
  {
    var writes := Constructed(node, "", Writes({}, {}));
    if FieldsReached(node, writes) && StatesCovered(node, writes) {
      forall ctx: Ctx, v: Value, keys: seq<string> | keys != [] && Eval(node, ctx) == Val(v) && Present(v, keys)
        ensures Reaches(writes, Text.Join(keys, "."))
      {
        OpenHolds(node, ctx, keys);
        KeptIsReached(node, writes, ctx.state, keys);
      }
    }
    if AllReached(node) {
      forall keys | keys != [] && Sub(node, keys).Some? ensures Reaches(writes, Text.Join(keys, ".")) {
        BeneathIsKept(node, Null, keys, []);
        assert keys + [] == keys;
        ReachedIfKept(node, Null, keys);
      }
      forall keys | keys != [] && Sub(node, keys) == Some(Path(State, []))
        ensures Covered(writes, Text.Join(keys, "."))
      {
        StateIsCovered(node, keys);
      }
    }
  }
}
