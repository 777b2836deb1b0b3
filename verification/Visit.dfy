/** Looks at a tree that stays as it is, after any life of the index. */
module Visits {
  import opened Wrappers
  import opened Json
  import opened Bridging
  import Conformance
  import opened Corpus
  import opened Index
  import opened Looking
  import opened Matching
  import opened Refresh
  import opened Sqlite
  import opened Walk
  import Budgets

  method Rewalk(bridge: Bridge, m: Means, spent: nat -> Option<Budgets.Spent>, fault: Fault, tree: seq<Entry>,
                ghost w: World)
    requires bridge.Valid() && bridge.walked.None?
    requires bridge.index.Contents() == w.shelf && Now(w) == tree
    modifies bridge, bridge.index
    ensures bridge.Valid() && bridge.walked.None?
    ensures bridge.index.Contents() == After(m, w, Refreshed(spent, fault)).shelf
    ensures Now(After(m, w, Refreshed(spent, fault))) == tree
  {
    var r := bridge.Refresh(m.(spent := spent), tree, fault);
  }

  method Meanwhile(bridge: Bridge, m: Means, op: Op, ghost w: World)
    requires bridge.Valid() && Conformance.Fair(op) && bridge.index.Contents() == w.shelf
    modifies bridge.index
    ensures bridge.Valid()
    ensures bridge.index.Contents() == After(m, w, Apart(op)).shelf && Now(After(m, w, Apart(op))) == Now(w)
  {
    if Elsewhere(op, GenerationOf(m.recipe)) { Conformance.OnTables(bridge.index, op); }
  }

  /** What one event does to the index, and to the tree. */
  method Undergo(bridge: Bridge, m: Means, e: Event, tree: seq<Entry>, ghost w: World) returns (now: seq<Entry>)
    requires bridge.Valid() && bridge.walked.None? && (e.Apart? ==> Conformance.Fair(e.op))
    requires bridge.index.Contents() == w.shelf && Now(w) == tree
    modifies bridge, bridge.index
    ensures bridge.Valid() && bridge.walked.None?
    ensures bridge.index.Contents() == After(m, w, e).shelf && Now(After(m, w, e)) == now
  {
    now := tree;
    match e {
      case Edit(edited) => now := edited;
      case Refreshed(spent, fault) => Rewalk(bridge, m, spent, fault, tree, w);
      case Apart(op) => Meanwhile(bridge, m, op, w);
    }
  }

  /** A life of the index, lived in the tables. */
  method Lived(m: Means, events: seq<Event>) returns (bridge: Bridge, tree: seq<Entry>)
    requires forall i :: 0 <= i < |events| && events[i].Apart? ==> Conformance.Fair(events[i].op)
    ensures fresh(bridge) && fresh(bridge.index) && bridge.Valid() && bridge.walked.None?
    ensures bridge.index.Contents() == Live(m, events).shelf && tree == Now(Live(m, events))
  {
    var index := new SqliteIndex();
    bridge := new Bridge(index);
    tree := [];
    for i := 0 to |events|
      invariant fresh(bridge) && fresh(bridge.index) && bridge.Valid() && bridge.walked.None?
      invariant bridge.index.Contents() == Live(m, events[..i]).shelf && tree == Now(Live(m, events[..i]))
    {
      assert events[..i + 1][..i] == events[..i];
      tree := Undergo(bridge, m, events[i], tree, Live(m, events[..i]));
    }
    assert events[..|events|] == events;
  }

  /** What the refresh of each look comes to. A position that asks for nothing is
      refused before its refresh. */
  function Refreshes(m: Means, memo: Memo, s: Shelf, tree: seq<Entry>, visits: seq<(Value, Fault)>):
    (outcomes: seq<Result<(), Halt>>)
    ensures |outcomes| == |visits|
    decreases |visits|
  {
    if visits == [] then []
    else if Wanted(visits[0].0, m.recipe.items).Err? then [Ok(())] + Refreshes(m, memo, s, tree, visits[1..])
    else
      var (r, t, after) := Refreshing(m, memo, s, tree, visits[0].1);
      [r] + Refreshes(m, after, t, tree, visits[1..])
  }

  predicate Through(memo: Memo, of: Generation) { Remembers(memo, of) && memo.value[of].Ok? }

  /** A tree that is still stays so, and what came through is remembered. */
  lemma Onward(m: Means, memo: Memo, s: Shelf, tree: seq<Entry>, visits: seq<(Value, Fault)>)
    returns (after: Memo, t: Shelf)
    requires memo.Some? && visits != []
    ensures var (of, all) := (GenerationOf(m.recipe), Refreshes(m, memo, s, tree, visits));
            && after.Some? && all[1..] == Refreshes(m, after, t, tree, visits[1..])
            && (Wanted(visits[0].0, m.recipe.items).Ok? && all[0].Ok? ==> Through(after, of))
            && (Through(memo, of) ==> all[0].Ok? && Through(after, of))
  {
    after, t := memo, s;
    if Wanted(visits[0].0, m.recipe.items).Ok? {
      var (_, u, next) := Refreshing(m, memo, s, tree, visits[0].1);
      after, t := next, u;
    }
  }

  /** Where the first looks leave the memo and the index. */
  lemma {:induction false} Reached(m: Means, memo: Memo, s: Shelf, tree: seq<Entry>, visits: seq<(Value, Fault)>,
                                   i: nat)
    returns (after: Memo, t: Shelf)
    requires memo.Some? && i <= |visits|
    ensures after.Some? && Refreshes(m, memo, s, tree, visits)[i..] == Refreshes(m, after, t, tree, visits[i..])
    decreases i
  {
    after, t := memo, s;
    if i == 0 {
      assert visits[0..] == visits;
    } else {
      after, t := Onward(m, memo, s, tree, visits);
      after, t := Reached(m, after, t, tree, visits[1..], i - 1);
      assert visits[1..][i - 1..] == visits[i..];
    }
  }

  lemma {:induction false} RememberedThrough(m: Means, memo: Memo, s: Shelf, tree: seq<Entry>,
                                             visits: seq<(Value, Fault)>, j: nat)
    requires Through(memo, GenerationOf(m.recipe)) && j < |visits|
    ensures Refreshes(m, memo, s, tree, visits)[j].Ok?
    decreases |visits|
  {
    var after, t := Onward(m, memo, s, tree, visits);
    if j > 0 {
      RememberedThrough(m, after, t, tree, visits[1..], j - 1);
      assert Refreshes(m, memo, s, tree, visits)[1..][j - 1] == Refreshes(m, memo, s, tree, visits)[j];
    }
  }

  /** Over a still tree, a walk that came through is not done again: no later fault
      comes between a look and the corpus. */
  lemma OnceThroughAlwaysThrough(m: Means, memo: Memo, s: Shelf, tree: seq<Entry>, visits: seq<(Value, Fault)>,
                                 i: nat, j: nat)
    requires memo.Some? && i < j < |visits| && Wanted(visits[i].0, m.recipe.items).Ok?
    requires Refreshes(m, memo, s, tree, visits)[i].Ok?
    ensures Refreshes(m, memo, s, tree, visits)[j].Ok?
  {
    var all, later := Refreshes(m, memo, s, tree, visits), visits[i..];
    var after, t := Reached(m, memo, s, tree, visits, i);
    assert all[i..][0] == all[i] && all[i..][1..][j - i - 1] == all[j];
    ThroughOnce(m, after, t, tree, later, j - i);
  }

  lemma ThroughOnce(m: Means, memo: Memo, s: Shelf, tree: seq<Entry>, visits: seq<(Value, Fault)>, j: nat)
    requires memo.Some? && 0 < j < |visits| && Wanted(visits[0].0, m.recipe.items).Ok?
    requires Refreshes(m, memo, s, tree, visits)[0].Ok?
    ensures Refreshes(m, memo, s, tree, visits)[1..][j - 1].Ok?
  {
    var after, t := Onward(m, memo, s, tree, visits);
    RememberedThrough(m, after, t, tree, visits[1..], j - 1);
  }

  /** What is still to come of the refreshes. */
  ghost predicate ToCome(refreshes: seq<Result<(), Halt>>, i: nat, m: Means, memo: Memo, s: Shelf, tree: seq<Entry>,
                         visits: seq<(Value, Fault)>)
  {
    |refreshes| == |visits| && i <= |visits| && refreshes[i..] == Refreshes(m, memo, s, tree, visits[i..])
  }

  lemma OneFurther(refreshes: seq<Result<(), Halt>>, i: nat, m: Means, memo: Memo, s: Shelf, tree: seq<Entry>,
                   visits: seq<(Value, Fault)>)
    requires i < |visits| && ToCome(refreshes, i, m, memo, s, tree, visits)
    ensures var (r, t, after) := Refreshing(m, memo, s, tree, visits[i].1);
            if Wanted(visits[i].0, m.recipe.items).Ok?
            then refreshes[i] == r && ToCome(refreshes, i + 1, m, after, t, tree, visits)
            else ToCome(refreshes, i + 1, m, memo, s, tree, visits)
  {
    assert visits[i..][0] == visits[i] && visits[i..][1..] == visits[i + 1..];
    assert refreshes[i..][0] == refreshes[i] && refreshes[i..][1..] == refreshes[i + 1..];
  }

  /** One look among them. */
  method Next(bridge: Bridge, m: Means, root: string, tree: seq<Entry>, visits: seq<(Value, Fault)>, i: nat,
              weigh: Report -> nat, ghost history: seq<seq<Entry>>, ghost refreshes: seq<Result<(), Halt>>)
    returns (r: Result<Report, Halt>)
    requires bridge.Valid() && Ready(m, history, bridge.walked, bridge.index.Contents(), tree) && Ascii(root)
    requires i < |visits| && ToCome(refreshes, i, m, bridge.walked, bridge.index.Contents(), tree, visits)
    modifies bridge, bridge.index
    ensures bridge.Valid() && Ready(m, history, bridge.walked, bridge.index.Contents(), tree)
    ensures ToCome(refreshes, i + 1, m, bridge.walked, bridge.index.Contents(), tree, visits)
    ensures AnswersFor(m, root, visits[i].0, tree, weigh, refreshes[i], r)
  {
    OneFurther(refreshes, i, m, bridge.walked, bridge.index.Contents(), tree, visits);
    r := Look(bridge, m, root, visits[i].0, tree, visits[i].1, weigh, history);
  }

  /** Each answer is one that its visit may have. */
  ghost predicate Suits<T>(may: (nat, T) -> bool, answers: seq<T>) {
    forall i :: 0 <= i < |answers| ==> may(i, answers[i])
  }

  lemma AnswersGrow<T>(may: (nat, T) -> bool, answers: seq<T>, r: T)
    requires Suits(may, answers) && may(|answers|, r)
    ensures Suits(may, answers + [r])
  {
  }

  /** After any life of the index, every look at the tree as it then is answers from
      the corpus of that tree, unless its refresh did not come through. */
  method Visit(m: Means, events: seq<Event>, root: string, visits: seq<(Value, Fault)>, weigh: Report -> nat)
    returns (answers: seq<Result<Report, Halt>>)
    requires Ascii(root) && AllProper(Live(m, events).history)
    requires StampsTell(Live(m, events).history) && DigestsTell(m, Live(m, events).history)
    requires forall i :: 0 <= i < |events| && events[i].Apart? ==> Conformance.Fair(events[i].op)
    ensures var w := Live(m, events);
            var refreshes := Refreshes(m, Some(map[]), w.shelf, Now(w), visits);
            && |answers| == |visits|
            && forall i :: 0 <= i < |visits| ==>
                 AnswersFor(m, root, visits[i].0, Now(w), weigh, refreshes[i], answers[i])
  {
    var bridge, tree := Lived(m, events);
    bridge.OverAStillTree();
    ghost var w := Live(m, events);
    ghost var refreshes := Refreshes(m, Some(map[]), w.shelf, tree, visits);
    LiveIsReady(m, events, w, Some(map[]));
    ghost var may := (i: nat, r: Result<Report, Halt>) =>
      i < |visits| && AnswersFor(m, root, visits[i].0, tree, weigh, refreshes[i], r);
    answers := [];
    for i := 0 to |visits|
      invariant fresh(bridge) && fresh(bridge.index) && bridge.Valid()
      invariant Ready(m, w.history, bridge.walked, bridge.index.Contents(), tree)
      invariant |answers| == i && Suits(may, answers)
      invariant ToCome(refreshes, i, m, bridge.walked, bridge.index.Contents(), tree, visits)
    {
      var r := Next(bridge, m, root, tree, visits, i, weigh, w.history, refreshes);
      AnswersGrow(may, answers, r);
      answers := answers + [r];
    }
    forall i | 0 <= i < |visits| ensures AnswersFor(m, root, visits[i].0, tree, weigh, refreshes[i], answers[i]) {
      assert may(i, answers[i]);
    }
  }
}
