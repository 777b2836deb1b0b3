/** An anchor's journal and the state it folds to. */
module Journal {
  import opened Wrappers
  import opened Json

  type Seq = nat
  type Time = int

  datatype Anchor = Anchor(key: string, probe: string, transitions: seq<(string, string)>, terminal: set<string>)
  {
    /** The state's status is one the anchor declares final. */
    predicate IsTerminal(state: Value) {
      match state.Get("status")
      case Some(Str(status)) => status in terminal
      case _ => false
    }
  }

  datatype Observation = Observation(facts: Option<Value>, address: string, versions: string)

  datatype Change =
    | Reprobe(probe: string)
    | Retransition(transitions: seq<(string, string)>)
    | Reterminal(terminal: set<string>)
    | Restate(state: Value)
  {
    function Kind(): ChangeKind {
      match this
      case Reprobe(_) => Reprobes
      case Retransition(_) => Retransitions
      case Reterminal(_) => Reterminals
      case Restate(_) => Restates
    }
  }

  datatype ChangeKind = Reprobes | Retransitions | Reterminals | Restates

  datatype Reason = Unreachable | Unusable | Unevaluable

  /** What an author's close seals: where the anchor stood. */
  datatype Context = Context(atEntry: Seq, state: Value, enteredAt: Option<Time>)

  datatype Entry =
    | Open(anchor: Anchor, observation: Observation, state: Value, at: Time)
    | Transition(observation: Observation, state: Value, at: Time)
    | Still(refEntry: Seq, at: Time, versions: string)
    | Attempt(reason: Reason, code: Option<string>, message: string, at: Time)
    | Revise(change: Change, rationale: string, at: Time)
    | Close(context: Context, rationale: string, at: Time)
  {
    predicate IsSighting() { Open? || Transition? || Still? }
  }

  datatype Faltering = Faltering(attempts: nat, reason: Reason, code: Option<string>, message: string, at: Time)

  datatype AnchorState = AnchorState(
    anchor: Anchor,
    state: Value,
    latest: Option<Observation>,
    latestSeq: Option<Seq>,
    closed: bool,
    faltering: Option<Faltering>,
    lastSighting: Option<Time>,
    enteredAt: Option<Time>,
    movedAt: Option<Seq>,
    head: Seq,
    revisions: map<ChangeKind, nat>)
  {
    function Attempts(): nat { if faltering.None? then 0 else faltering.value.attempts }
  }

  // ---- The fold ------------------------------------------------------------------------

  /** The state moved to `state`, which is a move only if it differs. */
  function Moved(s: AnchorState, state: Value, at: Time, sequence: Seq): AnchorState {
    var t := if s.state != state then s.(enteredAt := Some(at), movedAt := Some(sequence)) else s;
    t.(state := state)
  }

  function Apply(s: AnchorState, change: Change, at: Time, sequence: Seq): AnchorState {
    var kind := change.Kind();
    var count := if kind in s.revisions then s.revisions[kind] else 0;
    var t := s.(revisions := s.revisions[kind := count + 1]);
    match change
    case Reprobe(probe) => t.(anchor := t.anchor.(probe := probe))
    case Retransition(transitions) => t.(anchor := t.anchor.(transitions := transitions))
    case Reterminal(terminal) => t.(anchor := t.anchor.(terminal := terminal))
    case Restate(state) => Moved(t, state, at, sequence)
  }

  function Opened(sequence: Seq, e: Entry): AnchorState
    requires e.Open?
  {
    AnchorState(e.anchor, e.state, Some(e.observation), Some(sequence), false, None,
                Some(e.at), Some(e.at), Some(sequence), sequence, map[])
  }

  /** What an entry that does not open does to a state. */
  function After(s: AnchorState, sequence: Seq, e: Entry): AnchorState
    requires !e.Open?
  {
    var t := match e
             case Transition(observation, state, at) =>
               Moved(s, state, at, sequence).(latest := Some(observation), latestSeq := Some(sequence),
                                              faltering := None, lastSighting := Some(at))
             case Still(_, at, _) => s.(faltering := None, lastSighting := Some(at))
             case Attempt(reason, code, message, at) =>
               s.(faltering := Some(Faltering(s.Attempts() + 1, reason, code, message, at)))
             case Revise(change, _, at) => Apply(s, change, at, sequence)
             case Close(_, _, _) => s.(closed := true);
    t.(head := sequence)
  }

  function Ending(s: AnchorState): AnchorState {
    s.(closed := s.closed || s.anchor.IsTerminal(s.state))
  }

  function Step(acc: Option<AnchorState>, sequence: Seq, entry: Entry): Option<AnchorState> {
    if entry.Open? then Some(Ending(Opened(sequence, entry)))
    else if acc.None? then None
    else Some(Ending(After(acc.value, sequence, entry)))
  }

  type Log = seq<(Seq, Entry)>

  function Resume(from: Option<AnchorState>, entries: Log): Option<AnchorState>
    decreases |entries|
  {
    if entries == [] then from
    else Resume(Step(from, entries[0].0, entries[0].1), entries[1..])
  }

  /** How many of the entries the callback is shown are sightings. It is shown
      none before the anchor opens. */
  function Sighted(from: Option<AnchorState>, entries: Log): nat
    decreases |entries|
  {
    if entries == [] then 0
    else
      var next := Step(from, entries[0].0, entries[0].1);
      (if next.Some? && entries[0].1.IsSighting() then 1 else 0) + Sighted(next, entries[1..])
  }

  function Fold(entries: Log): Option<AnchorState> { Resume(None, entries) }

  /** The fold as it runs: one state, updated entry by entry, with a count kept
      by the callback. */
  method Replay(from: Option<AnchorState>, entries: Log, counted: nat)
    returns (acc: Option<AnchorState>, count: nat)
    ensures acc == Resume(from, entries)
    ensures count == counted + Sighted(from, entries)
  {
    acc, count := from, counted;
    for i := 0 to |entries|
      invariant Resume(from, entries) == Resume(acc, entries[i..])
      invariant counted + Sighted(from, entries) == count + Sighted(acc, entries[i..])
    {
      acc := Step(acc, entries[i].0, entries[i].1);
      if acc.Some? && entries[i].1.IsSighting() { count := count + 1; }
    }
  }

  /** Folding may be broken off and taken up again anywhere. */
  lemma {:induction false} ResumeComposes(from: Option<AnchorState>, a: Log, b: Log)
    ensures Resume(from, a + b) == Resume(Resume(from, a), b)
    ensures Sighted(from, a + b) == Sighted(from, a) + Sighted(Resume(from, a), b)
    decreases |a|
  {
    if a == [] {
      assert a + b == b;
    } else {
      assert (a + b)[1..] == a[1..] + b;
      ResumeComposes(Step(from, a[0].0, a[0].1), a[1..], b);
    }
  }

  lemma FoldLast(entries: Log)
    requires entries != []
    ensures var n := |entries| - 1;
            Fold(entries) == Step(Fold(entries[..n]), entries[n].0, entries[n].1)
  {
    var n := |entries| - 1;
    assert entries == entries[..n] + entries[n..];
    ResumeComposes(None, entries[..n], entries[n..]);
    assert entries[n..][1..] == [];
  }

  // ---- What a fold is, without folding ----------------------------------------------------

  /** The questions the closed form asks of an entry. */
  datatype Trait = Opens | Observes | Sights | Fails | Says | SetsProbe | SetsRules | SetsTerminal {
    predicate Of(e: Entry) {
      match this
      case Opens => e.Open?
      case Observes => e.Open? || e.Transition?
      case Sights => e.IsSighting()
      case Fails => e.Attempt?
      case Says => e.Open? || e.Transition? || (e.Revise? && e.change.Restate?)
      case SetsProbe => e.Open? || (e.Revise? && e.change.Reprobe?)
      case SetsRules => e.Open? || (e.Revise? && e.change.Retransition?)
      case SetsTerminal => e.Open? || (e.Revise? && e.change.Reterminal?)
    }
  }

  /** The last entry with a trait, or -1. */
  function Last(entries: Log, of: Trait): (i: int)
    ensures -1 <= i < |entries|
    ensures i >= 0 ==> of.Of(entries[i].1)
    ensures forall j :: i < j < |entries| ==> !of.Of(entries[j].1)
    decreases |entries|
  {
    if entries == [] then -1
    else
      var n := |entries| - 1;
      if of.Of(entries[n].1) then n else Last(entries[..n], of)
  }

  /** The state an entry says. */
  function Said(e: Entry): Value
    requires Says.Of(e)
  {
    match e
    case Open(_, _, state, _) => state
    case Transition(_, state, _) => state
    case Revise(change, _, _) => change.state
  }

  function AttemptsIn(entries: Log): nat
    decreases |entries|
  {
    if entries == [] then 0
    else
      var n := |entries| - 1;
      AttemptsIn(entries[..n]) + (if entries[n].1.Attempt? then 1 else 0)
  }

  function RevisionsIn(entries: Log, kind: ChangeKind): nat
    decreases |entries|
  {
    if entries == [] then 0
    else
      var n := |entries| - 1;
      var e := entries[n].1;
      RevisionsIn(entries[..n], kind) + (if e.Revise? && e.change.Kind() == kind then 1 else 0)
  }

  function ProbeOf(e: Entry): string
    requires SetsProbe.Of(e)
  {
    if e.Open? then e.anchor.probe else e.change.probe
  }

  function RulesOf(e: Entry): seq<(string, string)>
    requires SetsRules.Of(e)
  {
    if e.Open? then e.anchor.transitions else e.change.transitions
  }

  function TerminalOf(e: Entry): set<string>
    requires SetsTerminal.Of(e)
  {
    if e.Open? then e.anchor.terminal else e.change.terminal
  }

  /** The anchor as last opened, each part as last revised since. */
  ghost predicate AnchorIs(entries: Log, a: Anchor) {
    var o, p, r, t :=
      Last(entries, Opens), Last(entries, SetsProbe), Last(entries, SetsRules), Last(entries, SetsTerminal);
    && o >= 0 && a.key == entries[o].1.anchor.key
    && p >= 0 && a.probe == ProbeOf(entries[p].1)
    && r >= 0 && a.transitions == RulesOf(entries[r].1)
    && t >= 0 && a.terminal == TerminalOf(entries[t].1)
  }

  /** The state is what was last said; the observation is the last recorded, with
      its sequence. */
  ghost predicate StandsAt(entries: Log, s: AnchorState) {
    var i, j := Last(entries, Says), Last(entries, Observes);
    && i >= 0 && s.state == Said(entries[i].1)
    && j >= 0 && s.latestSeq == Some(entries[j].0) && s.latest == Some(entries[j].1.observation)
  }

  /** How many failures there were, and what the attempt says of itself. */
  function Failure(attempts: nat, e: Entry): Faltering
    requires Fails.Of(e)
  {
    Faltering(attempts, e.reason, e.code, e.message, e.at)
  }

  /** The sighting is the last made, and the attempts are those failed since, the last
      of them kept. */
  ghost predicate SightedAt(entries: Log, s: AnchorState) {
    var k := Last(entries, Sights);
    SightedBy(entries, k, Last(entries, Fails), AttemptsIn(entries[k + 1..]), s)
  }

  /** Sighted at entry `k`, and failed `attempts` times since, the last time at `i`. */
  ghost predicate SightedBy(entries: Log, k: int, i: int, attempts: nat, s: AnchorState)
    requires -1 <= k < |entries| && -1 <= i < |entries| && (i >= 0 ==> Fails.Of(entries[i].1))
  {
    && k >= 0 && s.lastSighting == Some(entries[k].1.at)
    && s.Attempts() == attempts
    && s.faltering == if i < k then None else Some(Failure(attempts, entries[i].1))
  }

  /** Entry `m` is where the state became what it is: it says that state, so does
      every later entry that says one, and the last to say one before it said
      another, unless it is the open. */
  ghost predicate MovedHere(entries: Log, m: int) {
    && Last(entries, Opens) <= m && 0 <= m < |entries| && Says.Of(entries[m].1)
    && (forall j :: m <= j < |entries| && Says.Of(entries[j].1) ==> Said(entries[j].1) == Said(entries[m].1))
    && (entries[m].1.Open? ||
        var k := Last(entries[..m], Says);
        k >= 0 && Said(entries[k].1) != Said(entries[m].1))
  }

  /** Both marks of the last move come from one entry. */
  ghost predicate MovedAtOneEntry(entries: Log, s: AnchorState) {
    exists m :: MovedHere(entries, m) && s.movedAt == Some(entries[m].0) && s.enteredAt == Some(entries[m].1.at)
  }

  function RevisionsOf(revisions: map<ChangeKind, nat>, kind: ChangeKind): nat {
    if kind in revisions then revisions[kind] else 0
  }

  ghost predicate RevisionsAre(entries: Log, revisions: map<ChangeKind, nat>) {
    var o := Last(entries, Opens);
    o >= 0 && forall kind :: RevisionsOf(revisions, kind) == RevisionsIn(entries[o..], kind)
  }

  /** An author closed here, or the state became one the anchor declares final. */
  ghost predicate EndsAt(entries: Log, p: int)
    requires 0 <= p < |entries|
  {
    entries[p].1.Close? || StandsFinal(entries[..p + 1])
  }

  /** The anchor as revised declares what was last said final. */
  ghost predicate StandsFinal(entries: Log) {
    var i := Last(entries, Says);
    i >= 0 && exists a :: AnchorIs(entries, a) && a.IsTerminal(Said(entries[i].1))
  }

  /** It ended at some entry since the last open. */
  ghost predicate Ended(entries: Log) {
    exists p :: 0 <= p < |entries| && Last(entries, Opens) <= p && EndsAt(entries, p)
  }

  // ---- The fold equals its closed form -------------------------------------------------------

  lemma {:induction false} FoldOpens(entries: Log)
    ensures Fold(entries).Some? <==> Last(entries, Opens) >= 0
    decreases |entries|
  {
    if entries != [] {
      FoldLast(entries);
      FoldOpens(entries[..|entries| - 1]);
    }
  }

  lemma FoldHead(entries: Log)
    requires Fold(entries).Some?
    ensures entries != [] && Fold(entries).value.head == entries[|entries| - 1].0
  {
    FoldLast(entries);
  }

  /** What an entry that does not open does to each part of a state. */
  ghost predicate AnchorFollows(a: Anchor, b: Anchor, e: Entry) {
    && b.key == a.key
    && b.probe == (if SetsProbe.Of(e) then ProbeOf(e) else a.probe)
    && b.transitions == (if SetsRules.Of(e) then RulesOf(e) else a.transitions)
    && b.terminal == (if SetsTerminal.Of(e) then TerminalOf(e) else a.terminal)
  }

  ghost predicate StandsFollows(s: AnchorState, t: AnchorState, sequence: Seq, e: Entry) {
    && t.state == (if Says.Of(e) then Said(e) else s.state)
    && (if Observes.Of(e) then t.latestSeq == Some(sequence) && t.latest == Some(e.observation)
        else t.latestSeq == s.latestSeq && t.latest == s.latest)
  }

  ghost predicate SightingFollows(s: AnchorState, t: AnchorState, e: Entry) {
    && t.lastSighting == (if Sights.Of(e) then Some(e.at) else s.lastSighting)
    && (if Sights.Of(e) then t.faltering == None
        else if Fails.Of(e) then t.faltering == Some(Failure(s.Attempts() + 1, e))
        else t.faltering == s.faltering)
  }

  ghost predicate MoveFollows(s: AnchorState, t: AnchorState, sequence: Seq, e: Entry) {
    if Says.Of(e) && Said(e) != s.state then t.movedAt == Some(sequence) && t.enteredAt == Some(e.at)
    else t.movedAt == s.movedAt && t.enteredAt == s.enteredAt
  }

  lemma AfterFollows(s: AnchorState, sequence: Seq, e: Entry)
    requires !e.Open?
    ensures AnchorFollows(s.anchor, After(s, sequence, e).anchor, e)
    ensures StandsFollows(s, After(s, sequence, e), sequence, e)
    ensures SightingFollows(s, After(s, sequence, e), e)
    ensures MoveFollows(s, After(s, sequence, e), sequence, e)
  {
    match e {
      case Revise(change, _, _) => match change { case Restate(_) => case _ => }
      case _ =>
    }
  }

  /** The last but one of `entries`, before its last entry `x`. */
  ghost predicate EndsWith(entries: Log, before: Log, x: (Seq, Entry)) { entries == before + [x] }

  lemma LastOf(entries: Log, before: Log, x: (Seq, Entry), of: Trait)
    requires EndsWith(entries, before, x)
    ensures Last(entries, of) == if of.Of(x.1) then |before| else Last(before, of)
  {
    assert entries[..|before|] == before;
  }

  lemma AnchorStep(entries: Log, before: Log, x: (Seq, Entry), a: Anchor, b: Anchor)
    requires EndsWith(entries, before, x) && AnchorIs(before, a) && !x.1.Open? && AnchorFollows(a, b, x.1)
    ensures AnchorIs(entries, b)
  {
    LastOf(entries, before, x, Opens);
    LastOf(entries, before, x, SetsProbe);
    LastOf(entries, before, x, SetsRules);
    LastOf(entries, before, x, SetsTerminal);
  }

  lemma AnchorOpens(entries: Log, before: Log, x: (Seq, Entry))
    requires EndsWith(entries, before, x) && x.1.Open?
    ensures AnchorIs(entries, x.1.anchor)
  {
    LastOf(entries, before, x, Opens);
    LastOf(entries, before, x, SetsProbe);
    LastOf(entries, before, x, SetsRules);
    LastOf(entries, before, x, SetsTerminal);
  }

  lemma {:induction false} FoldAnchor(entries: Log)
    requires Fold(entries).Some?
    ensures AnchorIs(entries, Fold(entries).value.anchor)
    decreases |entries|
  {
    FoldLast(entries);
    var n := |entries| - 1;
    var before, x := entries[..n], entries[n];
    assert EndsWith(entries, before, x);
    if x.1.Open? {
      AnchorOpens(entries, before, x);
    } else {
      FoldAnchor(before);
      AfterFollows(Fold(before).value, x.0, x.1);
      AnchorStep(entries, before, x, Fold(before).value.anchor, Fold(entries).value.anchor);
    }
  }

  lemma AttemptsStep(before: Log, x: (Seq, Entry), k: nat)
    requires k < |before|
    ensures AttemptsIn((before + [x])[k + 1..]) == AttemptsIn(before[k + 1..]) + (if x.1.Attempt? then 1 else 0)
  {
    var t := (before + [x])[k + 1..];
    assert t == before[k + 1..] + [x];
    assert t[..|t| - 1] == before[k + 1..];
  }

  lemma StandsStep(entries: Log, before: Log, x: (Seq, Entry), s: AnchorState, t: AnchorState)
    requires EndsWith(entries, before, x) && StandsAt(before, s) && !x.1.Open? && StandsFollows(s, t, x.0, x.1)
    ensures StandsAt(entries, t)
  {
    LastOf(entries, before, x, Says);
    LastOf(entries, before, x, Observes);
  }

  lemma SightingStep(entries: Log, before: Log, x: (Seq, Entry), s: AnchorState, t: AnchorState)
    requires EndsWith(entries, before, x) && SightedAt(before, s) && !x.1.Open? && SightingFollows(s, t, x.1)
    ensures SightedAt(entries, t)
  {
    if Sights.Of(x.1) {
      SightedNow(entries, before, x, s, t);
    } else {
      StillSighted(entries, before, x, s, t);
    }
  }

  lemma SightedNow(entries: Log, before: Log, x: (Seq, Entry), s: AnchorState, t: AnchorState)
    requires EndsWith(entries, before, x) && Sights.Of(x.1) && !x.1.Open? && SightingFollows(s, t, x.1)
    ensures SightedAt(entries, t)
  {
    LastOf(entries, before, x, Sights);
    LastOf(entries, before, x, Fails);
    assert entries[|before| + 1..] == [];
  }

  lemma StillSighted(entries: Log, before: Log, x: (Seq, Entry), s: AnchorState, t: AnchorState)
    requires EndsWith(entries, before, x) && SightedAt(before, s) && !Sights.Of(x.1) && SightingFollows(s, t, x.1)
    ensures SightedAt(entries, t)
  {
    LastOf(entries, before, x, Sights);
    LastOf(entries, before, x, Fails);
    var k := Last(before, Sights);
    AttemptsStep(before, x, k);
    StillSince(before, x, k, Last(before, Fails), AttemptsIn(before[k + 1..]), s, t);
  }

  lemma StillSince(before: Log, x: (Seq, Entry), k: int, i: int, n: nat, s: AnchorState, t: AnchorState)
    requires -1 <= k < |before| && -1 <= i < |before| && (i >= 0 ==> Fails.Of(before[i].1))
    requires SightedBy(before, k, i, n, s) && SightingFollows(s, t, x.1) && !Sights.Of(x.1)
    ensures if Fails.Of(x.1) then SightedBy(before + [x], k, |before|, n + 1, t)
            else SightedBy(before + [x], k, i, n, t)
  {
  }

  lemma StandsOpens(entries: Log, before: Log, x: (Seq, Entry))
    requires EndsWith(entries, before, x) && x.1.Open?
    ensures StandsAt(entries, Ending(Opened(x.0, x.1))) && SightedAt(entries, Ending(Opened(x.0, x.1)))
  {
    LastOf(entries, before, x, Says);
    LastOf(entries, before, x, Observes);
    LastOf(entries, before, x, Sights);
    LastOf(entries, before, x, Fails);
    assert entries[|before| + 1..] == [];
  }

  lemma {:induction false} FoldStands(entries: Log)
    requires Fold(entries).Some?
    ensures StandsAt(entries, Fold(entries).value) && SightedAt(entries, Fold(entries).value)
    decreases |entries|
  {
    FoldLast(entries);
    var n := |entries| - 1;
    var before, x := entries[..n], entries[n];
    assert EndsWith(entries, before, x);
    if x.1.Open? {
      StandsOpens(entries, before, x);
    } else {
      FoldStands(before);
      AfterFollows(Fold(before).value, x.0, x.1);
      StandsStep(entries, before, x, Fold(before).value, Fold(entries).value);
      SightingStep(entries, before, x, Fold(before).value, Fold(entries).value);
    }
  }

  lemma MovedStep(entries: Log, before: Log, x: (Seq, Entry), s: AnchorState, t: AnchorState)
    requires EndsWith(entries, before, x) && !x.1.Open? && MoveFollows(s, t, x.0, x.1)
    requires StandsAt(before, s) && MovedAtOneEntry(before, s)
    ensures MovedAtOneEntry(entries, t)
  {
    var m :| MovedHere(before, m) && s.movedAt == Some(before[m].0) && s.enteredAt == Some(before[m].1.at);
    LastOf(entries, before, x, Opens);
    if Says.Of(x.1) && Said(x.1) != s.state {
      assert entries[..|before|] == before;
      assert MovedHere(entries, |before|);
    } else {
      var i := Last(before, Says);
      assert Said(before[i].1) == Said(before[m].1);
      assert before[..m] == entries[..m];
      assert MovedHere(entries, m);
    }
  }

  lemma {:induction false} FoldMoved(entries: Log)
    requires Fold(entries).Some?
    ensures MovedAtOneEntry(entries, Fold(entries).value)
    decreases |entries|
  {
    FoldLast(entries);
    var n := |entries| - 1;
    var before, x := entries[..n], entries[n];
    assert EndsWith(entries, before, x);
    if x.1.Open? {
      LastOf(entries, before, x, Opens);
      assert MovedHere(entries, n);
    } else {
      FoldMoved(before);
      FoldStands(before);
      AfterFollows(Fold(before).value, x.0, x.1);
      MovedStep(entries, before, x, Fold(before).value, Fold(entries).value);
    }
  }

  lemma RevisionsStep(entries: Log, before: Log, x: (Seq, Entry), s: AnchorState)
    requires EndsWith(entries, before, x) && !x.1.Open? && RevisionsAre(before, s.revisions)
    ensures RevisionsAre(entries, Ending(After(s, x.0, x.1)).revisions)
  {
    LastOf(entries, before, x, Opens);
    forall kind ensures RevisionsOf(Ending(After(s, x.0, x.1)).revisions, kind) ==
                        RevisionsIn(entries[Last(before, Opens)..], kind) {
      RevisionAdded(before, x, Last(before, Opens), kind);
      RevisionsAfter(s, x, kind);
    }
  }

  lemma RevisionAdded(before: Log, x: (Seq, Entry), o: nat, kind: ChangeKind)
    requires o <= |before|
    ensures RevisionsIn((before + [x])[o..], kind) ==
            RevisionsIn(before[o..], kind) + (if x.1.Revise? && x.1.change.Kind() == kind then 1 else 0)
  {
    var t := (before + [x])[o..];
    assert t == before[o..] + [x];
    assert t[..|t| - 1] == before[o..];
  }

  lemma RevisionsAfter(s: AnchorState, x: (Seq, Entry), kind: ChangeKind)
    requires !x.1.Open?
    ensures RevisionsOf(Ending(After(s, x.0, x.1)).revisions, kind) ==
            RevisionsOf(s.revisions, kind) + (if x.1.Revise? && x.1.change.Kind() == kind then 1 else 0)
  {
  }

  lemma {:induction false} FoldRevisions(entries: Log)
    requires Fold(entries).Some?
    ensures RevisionsAre(entries, Fold(entries).value.revisions)
    decreases |entries|
  {
    FoldLast(entries);
    var n := |entries| - 1;
    var before, x := entries[..n], entries[n];
    assert EndsWith(entries, before, x);
    if x.1.Open? {
      LastOf(entries, before, x, Opens);
      assert entries[n..] == [x] && entries[n..][..0] == [];
    } else {
      FoldRevisions(before);
      RevisionsStep(entries, before, x, Fold(before).value);
    }
  }

  lemma FinalIsTerminal(entries: Log)
    requires Fold(entries).Some?
    ensures StandsFinal(entries) <==> Fold(entries).value.anchor.IsTerminal(Fold(entries).value.state)
  {
    FoldAnchor(entries);
    FoldStands(entries);
  }

  lemma EndsBefore(entries: Log, before: Log, x: (Seq, Entry))
    requires EndsWith(entries, before, x) && !x.1.Open?
    ensures Ended(entries) <==> Ended(before) || EndsAt(entries, |before|)
  {
    LastOf(entries, before, x, Opens);
    forall p | 0 <= p < |before| ensures EndsAt(entries, p) <==> EndsAt(before, p) {
      assert before[..p + 1] == entries[..p + 1];
    }
    if Ended(before) {
      var p :| 0 <= p < |before| && Last(before, Opens) <= p && EndsAt(before, p);
      assert EndsAt(entries, p);
    }
    if Ended(entries) {
      var p :| 0 <= p < |entries| && Last(entries, Opens) <= p && EndsAt(entries, p);
      assert p < |before| ==> EndsAt(before, p);
    }
  }

  lemma {:induction false} FoldEnded(entries: Log)
    requires Fold(entries).Some?
    ensures Fold(entries).value.closed <==> Ended(entries)
    decreases |entries|
  {
    FoldLast(entries);
    var n := |entries| - 1;
    var before, x := entries[..n], entries[n];
    assert EndsWith(entries, before, x);
    LastEnds(entries);
    if x.1.Open? {
      EndsOpening(entries, before, x);
    } else {
      FoldEnded(before);
      EndsBefore(entries, before, x);
    }
  }

  lemma LastEnds(entries: Log)
    requires Fold(entries).Some?
    ensures entries != []
    ensures var n, s := |entries| - 1, Fold(entries).value;
            EndsAt(entries, n) <==> entries[n].1.Close? || s.anchor.IsTerminal(s.state)
  {
    assert entries[..|entries|] == entries;
    FinalIsTerminal(entries);
  }

  lemma EndsOpening(entries: Log, before: Log, x: (Seq, Entry))
    requires EndsWith(entries, before, x) && x.1.Open?
    ensures Ended(entries) <==> EndsAt(entries, |before|)
  {
    LastOf(entries, before, x, Opens);
  }

  /** A fold exists once the anchor has opened, and every part of it is named by
      the entries since. */
  lemma FoldIsClosedForm(entries: Log)
    ensures match Fold(entries)
            case None => Last(entries, Opens) == -1
            case Some(s) =>
              && Last(entries, Opens) >= 0
              && s.head == entries[|entries| - 1].0
              && AnchorIs(entries, s.anchor)
              && StandsAt(entries, s)
              && SightedAt(entries, s)
              && MovedAtOneEntry(entries, s)
              && RevisionsAre(entries, s.revisions)
              && (s.closed <==> Ended(entries))
  {
    FoldOpens(entries);
    if Fold(entries).Some? {
      FoldHead(entries);
      FoldAnchor(entries);
      FoldStands(entries);
      FoldMoved(entries);
      FoldRevisions(entries);
      FoldEnded(entries);
    }
  }

  // ---- Failed attempts leave no other trace ---------------------------------------------------

  function WithoutAttempts(entries: Log): Log {
    if entries == [] then []
    else if entries[0].1.Attempt? then WithoutAttempts(entries[1..])
    else [entries[0]] + WithoutAttempts(entries[1..])
  }

  /** The same but for the head and the failures. */
  ghost predicate SameStanding(a: Option<AnchorState>, b: Option<AnchorState>) {
    match (a, b)
    case (None, None) => true
    case (Some(s), Some(t)) => s == t.(head := s.head, faltering := s.faltering)
    case _ => false
  }

  /** Asking twice whether the anchor has ended is asking once. */
  ghost predicate Asked(a: Option<AnchorState>) {
    match a case Some(s) => s == Ending(s) case None => true
  }

  lemma SameStandingStep(s: AnchorState, t: AnchorState, sequence: Seq, e: Entry)
    requires s == t.(head := s.head, faltering := s.faltering) && !e.Open? && !e.Attempt?
    ensures SameStanding(Some(Ending(After(s, sequence, e))), Some(Ending(After(t, sequence, e))))
  {
    match e {
      case Revise(change, _, at) => match change { case Restate(_) => case _ => }
      case _ =>
    }
  }

  lemma {:induction false} AttemptsLeaveNoTrace(a: Option<AnchorState>, b: Option<AnchorState>, entries: Log)
    requires SameStanding(a, b) && Asked(a) && Asked(b)
    ensures SameStanding(Resume(a, entries), Resume(b, WithoutAttempts(entries)))
    decreases |entries|
  {
    if entries != [] {
      var (sequence, e) := entries[0];
      var next := Step(a, sequence, e);
      if e.Attempt? {
        AttemptsLeaveNoTrace(next, b, entries[1..]);
      } else {
        if !e.Open? && a.Some? { SameStandingStep(a.value, b.value, sequence, e); }
        AttemptsLeaveNoTrace(next, Step(b, sequence, e), entries[1..]);
        assert ([entries[0]] + WithoutAttempts(entries[1..]))[1..] == WithoutAttempts(entries[1..]);
      }
    }
  }

  /** Deleting every attempt changes only the head and the failures. */
  lemma AttemptsChangeOnlyHead(entries: Log)
    ensures SameStanding(Fold(entries), Fold(WithoutAttempts(entries)))
  {
    AttemptsLeaveNoTrace(None, None, entries);
  }

  /** Once closed, closed until it opens again. */
  lemma {:induction false} ClosedStays(s: AnchorState, entries: Log)
    requires s.closed && forall i :: 0 <= i < |entries| ==> !entries[i].1.Open?
    ensures Resume(Some(s), entries).Some? && Resume(Some(s), entries).value.closed
    decreases |entries|
  {
    if entries != [] { ClosedStays(Step(Some(s), entries[0].0, entries[0].1).value, entries[1..]); }
  }
}
