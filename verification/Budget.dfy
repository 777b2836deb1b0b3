/** Budgets: a deadline and a cancellation that run down a tree of calls. */
module Budgets {
  import opened Wrappers

  /** A cancellation flag, held by everyone who was handed it. */
  class Flag {
    var raised: bool

    constructor ()
      ensures !raised
    {
      raised := false;
    }
  }

  datatype Spent = Deadline | Cancelled

  /** A budget is a value: copying it copies its holds on the flags. */
  datatype Budget = Budget(started: int, deadline: int, cap: nat, cancel: Flag, inherited: seq<Flag>)
  {
    ghost predicate Abandoned()
      reads cancel, inherited
    {
      cancel.raised || exists flag :: flag in inherited && flag.raised
    }

    /** Cancellation is reported before the deadline is looked at. */
    method Checkpoint(now: int) returns (r: Result<(), Spent>)
      ensures r == Err(Cancelled) <==> Abandoned()
      ensures r == Err(Deadline) <==> !Abandoned() && deadline <= now
    {
      if cancel.raised { return Err(Cancelled); }
      for i := 0 to |inherited|
        invariant forall j :: 0 <= j < i ==> !inherited[j].raised
      {
        if inherited[i].raised { return Err(Cancelled); }
      }
      return if deadline > now then Ok(()) else Err(Deadline);
    }

    method Cancel()
      modifies cancel
      ensures cancel.raised
    {
      cancel.raised := true;
    }

    method NarrowedTo(now: int, span: nat, cap: nat) returns (b: Budget)
      ensures fresh(b.cancel) && !b.cancel.raised
      ensures b == Budget(now, if now + span <= deadline then now + span else deadline, cap,
                          b.cancel, inherited + [cancel])
    {
      var lent := inherited + [cancel];
      var own := Until(now, if now + span <= deadline then now + span else deadline, cap);
      b := own.(inherited := lent);
    }
  }

  method Until(now: int, deadline: int, cap: nat) returns (b: Budget)
    ensures fresh(b.cancel) && !b.cancel.raised
    ensures b == Budget(now, deadline, cap, b.cancel, [])
  {
    var flag := new Flag();
    b := Budget(now, deadline, cap, flag, []);
  }

  // ---- What a history of budgets means, flags aside -----------------------------------

  /** How a budget came to be; budgets are named by the order they were made in. */
  datatype Origin = Fresh(deadline: int, cap: nat) | Within(parent: nat, until: int, cap: nat) | Copy(of: nat)

  datatype Event =
    | Mint(now: int, deadline: int, cap: nat)
    | Narrow(of: nat, now: int, span: nat, cap: nat)
    | Clone(of: nat)
    | Cancel(of: nat)

  function OriginOf(e: Event): seq<Origin> {
    match e
    case Mint(_, deadline, cap) => [Fresh(deadline, cap)]
    case Narrow(of, now, span, cap) => [Within(of, now + span, cap)]
    case Clone(of) => [Copy(of)]
    case Cancel(_) => []
  }

  function Made(events: seq<Event>): seq<Origin> {
    if events == [] then [] else Made(events[..|events| - 1]) + OriginOf(events[|events| - 1])
  }

  /** Every budget comes from an earlier one. */
  ghost predicate Rooted(made: seq<Origin>) {
    forall b :: 0 <= b < |made| ==>
      match made[b]
      case Fresh(_, _) => true
      case Within(parent, _, _) => parent < b
      case Copy(of) => of < b
  }

  predicate Names(e: Event, count: nat) { e.Mint? || e.of < count }

  /** Only budgets already made are used. */
  ghost predicate Playable(events: seq<Event>) {
    forall i :: 0 <= i < |events| ==> Names(events[i], |Made(events[..i])|)
  }

  /** The budget a copy is a copy of. */
  function Stem(made: seq<Origin>, b: nat): (s: nat)
    requires Rooted(made) && b < |made|
    ensures s <= b
  {
    if made[b].Copy? then Stem(made, made[b].of) else b
  }

  /** The budgets whose cancellation a budget is to hear: the line it was narrowed
      along, and last its own. A copy hears what its original hears. */
  function Line(made: seq<Origin>, b: nat): (s: seq<nat>)
    requires Rooted(made) && b < |made|
    ensures s != [] && s[|s| - 1] == Stem(made, b)
    ensures forall k :: 0 <= k < |s| ==> s[k] <= Stem(made, b)
  {
    match made[b]
    case Fresh(_, _) => [b]
    case Within(parent, _, _) => Line(made, parent) + [b]
    case Copy(of) => Line(made, of)
  }

  function DeadlineOf(made: seq<Origin>, b: nat): int
    requires Rooted(made) && b < |made|
  {
    match made[b]
    case Fresh(deadline, _) => deadline
    case Within(parent, until, _) =>
      var above := DeadlineOf(made, parent);
      if until <= above then until else above
    case Copy(of) => DeadlineOf(made, of)
  }

  function CapOf(made: seq<Origin>, b: nat): nat
    requires Rooted(made) && b < |made|
  {
    match made[b]
    case Copy(of) => CapOf(made, of)
    case o => o.cap
  }

  /** The budgets cancelled, each by any of its copies. */
  function Cancels(made: seq<Origin>, events: seq<Event>): set<nat>
    requires Rooted(made)
  {
    if events == [] then {}
    else AlsoCancels(made, Cancels(made, events[..|events| - 1]), events[|events| - 1])
  }

  function AlsoCancels(made: seq<Origin>, cancelled: set<nat>, e: Event): set<nat>
    requires Rooted(made)
  {
    if e.Cancel? && e.of < |made| then cancelled + {Stem(made, e.of)} else cancelled
  }

  /** No budget outlasts any budget in the line above it. */
  lemma {:induction false} NoBudgetOutlastsItsLine(made: seq<Origin>, b: nat, above: nat)
    requires Rooted(made) && b < |made| && above in Line(made, b)
    ensures DeadlineOf(made, b) <= DeadlineOf(made, above)
    decreases b
  {
    match made[b]
    case Fresh(_, _) =>
    case Within(parent, _, _) => if above != b { NoBudgetOutlastsItsLine(made, parent, above); }
    case Copy(of) => NoBudgetOutlastsItsLine(made, of, above);
  }

  lemma {:induction false} LineAreStems(made: seq<Origin>, b: nat, above: nat)
    requires Rooted(made) && b < |made| && above in Line(made, b)
    ensures Stem(made, above) == above && Line(made, above) <= Line(made, b)
    decreases b
  {
    match made[b]
    case Fresh(_, _) =>
    case Within(parent, _, _) => if above != b { LineAreStems(made, parent, above); }
    case Copy(of) => LineAreStems(made, of, above);
  }

  /** Cancellation runs down the line, never up: of two different budgets at most
      one hears the other. */
  lemma NeverUp(made: seq<Origin>, b: nat, above: nat)
    requires Rooted(made) && b < |made| && above in Line(made, b) && above != Stem(made, b)
    ensures Stem(made, b) !in Line(made, above)
  {
    LineAreStems(made, b, above);
  }

  // ---- The flags do what the history means ----------------------------------------------

  /** A budget's flags are those of its line, and its own last. */
  ghost predicate Carries(made: seq<Origin>, flags: seq<Flag>, b: Budget, n: nat)
    requires Rooted(made) && n < |flags| <= |made|
  {
    var line := Line(made, n);
    && b.deadline == DeadlineOf(made, n) && b.cap == CapOf(made, n)
    && b.cancel == flags[n] == flags[Stem(made, n)]
    && |b.inherited| == |line| - 1
    && forall k :: 0 <= k < |b.inherited| ==> b.inherited[k] == flags[line[k]]
  }

  ghost predicate AllCarry(made: seq<Origin>, flags: seq<Flag>, budgets: seq<Budget>)
    requires Rooted(made)
  {
    |flags| == |budgets| <= |made| && forall n :: 0 <= n < |budgets| ==> Carries(made, flags, budgets[n], n)
  }

  /** Copies share a flag, and no others do. */
  ghost predicate Apart(made: seq<Origin>, flags: seq<Flag>)
    requires Rooted(made) && |flags| <= |made|
  {
    forall b, c :: 0 <= b < |flags| && 0 <= c < |flags| && flags[b] == flags[c] ==> Stem(made, b) == Stem(made, c)
  }

  ghost predicate Signals(made: seq<Origin>, flags: seq<Flag>, cancelled: set<nat>)
    requires Rooted(made) && |flags| <= |made|
    reads flags
  {
    forall b :: 0 <= b < |flags| ==> (flags[b].raised <==> Stem(made, b) in cancelled)
  }

  /** A budget is to hear that one of its line was cancelled. */
  ghost predicate Hears(made: seq<Origin>, cancelled: set<nat>, b: nat)
    requires Rooted(made) && b < |made|
  {
    exists c :: c in Line(made, b) && c in cancelled
  }

  lemma LineSignals(made: seq<Origin>, flags: seq<Flag>, cancelled: set<nat>, b: nat, k: nat)
    requires Rooted(made) && b < |flags| <= |made| && Signals(made, flags, cancelled) && k < |Line(made, b)|
    ensures flags[Line(made, b)[k]].raised <==> Line(made, b)[k] in cancelled
  {
    LineAreStems(made, b, Line(made, b)[k]);
  }

  /** A budget is abandoned exactly if one of its line was cancelled. */
  lemma AbandonedMeansHeard(made: seq<Origin>, flags: seq<Flag>, x: Budget, cancelled: set<nat>, b: nat)
    requires Rooted(made) && b < |flags| <= |made|
    requires Carries(made, flags, x, b) && Signals(made, flags, cancelled)
    ensures x.Abandoned() <==> Hears(made, cancelled, b)
  {
    var line := Line(made, b);
    var n := |line| - 1;
    LineSignals(made, flags, cancelled, b, n);
    forall k | 0 <= k < n ensures x.inherited[k].raised <==> line[k] in cancelled {
      LineSignals(made, flags, cancelled, b, k);
    }
    if x.Abandoned() && !x.cancel.raised {
      var flag :| flag in x.inherited && flag.raised;
      var k :| 0 <= k < n && x.inherited[k] == flag;
      assert line[k] in line;
    }
    if Hears(made, cancelled, b) {
      var c :| c in line && c in cancelled;
      var k :| 0 <= k <= n && line[k] == c;
      assert k < n ==> x.inherited[k] in x.inherited;
    }
  }

  lemma MadeStep(events: seq<Event>, i: nat)
    requires i < |events|
    ensures Made(events[..i + 1]) == Made(events[..i]) + OriginOf(events[i])
  {
    assert events[..i + 1][..i] == events[..i];
  }

  lemma {:induction false} MadeGrows(events: seq<Event>, i: nat)
    requires i <= |events|
    ensures Made(events[..i]) <= Made(events)
    decreases |events| - i
  {
    if i == |events| {
      assert events[..i] == events;
    } else {
      MadeGrows(events, i + 1);
      MadeStep(events, i);
    }
  }

  lemma {:induction false} PlayableIsRooted(events: seq<Event>)
    requires Playable(events)
    ensures Rooted(Made(events))
    decreases |events|
  {
    if events != [] {
      var n := |events| - 1;
      forall i | 0 <= i < n ensures Names(events[..n][i], |Made(events[..n][..i])|) {
        assert events[..n][..i] == events[..i];
      }
      PlayableIsRooted(events[..n]);
    }
  }

  lemma {:induction false} StemTwice(made: seq<Origin>, b: nat)
    requires Rooted(made) && b < |made|
    ensures Stem(made, Stem(made, b)) == Stem(made, b)
    ensures made[b].Copy? ==> Stem(made, b) < b
    decreases b
  {
    if made[b].Copy? { StemTwice(made, made[b].of); }
  }

  /** One more budget, with a flag of its own unless it is a copy. */
  lemma AllCarryOn(made: seq<Origin>, flags: seq<Flag>, budgets: seq<Budget>, b: Budget)
    requires Rooted(made) && AllCarry(made, flags, budgets) && |budgets| < |made|
    requires Carries(made, flags + [b.cancel], b, |budgets|)
    ensures AllCarry(made, flags + [b.cancel], budgets + [b])
  {
    forall n | 0 <= n < |budgets| ensures Carries(made, flags + [b.cancel], budgets[n], n) {
    }
  }

  lemma ApartOn(made: seq<Origin>, flags: seq<Flag>, flag: Flag)
    requires Rooted(made) && |flags| < |made| && Apart(made, flags)
    requires if made[|flags|].Copy? then flag == flags[made[|flags|].of] else flag !in flags
    ensures Apart(made, flags + [flag])
  {
  }

  lemma NarrowedCarries(made: seq<Origin>, flags: seq<Flag>, parent: Budget, b: Budget)
    requires Rooted(made) && |flags| < |made| && made[|flags|].Within?
    requires Carries(made, flags, parent, made[|flags|].parent)
    requires b.deadline == DeadlineOf(made, |flags|) && b.cap == CapOf(made, |flags|)
    requires b.inherited == parent.inherited + [parent.cancel]
    ensures Carries(made, flags + [b.cancel], b, |flags|)
  {
    var line := Line(made, made[|flags|].parent);
    assert Line(made, |flags|) == line + [|flags|];
  }

  lemma CopyCarries(made: seq<Origin>, flags: seq<Flag>, b: Budget)
    requires Rooted(made) && |flags| < |made| && made[|flags|].Copy?
    requires Carries(made, flags, b, made[|flags|].of)
    ensures Carries(made, flags + [b.cancel], b, |flags|)
  {
    StemTwice(made, |flags|);
  }

  /** The budgets made so far, their flags, and what was cancelled of them. */
  ghost predicate Alive(made: seq<Origin>, flags: seq<Flag>, budgets: seq<Budget>, cancelled: set<nat>)
    requires Rooted(made)
    reads flags
  {
    && AllCarry(made, flags, budgets) && Apart(made, flags) && Signals(made, flags, cancelled)
    && forall c :: c in cancelled ==> c < |budgets|
  }

  lemma AliveOn(made: seq<Origin>, flags: seq<Flag>, budgets: seq<Budget>, cancelled: set<nat>, b: Budget)
    requires Rooted(made) && Alive(made, flags, budgets, cancelled) && |budgets| < |made|
    requires Carries(made, flags + [b.cancel], b, |budgets|)
    requires if made[|flags|].Copy? then b.cancel == flags[made[|flags|].of]
             else b.cancel !in flags && !b.cancel.raised
    ensures Alive(made, flags + [b.cancel], budgets + [b], cancelled)
  {
    AllCarryOn(made, flags, budgets, b);
    ApartOn(made, flags, b.cancel);
  }

  /** Raising one budget's flag raises it for its copies, and for no others. */
  method CancelOne(ghost made: seq<Origin>, ghost flags: seq<Flag>, budgets: seq<Budget>,
                   ghost cancelled: set<nat>, of: nat)
    requires Rooted(made) && Alive(made, flags, budgets, cancelled) && of < |budgets|
    modifies flags
    ensures Alive(made, flags, budgets, cancelled + {Stem(made, of)})
  {
    assert Carries(made, flags, budgets[of], of);
    forall n | 0 <= n < |flags| ensures flags[n] == flags[of] <==> Stem(made, n) == Stem(made, of) {
      assert Carries(made, flags, budgets[n], n);
    }
    budgets[of].Cancel();
  }

  /** Mints, narrows or copies one budget, or cancels one. */
  method PlayOne(ghost made: seq<Origin>, ghost flags: seq<Flag>, budgets: seq<Budget>,
                 ghost cancelled: set<nat>, e: Event)
    returns (budgets': seq<Budget>, ghost flags': seq<Flag>)
    requires Rooted(made) && Alive(made, flags, budgets, cancelled) && Names(e, |budgets|)
    requires !e.Cancel? ==> |budgets| < |made| && OriginOf(e) == [made[|budgets|]]
    modifies flags
    ensures Alive(made, flags', budgets', AlsoCancels(made, cancelled, e))
    ensures |budgets'| == |budgets| + |OriginOf(e)|
    ensures forall k :: 0 <= k < |flags'| ==> flags'[k] in flags || fresh(flags'[k])
  {
    budgets', flags' := budgets, flags;
    match e {
      case Mint(now, deadline, cap) =>
        var b := Until(now, deadline, cap);
        AliveOn(made, flags, budgets, cancelled, b);
        budgets', flags' := budgets + [b], flags + [b.cancel];
      case Narrow(of, now, span, cap) =>
        var b := budgets[of].NarrowedTo(now, span, cap);
        NarrowedCarries(made, flags, budgets[of], b);
        AliveOn(made, flags, budgets, cancelled, b);
        budgets', flags' := budgets + [b], flags + [b.cancel];
      case Clone(of) =>
        CopyCarries(made, flags, budgets[of]);
        AliveOn(made, flags, budgets, cancelled, budgets[of]);
        budgets', flags' := budgets + [budgets[of]], flags + [budgets[of].cancel];
      case Cancel(of) =>
        CancelOne(made, flags, budgets, cancelled, of);
    }
  }

  lemma NextEvent(made: seq<Origin>, events: seq<Event>, i: nat)
    requires Playable(events) && i < |events| && made == Made(events) && Rooted(made)
    ensures var n := |Made(events[..i])|;
            && Names(events[i], n)
            && |Made(events[..i + 1])| == n + |OriginOf(events[i])|
            && (!events[i].Cancel? ==> n < |made| && OriginOf(events[i]) == [made[n]])
    ensures Cancels(made, events[..i + 1]) == AlsoCancels(made, Cancels(made, events[..i]), events[i])
  {
    MadeStep(events, i);
    MadeGrows(events, i + 1);
    assert events[..i + 1][..i] == events[..i];
  }

  /** Brings a history to life. */
  method PlayAll(events: seq<Event>) returns (budgets: seq<Budget>, ghost flags: seq<Flag>)
    requires Playable(events) && Rooted(Made(events))
    ensures |budgets| == |Made(events)|
    ensures Alive(Made(events), flags, budgets, Cancels(Made(events), events))
  {
    ghost var made := Made(events);
    budgets, flags := [], [];
    var i := 0;
    while i < |events|
      invariant i <= |events| && |budgets| == |Made(events[..i])|
      invariant Alive(made, flags, budgets, Cancels(made, events[..i]))
      invariant forall k :: 0 <= k < |flags| ==> fresh(flags[k])
    {
      NextEvent(made, events, i);
      budgets, flags := PlayOne(made, flags, budgets, Cancels(made, events[..i]), events[i]);
      i := i + 1;
    }
    assert events[..|events|] == events;
  }

  /** Over every history of minting, narrowing, copying and cancelling, what a
      budget's own checkpoint says is what the history means. */
  method Play(events: seq<Event>, b: nat, now: int) returns (r: Result<(), Spent>)
    requires Playable(events) && b < |Made(events)|
    ensures Rooted(Made(events))
    ensures r == Err(Cancelled) <==> Hears(Made(events), Cancels(Made(events), events), b)
    ensures r == Err(Deadline) <==> r != Err(Cancelled) && DeadlineOf(Made(events), b) <= now
  {
    PlayableIsRooted(events);
    ghost var flags;
    var budgets;
    budgets, flags := PlayAll(events);
    AbandonedMeansHeard(Made(events), flags, budgets[b], Cancels(Made(events), events), b);
    r := budgets[b].Checkpoint(now);
  }
}
