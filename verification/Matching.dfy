/** Which candidate a wanted coordinate names, and what is reported of it. */
module Matching {
  import opened Wrappers
  import opened Json
  import Text

  type Coord = map<string, string>
  type Want = seq<(string, string)>

  datatype Fragment = Fragment(coord: Coord, facts: Value, id: string)
  datatype Candidate = Candidate(coord: Coord, facts: Value, id: string)

  function Verbatim(f: Fragment): Candidate { Candidate(f.coord, f.facts, f.id) }

  // ---- What a position asks for -------------------------------------------------------

  datatype Refusal = NoCoordinate | NthOut(tied: nat) | TooBroad(tied: nat) | Told(why: string)

  /** The items the position gives a text, in the probe's order. */
  function Given(pos: Value, items: seq<string>): Want {
    if items == [] then []
    else
      (match pos.Get(items[0])
       case Some(Str(v)) => [(items[0], v)]
       case _ => [])
      + Given(pos, items[1..])
  }

  function Wanted(pos: Value, items: seq<string>): Result<Want, Refusal> {
    var want := Given(pos, items);
    if want == [] then Err(NoCoordinate) else Ok(want)
  }

  const U64: nat := 0x1_0000_0000_0000_0000

  function Nth(pos: Value): nat {
    match pos.Get("nth")
    case Some(Int(n)) => if 0 <= n < U64 then n else 0
    case _ => 0
  }

  // ---- Hits --------------------------------------------------------------------------------

  predicate Hits(coord: Coord, pair: (string, string)) { pair.0 in coord && coord[pair.0] == pair.1 }

  predicate Touches(coord: Coord, want: Want) { exists i :: 0 <= i < |want| && Hits(coord, want[i]) }

  function Vector(coord: Coord, want: Want): (v: seq<bool>)
    ensures |v| == |want| && forall i :: 0 <= i < |want| ==> v[i] == Hits(coord, want[i])
  {
    seq(|want|, i requires 0 <= i < |want| => Hits(coord, want[i]))
  }

  /** The order vectors of bools have: lexicographic, with false first. */
  predicate Below(a: seq<bool>, b: seq<bool>) {
    b != [] && (a == [] || (!a[0] && b[0]) || (a[0] == b[0] && Below(a[1..], b[1..])))
  }

  function Declared(want: Want, identity: seq<string>): (d: seq<bool>)
    ensures |d| == |want| && forall i :: 0 <= i < |want| ==> d[i] == (want[i].0 in identity)
  {
    seq(|want|, i requires 0 <= i < |want| => want[i].0 in identity)
  }

  predicate Identifies(v: seq<bool>, declared: seq<bool>)
    requires |v| == |declared|
  {
    if exists i :: 0 <= i < |declared| && declared[i]
    then exists i :: 0 <= i < |v| && v[i] && declared[i]
    else forall i :: 0 <= i < |v| ==> v[i]
  }

  predicate IsEligible(c: Candidate, want: Want, identity: seq<string>) {
    Identifies(Vector(c.coord, want), Declared(want, identity))
  }

  function Eligible(candidates: seq<Candidate>, want: Want, identity: seq<string>): seq<Candidate> {
    if candidates == [] then []
    else
      (if IsEligible(candidates[0], want, identity) then [candidates[0]] else [])
      + Eligible(candidates[1..], want, identity)
  }

  /** The greatest vector. */
  function Best(eligible: seq<Candidate>, want: Want): (best: seq<bool>)
    requires eligible != []
    ensures exists i :: 0 <= i < |eligible| && Vector(eligible[i].coord, want) == best
  {
    var first := Vector(eligible[0].coord, want);
    if |eligible| == 1 then first
    else
      var rest := Best(eligible[1..], want);
      var i :| 0 <= i < |eligible[1..]| && Vector(eligible[1..][i].coord, want) == rest;
      assert eligible[i + 1] == eligible[1..][i];
      if Below(rest, first) then first else rest
  }

  function TiedAt(eligible: seq<Candidate>, want: Want, best: seq<bool>): seq<Candidate> {
    if eligible == [] then []
    else
      (if Vector(eligible[0].coord, want) == best then [eligible[0]] else [])
      + TiedAt(eligible[1..], want, best)
  }

  // ---- The report --------------------------------------------------------------------------

  datatype Report = Report(
    extractor: string,
    found: bool,
    matched: seq<string>,
    missed: seq<string>,
    at: Option<Coord>,
    facts: Value,
    candidates: nat,
    roll: string,
    exact: bool,
    priority: seq<string>)

  const MAX_BYTES: nat := 900_000

  /** The wanted names whose flag is `flag`. */
  function Flagged(want: Want, flags: seq<bool>, flag: bool): seq<string>
    requires |flags| == |want|
  {
    if want == [] then []
    else (if flags[0] == flag then [want[0].0] else []) + Flagged(want[1..], flags[1..], flag)
  }

  function Names(want: Want): seq<string> {
    if want == [] then [] else [want[0].0] + Names(want[1..])
  }

  function Ids(tied: seq<Candidate>): seq<string> {
    if tied == [] then [] else [tied[0].id] + Ids(tied[1..])
  }

  function Roll(tied: seq<Candidate>): string { Text.Join(Text.Sort(Text.ByText, Ids(tied)), "\n") }

  function Absent(extractor: string, want: Want): Report {
    Report(extractor, false, [], Names(want), None, Null, 0, "", false, Names(want))
  }

  function Present(extractor: string, want: Want, best: seq<bool>, tied: seq<Candidate>, pick: Candidate): Report
    requires |best| == |want|
  {
    Report(extractor, true, Flagged(want, best, true), Flagged(want, best, false), Some(pick.coord), pick.facts,
           |tied|, Roll(tied), forall i :: 0 <= i < |best| ==> best[i], Names(want))
  }

  /** The report on the nth of the equally good candidates. `weigh` is the length
      of a report written out. */
  function ReportOn(extractor: string, want: Want, identity: seq<string>, nth: nat,
                    candidates: seq<Candidate>, weigh: Report -> nat): Result<Report, Refusal>
  {
    var eligible := Eligible(candidates, want, identity);
    if eligible == [] then Ok(Absent(extractor, want))
    else
      var best := Best(eligible, want);
      Chosen(extractor, want, best, TiedAt(eligible, want, best), nth, weigh)
  }

  function Chosen(extractor: string, want: Want, best: seq<bool>, tied: seq<Candidate>, nth: nat,
                  weigh: Report -> nat): Result<Report, Refusal>
    requires |best| == |want|
  {
    if nth >= |tied| then Err(NthOut(|tied|))
    else
      var out := Present(extractor, want, best, tied, tied[nth]);
      if weigh(out) > MAX_BYTES then Err(TooBroad(|tied|)) else Ok(out)
  }

  // ---- What the report is of ------------------------------------------------------------------

  /** At the first wanted pair the two differ on, `a` hits and `b` does not. */
  ghost predicate Outdoes(a: Coord, b: Coord, want: Want) {
    exists k :: 0 <= k < |want| && Hits(a, want[k]) && !Hits(b, want[k]) && AgreeBefore(a, b, want, k)
  }

  ghost predicate AgreeBefore(a: Coord, b: Coord, want: Want, k: int)
    requires 0 <= k <= |want|
  {
    forall j :: 0 <= j < k ==> (Hits(a, want[j]) <==> Hits(b, want[j]))
  }

  /** A candidate may be named if it hits some wanted identity item; where no
      identity item is wanted, if it hits everything wanted. */
  ghost predicate MayBeNamed(c: Candidate, want: Want, identity: seq<string>) {
    if exists i :: 0 <= i < |want| && want[i].0 in identity
    then exists i :: 0 <= i < |want| && want[i].0 in identity && Hits(c.coord, want[i])
    else forall i :: 0 <= i < |want| ==> Hits(c.coord, want[i])
  }

  /** A candidate that may be named and that no other such outdoes. */
  ghost predicate Wins(c: Candidate, among: seq<Candidate>, want: Want, identity: seq<string>) {
    && MayBeNamed(c, want, identity)
    && forall d :: d in among && MayBeNamed(d, want, identity) ==> !Outdoes(d.coord, c.coord, want)
  }

  /** The winners in corpus order. */
  ghost function Winners(part: seq<Candidate>, among: seq<Candidate>, want: Want,
                         identity: seq<string>): seq<Candidate>
  {
    if part == [] then []
    else
      (if Wins(part[0], among, want, identity) then [part[0]] else []) + Winners(part[1..], among, want, identity)
  }

  lemma EligibleMayBeNamed(c: Candidate, want: Want, identity: seq<string>)
    ensures IsEligible(c, want, identity) <==> MayBeNamed(c, want, identity)
  {
    var v, d := Vector(c.coord, want), Declared(want, identity);
    if i :| 0 <= i < |want| && want[i].0 in identity { assert d[i]; }
    if i :| 0 <= i < |v| && v[i] && d[i] { assert want[i].0 in identity && Hits(c.coord, want[i]); }
    if i :| 0 <= i < |want| && want[i].0 in identity && Hits(c.coord, want[i]) { assert v[i] && d[i]; }
  }

  /** The order of vectors is by the first difference. */
  lemma {:induction false} BelowAtDifference(a: seq<bool>, b: seq<bool>)
    requires |a| == |b|
    ensures Below(a, b) <==> exists k :: 0 <= k < |a| && !a[k] && b[k] && a[..k] == b[..k]
  {
    if a != [] {
      BelowAtDifference(a[1..], b[1..]);
      if Below(a, b) {
        if a[0] == b[0] {
          var k :| 0 <= k < |a[1..]| && !a[1..][k] && b[1..][k] && a[1..][..k] == b[1..][..k];
          assert a[..k + 1] == [a[0]] + a[1..][..k] && b[..k + 1] == [b[0]] + b[1..][..k];
          assert !a[k + 1] && b[k + 1];
        } else {
          assert a[..0] == b[..0];
        }
      }
      if k :| 0 <= k < |a| && !a[k] && b[k] && a[..k] == b[..k] {
        if k > 0 {
          assert a[0] == a[..k][0] == b[..k][0] == b[0];
          assert a[1..][..k - 1] == a[..k][1..] && b[1..][..k - 1] == b[..k][1..];
          assert !a[1..][k - 1] && b[1..][k - 1];
        }
      }
    }
  }

  lemma OutdoesIsAbove(a: Coord, b: Coord, want: Want)
    ensures Outdoes(a, b, want) <==> Below(Vector(b, want), Vector(a, want))
  {
    var u, v := Vector(b, want), Vector(a, want);
    BelowAtDifference(u, v);
    if k :| 0 <= k < |want| && Hits(a, want[k]) && !Hits(b, want[k]) && AgreeBefore(a, b, want, k) {
      assert !u[k] && v[k] && u[..k] == v[..k];
    }
    if k :| 0 <= k < |u| && !u[k] && v[k] && u[..k] == v[..k] {
      forall j | 0 <= j < k ensures Hits(a, want[j]) <==> Hits(b, want[j]) {
        assert u[..k][j] == u[j] && v[..k][j] == v[j];
      }
      assert AgreeBefore(a, b, want, k);
    }
  }

  lemma {:induction false} BelowTotal(a: seq<bool>, b: seq<bool>)
    requires |a| == |b|
    ensures a == b || Below(a, b) || Below(b, a)
    ensures !(Below(a, b) && Below(b, a))
    ensures a == b ==> !Below(a, b)
  {
    if a != [] {
      BelowTotal(a[1..], b[1..]);
      assert a == [a[0]] + a[1..] && b == [b[0]] + b[1..];
    }
  }

  lemma {:induction false} BelowTransitive(a: seq<bool>, b: seq<bool>, c: seq<bool>)
    requires |a| == |b| == |c| && !Below(b, a) && !Below(c, b)
    ensures !Below(c, a)
  {
    if a != [] && a[0] == b[0] == c[0] { BelowTransitive(a[1..], b[1..], c[1..]); }
  }

  lemma {:induction false} BestIsGreatest(eligible: seq<Candidate>, want: Want, i: nat)
    requires i < |eligible|
    ensures !Below(Best(eligible, want), Vector(eligible[i].coord, want))
  {
    var first := Vector(eligible[0].coord, want);
    BelowTotal(first, first);
    if |eligible| > 1 {
      var rest := Best(eligible[1..], want);
      BelowTotal(first, rest);
      if i > 0 {
        BestIsGreatest(eligible[1..], want, i - 1);
        if Below(rest, first) { BelowTransitive(Vector(eligible[i].coord, want), rest, first); }
      }
    }
  }

  lemma {:induction false} EligibleHolds(candidates: seq<Candidate>, want: Want, identity: seq<string>, c: Candidate)
    ensures c in Eligible(candidates, want, identity) <==> c in candidates && IsEligible(c, want, identity)
  {
    if candidates != [] { EligibleHolds(candidates[1..], want, identity, c); }
  }

  /** Having the best vector is winning. */
  lemma BestWins(c: Candidate, candidates: seq<Candidate>, want: Want, identity: seq<string>)
    requires Eligible(candidates, want, identity) != [] && IsEligible(c, want, identity) && c in candidates
    ensures Wins(c, candidates, want, identity) <==>
            Vector(c.coord, want) == Best(Eligible(candidates, want, identity), want)
  {
    var eligible := Eligible(candidates, want, identity);
    var best := Best(eligible, want);
    var v := Vector(c.coord, want);
    EligibleMayBeNamed(c, want, identity);
    EligibleHolds(candidates, want, identity, c);
    var at :| 0 <= at < |eligible| && eligible[at] == c;
    BestIsGreatest(eligible, want, at);
    BelowTotal(v, best);
    if v == best {
      forall d | d in candidates && MayBeNamed(d, want, identity) ensures !Outdoes(d.coord, c.coord, want) {
        EligibleMayBeNamed(d, want, identity);
        EligibleHolds(candidates, want, identity, d);
        var i :| 0 <= i < |eligible| && eligible[i] == d;
        BestIsGreatest(eligible, want, i);
        OutdoesIsAbove(d.coord, c.coord, want);
      }
    } else {
      var i :| 0 <= i < |eligible| && Vector(eligible[i].coord, want) == best;
      var d := eligible[i];
      EligibleHolds(candidates, want, identity, d);
      EligibleMayBeNamed(d, want, identity);
      OutdoesIsAbove(d.coord, c.coord, want);
    }
  }

  lemma {:induction false} TiedAreWinners(part: seq<Candidate>, candidates: seq<Candidate>, want: Want,
                                          identity: seq<string>)
    requires Eligible(candidates, want, identity) != [] && forall c :: c in part ==> c in candidates
    ensures TiedAt(Eligible(part, want, identity), want, Best(Eligible(candidates, want, identity), want))
            == Winners(part, candidates, want, identity)
  {
    if part != [] {
      var c := part[0];
      var best := Best(Eligible(candidates, want, identity), want);
      TiedAreWinners(part[1..], candidates, want, identity);
      EligibleMayBeNamed(c, want, identity);
      var rest := Eligible(part[1..], want, identity);
      if IsEligible(c, want, identity) {
        BestWins(c, candidates, want, identity);
        assert Eligible(part, want, identity)[1..] == rest;
      } else {
        assert Eligible(part, want, identity) == rest;
      }
    }
  }

  /** What a report says, of a list of winners and the nth of them. */
  ghost predicate Describes(out: Report, extractor: string, want: Want, winners: seq<Candidate>, pick: Candidate) {
    && out.extractor == extractor && out.found && out.at == Some(pick.coord) && out.facts == pick.facts
    && out.candidates == |winners| && out.roll == Roll(winners) && out.priority == Names(want)
    && out.matched == Flagged(want, Vector(pick.coord, want), true)
    && out.missed == Flagged(want, Vector(pick.coord, want), false)
    && (out.exact <==> forall i :: 0 <= i < |want| ==> Hits(pick.coord, want[i]))
  }

  lemma {:induction false} WinnersEmpty(part: seq<Candidate>, among: seq<Candidate>, want: Want, identity: seq<string>)
    requires Eligible(part, want, identity) == []
    ensures Winners(part, among, want, identity) == []
  {
    if part != [] {
      EligibleMayBeNamed(part[0], want, identity);
      WinnersEmpty(part[1..], among, want, identity);
    }
  }

  lemma {:induction false} TiedHolds(eligible: seq<Candidate>, want: Want, best: seq<bool>, i: nat)
    requires i < |TiedAt(eligible, want, best)|
    ensures Vector(TiedAt(eligible, want, best)[i].coord, want) == best
  {
    if Vector(eligible[0].coord, want) == best {
      if i > 0 { TiedHolds(eligible[1..], want, best, i - 1); }
    } else {
      TiedHolds(eligible[1..], want, best, i);
    }
  }

  lemma {:induction false} TiedNonEmpty(eligible: seq<Candidate>, want: Want, best: seq<bool>, i: nat)
    requires i < |eligible| && Vector(eligible[i].coord, want) == best
    ensures TiedAt(eligible, want, best) != []
  {
    if i > 0 { TiedNonEmpty(eligible[1..], want, best, i - 1); }
  }

  /** How an outcome follows from the winners. */
  ghost predicate IsOf(r: Result<Report, Refusal>, extractor: string, want: Want, winners: seq<Candidate>, nth: nat,
                       weigh: Report -> nat)
  {
    match r
    case Ok(out) =>
      if winners == [] then out == Absent(extractor, want)
      else nth < |winners| && Describes(out, extractor, want, winners, winners[nth]) && weigh(out) <= MAX_BYTES
    case Err(NthOut(n)) => n == |winners| && 0 < n <= nth
    case Err(TooBroad(n)) =>
      && n == |winners| && nth < n
      && exists out :: Describes(out, extractor, want, winners, winners[nth]) && weigh(out) > MAX_BYTES
    case Err(_) => false
  }

  lemma ChosenIsOf(extractor: string, want: Want, best: seq<bool>, tied: seq<Candidate>, nth: nat, weigh: Report -> nat)
    requires |best| == |want| && tied != []
    requires nth < |tied| ==> Vector(tied[nth].coord, want) == best
    ensures IsOf(Chosen(extractor, want, best, tied, nth, weigh), extractor, want, tied, nth, weigh)
  {
    if nth < |tied| {
      var out := Present(extractor, want, best, tied, tied[nth]);
      assert out.exact <==> forall i :: 0 <= i < |want| ==> best[i];
      assert Describes(out, extractor, want, tied, tied[nth]);
    }
  }

  /** The report is on the nth winner; there being winners but fewer is refused,
      and there being none is an answer. */
  lemma ReportIsOnTheNthWinner(extractor: string, want: Want, identity: seq<string>, nth: nat,
                               candidates: seq<Candidate>, weigh: Report -> nat)
    ensures IsOf(ReportOn(extractor, want, identity, nth, candidates, weigh), extractor, want,
                 Winners(candidates, candidates, want, identity), nth, weigh)
  {
    var eligible := Eligible(candidates, want, identity);
    if eligible == [] {
      WinnersEmpty(candidates, candidates, want, identity);
    } else {
      TiedAreWinners(candidates, candidates, want, identity);
      var best := Best(eligible, want);
      var tied := TiedAt(eligible, want, best);
      var i :| 0 <= i < |eligible| && Vector(eligible[i].coord, want) == best;
      TiedNonEmpty(eligible, want, best, i);
      if nth < |tied| { TiedHolds(eligible, want, best, nth); }
      ChosenIsOf(extractor, want, best, tied, nth, weigh);
    }
  }

  lemma {:induction false} FlaggedPartition(want: Want, flags: seq<bool>)
    requires |flags| == |want|
    ensures multiset(Flagged(want, flags, true)) + multiset(Flagged(want, flags, false)) == multiset(Names(want))
  {
    if want != [] { FlaggedPartition(want[1..], flags[1..]); }
  }

  lemma {:induction false} FlaggedHolds(want: Want, flags: seq<bool>, i: nat)
    requires |flags| == |want| && i < |want|
    ensures want[i].0 in Flagged(want, flags, flags[i])
  {
    if i > 0 { FlaggedHolds(want[1..], flags[1..], i - 1); }
  }

  lemma {:induction false} FlaggedFrom(want: Want, flags: seq<bool>, flag: bool, name: string) returns (i: nat)
    requires |flags| == |want| && name in Flagged(want, flags, flag)
    ensures i < |want| && want[i].0 == name && flags[i] == flag
  {
    if flags[0] == flag && want[0].0 == name {
      i := 0;
    } else {
      i := FlaggedFrom(want[1..], flags[1..], flag, name);
      i := i + 1;
    }
  }

  /** What is matched and what is missed make up what was wanted. A name is
      matched where the reported candidate hits its pair, and missed where not. */
  lemma MatchedAndMissedPartition(out: Report, extractor: string, want: Want, winners: seq<Candidate>, pick: Candidate)
    requires Describes(out, extractor, want, winners, pick)
    ensures multiset(out.matched) + multiset(out.missed) == multiset(out.priority)
    ensures forall i :: 0 <= i < |want| ==>
              want[i].0 in (if Hits(pick.coord, want[i]) then out.matched else out.missed)
    ensures forall name :: name in out.matched ==>
      exists i :: 0 <= i < |want| && want[i].0 == name && Hits(pick.coord, want[i])
    ensures forall name :: name in out.missed ==>
      exists i :: 0 <= i < |want| && want[i].0 == name && !Hits(pick.coord, want[i])
  {
    var v := Vector(pick.coord, want);
    FlaggedPartition(want, v);
    forall i | 0 <= i < |want| ensures want[i].0 in (if Hits(pick.coord, want[i]) then out.matched else out.missed) {
      FlaggedHolds(want, v, i);
    }
    forall name | name in out.matched
      ensures exists i :: 0 <= i < |want| && want[i].0 == name && Hits(pick.coord, want[i])
    {
      var i := FlaggedFrom(want, v, true, name);
    }
    forall name | name in out.missed
      ensures exists i :: 0 <= i < |want| && want[i].0 == name && !Hits(pick.coord, want[i])
    {
      var i := FlaggedFrom(want, v, false, name);
    }
  }

  // ---- What the report does not depend on --------------------------------------------------------

  /** Two corpora with the same eligible candidates, however ordered. */
  ghost predicate SameEligible(a: seq<Candidate>, b: seq<Candidate>, want: Want, identity: seq<string>) {
    multiset(Eligible(a, want, identity)) == multiset(Eligible(b, want, identity))
  }

  ghost predicate SameStanding(a: Report, b: Report) {
    && a.found == b.found && a.matched == b.matched && a.missed == b.missed && a.candidates == b.candidates
    && a.roll == b.roll && a.exact == b.exact && a.priority == b.priority
  }

  lemma {:induction false} BestOfSame(a: seq<Candidate>, b: seq<Candidate>, want: Want)
    requires a != [] && b != [] && multiset(a) == multiset(b)
    ensures Best(a, want) == Best(b, want)
  {
    Text.SameLength(a, b);
    var i :| 0 <= i < |a| && Vector(a[i].coord, want) == Best(a, want);
    var j :| 0 <= j < |b| && Vector(b[j].coord, want) == Best(b, want);
    assert a[i] in b && b[j] in a;
    var k :| 0 <= k < |b| && b[k] == a[i];
    var l :| 0 <= l < |a| && a[l] == b[j];
    BestIsGreatest(b, want, k);
    BestIsGreatest(a, want, l);
    BelowTotal(Best(a, want), Best(b, want));
  }

  lemma {:induction false} TiedCount(eligible: seq<Candidate>, want: Want, best: seq<bool>, x: Candidate)
    ensures multiset(TiedAt(eligible, want, best))[x] ==
            if Vector(x.coord, want) == best then multiset(eligible)[x] else 0
  {
    if eligible != [] {
      TiedCount(eligible[1..], want, best, x);
      assert eligible == [eligible[0]] + eligible[1..];
    }
  }

  lemma TiedOfSame(a: seq<Candidate>, b: seq<Candidate>, want: Want, best: seq<bool>)
    requires multiset(a) == multiset(b)
    ensures multiset(TiedAt(a, want, best)) == multiset(TiedAt(b, want, best))
  {
    forall x ensures multiset(TiedAt(a, want, best))[x] == multiset(TiedAt(b, want, best))[x] {
      TiedCount(a, want, best, x);
      TiedCount(b, want, best, x);
    }
  }

  lemma {:induction false} IdsWithout(s: seq<Candidate>, j: nat)
    requires j < |s|
    ensures |Ids(s)| == |s| && Ids(s)[j] == s[j].id && Ids(Text.Without(s, j)) == Text.Without(Ids(s), j)
  {
    IdsLength(s);
    if j > 0 {
      IdsWithout(s[1..], j - 1);
      var rest := Text.Without(s[1..], j - 1);
      assert ([s[0]] + rest)[1..] == rest;
      assert Ids(s)[1..] == Ids(s[1..]);
    }
  }

  lemma {:induction false} IdsLength(s: seq<Candidate>)
    ensures |Ids(s)| == |s|
  {
    if s != [] { IdsLength(s[1..]); }
  }

  lemma {:induction false} IdsOfSame(a: seq<Candidate>, b: seq<Candidate>)
    requires multiset(a) == multiset(b)
    ensures multiset(Ids(a)) == multiset(Ids(b))
    decreases |a|
  {
    Text.SameLength(a, b);
    if a != [] {
      assert a[0] in b;
      var j :| 0 <= j < |b| && b[j] == a[0];
      Text.WithoutSame(a, 0, b, j);
      IdsOfSame(Text.Without(a, 0), Text.Without(b, j));
      IdsWithout(a, 0);
      IdsWithout(b, j);
      Text.WithSame(Ids(a), 0, Ids(b), j);
    }
  }

  /** The roll does not depend on the order of the tied. */
  lemma RollOfSame(a: seq<Candidate>, b: seq<Candidate>)
    requires multiset(a) == multiset(b)
    ensures Roll(a) == Roll(b)
  {
    IdsOfSame(a, b);
    var x, y := Text.Sort(Text.ByText, Ids(a)), Text.Sort(Text.ByText, Ids(b));
    Text.ByTextIsWeakOrder();
    Text.SortSorted(Text.ByText, Ids(a));
    Text.SortSorted(Text.ByText, Ids(b));
    Text.ByTextSeparates(x);
    Text.OneSortedOrder(Text.ByText, x, y);
  }

  /** The same but for which of the tied is reported, on which alone it depends
      whether the report is too long. */
  ghost predicate SameOutcome(r: Result<Report, Refusal>, s: Result<Report, Refusal>) {
    match (r, s)
    case (Ok(x), Ok(y)) => SameStanding(x, y)
    case (Ok(x), Err(TooBroad(n))) => x.candidates == n
    case (Err(TooBroad(n)), Ok(x)) => x.candidates == n
    case (Err(x), Err(y)) => x == y
    case _ => false
  }

  lemma ChosenOfSame(extractor: string, want: Want, best: seq<bool>, nth: nat,
                     a: seq<Candidate>, b: seq<Candidate>, weigh: Report -> nat)
    requires |best| == |want| && multiset(a) == multiset(b)
    ensures SameOutcome(Chosen(extractor, want, best, a, nth, weigh), Chosen(extractor, want, best, b, nth, weigh))
  {
    Text.SameLength(a, b);
    RollOfSame(a, b);
  }

  /** Reordering a corpus, or adding candidates that are not eligible, changes
      neither how many are tied nor anything a report says but which of the tied
      it is of. */
  lemma OnlyTheEligibleCount(extractor: string, want: Want, identity: seq<string>, nth: nat,
                             a: seq<Candidate>, b: seq<Candidate>, weigh: Report -> nat)
    requires SameEligible(a, b, want, identity)
    ensures SameOutcome(ReportOn(extractor, want, identity, nth, a, weigh),
                        ReportOn(extractor, want, identity, nth, b, weigh))
  {
    var p, q := Eligible(a, want, identity), Eligible(b, want, identity);
    Text.SameLength(p, q);
    if p != [] {
      BestOfSame(p, q, want);
      TiedOfSame(p, q, want, Best(p, want));
      ChosenOfSame(extractor, want, Best(p, want), nth, TiedAt(p, want, Best(p, want)),
        TiedAt(q, want, Best(p, want)), weigh);
    }
  }

  lemma {:induction false} EligibleCount(candidates: seq<Candidate>, want: Want, identity: seq<string>, x: Candidate)
    ensures multiset(Eligible(candidates, want, identity))[x] ==
            if IsEligible(x, want, identity) then multiset(candidates)[x] else 0
  {
    if candidates != [] {
      EligibleCount(candidates[1..], want, identity, x);
      assert candidates == [candidates[0]] + candidates[1..];
    }
  }

  /** A corpus, any rearrangement of it, and any of its extensions by candidates
      that may not be named, have the same eligible candidates. */
  lemma RearrangedAndExtended(a: seq<Candidate>, b: seq<Candidate>, more: seq<Candidate>, want: Want,
                              identity: seq<string>)
    requires multiset(b) == multiset(a) + multiset(more)
    requires forall c :: c in more ==> !MayBeNamed(c, want, identity)
    ensures SameEligible(a, b, want, identity)
  {
    var p, q := multiset(Eligible(a, want, identity)), multiset(Eligible(b, want, identity));
    forall x ensures p[x] == q[x] {
      EligibleCount(a, want, identity, x);
      EligibleCount(b, want, identity, x);
      EligibleMayBeNamed(x, want, identity);
      assert x in more <==> x in multiset(more);
    }
  }

  /** A report depends on nothing but the eligible candidates in their order. */
  lemma SameEligibleSameReport(extractor: string, want: Want, identity: seq<string>, nth: nat,
                               a: seq<Candidate>, b: seq<Candidate>, weigh: Report -> nat)
    requires Eligible(a, want, identity) == Eligible(b, want, identity)
    ensures ReportOn(extractor, want, identity, nth, a, weigh) == ReportOn(extractor, want, identity, nth, b, weigh)
  {
  }

  // ---- Exactly what a report depends on ----------------------------------------------------------

  /** Winners no report tells apart: the same coordinates and facts one after another,
      and the same roll. */
  ghost predicate Alike(a: seq<Candidate>, b: seq<Candidate>) {
    && |a| == |b| && Roll(a) == Roll(b)
    && forall i :: 0 <= i < |a| ==> a[i].coord == b[i].coord && a[i].facts == b[i].facts
  }

  ghost predicate SameReports(extractor: string, want: Want, identity: seq<string>, a: seq<Candidate>,
                              b: seq<Candidate>)
  {
    forall nth: nat, weigh: Report -> nat ::
      ReportOn(extractor, want, identity, nth, a, weigh) == ReportOn(extractor, want, identity, nth, b, weigh)
  }

  lemma OneDescription(x: Report, y: Report, extractor: string, want: Want, a: seq<Candidate>, b: seq<Candidate>,
                       i: nat)
    requires Alike(a, b) && i < |a|
    requires Describes(x, extractor, want, a, a[i]) && Describes(y, extractor, want, b, b[i])
    ensures x == y
  {
  }

  lemma OneOutcome(r: Result<Report, Refusal>, s: Result<Report, Refusal>, extractor: string, want: Want,
                   a: seq<Candidate>, b: seq<Candidate>, nth: nat, weigh: Report -> nat)
    requires Alike(a, b) && IsOf(r, extractor, want, a, nth, weigh) && IsOf(s, extractor, want, b, nth, weigh)
    ensures r == s
  {
    forall x, y | nth < |a| && Describes(x, extractor, want, a, a[nth]) && Describes(y, extractor, want, b, b[nth])
      ensures x == y
    {
      OneDescription(x, y, extractor, want, a, b, nth);
    }
  }

  function Unlimited(out: Report): nat { 0 }

  /** What is told of the winner asked for, with nothing too long to tell. */
  ghost predicate Tells(r: Result<Report, Refusal>, extractor: string, want: Want, winners: seq<Candidate>, i: nat) {
    && (r.Ok? <==> winners == [] || i < |winners|)
    && (r.Ok? && winners == [] ==> r.value == Absent(extractor, want))
    && (r.Ok? && winners != [] ==> Describes(r.value, extractor, want, winners, winners[i]))
  }

  /** With nothing too long to say, the report is of the winner asked for. */
  lemma Unweighed(extractor: string, want: Want, identity: seq<string>, nth: nat, candidates: seq<Candidate>)
    ensures Tells(ReportOn(extractor, want, identity, nth, candidates, Unlimited), extractor, want,
                  Winners(candidates, candidates, want, identity), nth)
  {
    ReportIsOnTheNthWinner(extractor, want, identity, nth, candidates, Unlimited);
  }

  /** The same is reported of two corpora, whichever of the tied is asked for, exactly
      if their winners are alike. */
  lemma ReportsTellWinnersApart(extractor: string, want: Want, identity: seq<string>, a: seq<Candidate>,
                                b: seq<Candidate>)
    ensures SameReports(extractor, want, identity, a, b) <==>
            Alike(Winners(a, a, want, identity), Winners(b, b, want, identity))
  {
    var v, w := Winners(a, a, want, identity), Winners(b, b, want, identity);
    if Alike(v, w) {
      forall nth: nat, weigh: Report -> nat
        ensures ReportOn(extractor, want, identity, nth, a, weigh) == ReportOn(extractor, want, identity, nth, b, weigh)
      {
        ReportIsOnTheNthWinner(extractor, want, identity, nth, a, weigh);
        ReportIsOnTheNthWinner(extractor, want, identity, nth, b, weigh);
        OneOutcome(ReportOn(extractor, want, identity, nth, a, weigh),
                   ReportOn(extractor, want, identity, nth, b, weigh),
                   extractor, want, v, w, nth, weigh);
      }
    }
    if SameReports(extractor, want, identity, a, b) { SameReportsAlike(extractor, want, identity, a, b); }
  }

  lemma SameReportsAlike(extractor: string, want: Want, identity: seq<string>, a: seq<Candidate>, b: seq<Candidate>)
    requires SameReports(extractor, want, identity, a, b)
    ensures Alike(Winners(a, a, want, identity), Winners(b, b, want, identity))
  {
    var v, w := Winners(a, a, want, identity), Winners(b, b, want, identity);
    if v == [] && w == [] {
      assert Alike(v, w);
    } else {
      WinnersTold(extractor, want, identity, 0, a, b);
      forall i | 0 <= i < |v| ensures v[i].coord == w[i].coord && v[i].facts == w[i].facts {
        WinnersTold(extractor, want, identity, i, a, b);
      }
    }
  }

  lemma WinnersTold(extractor: string, want: Want, identity: seq<string>, i: nat, a: seq<Candidate>, b: seq<Candidate>)
    requires SameReports(extractor, want, identity, a, b)
    requires i < |Winners(a, a, want, identity)| || i < |Winners(b, b, want, identity)|
    ensures var v, w := Winners(a, a, want, identity), Winners(b, b, want, identity);
            && |v| == |w| && Roll(v) == Roll(w) && v[i].coord == w[i].coord && v[i].facts == w[i].facts
  {
    var v, w := Winners(a, a, want, identity), Winners(b, b, want, identity);
    var r := ToldAlike(extractor, want, identity, i, a, b);
    Described(r, extractor, want, v, w, i);
  }

  lemma ToldAlike(extractor: string, want: Want, identity: seq<string>, i: nat, a: seq<Candidate>, b: seq<Candidate>)
    returns (r: Result<Report, Refusal>)
    requires SameReports(extractor, want, identity, a, b)
    ensures Tells(r, extractor, want, Winners(a, a, want, identity), i)
    ensures Tells(r, extractor, want, Winners(b, b, want, identity), i)
  {
    r := ReportOn(extractor, want, identity, i, a, Unlimited);
    SameHere(extractor, want, identity, i, a, b, Unlimited);
    Unweighed(extractor, want, identity, i, a);
    Unweighed(extractor, want, identity, i, b);
  }

  lemma SameHere(extractor: string, want: Want, identity: seq<string>, nth: nat, a: seq<Candidate>, b: seq<Candidate>,
                 weigh: Report -> nat)
    requires SameReports(extractor, want, identity, a, b)
    ensures ReportOn(extractor, want, identity, nth, a, weigh) == ReportOn(extractor, want, identity, nth, b, weigh)
  {
  }

  lemma Described(r: Result<Report, Refusal>, extractor: string, want: Want, v: seq<Candidate>, w: seq<Candidate>,
                  i: nat)
    requires Tells(r, extractor, want, v, i) && Tells(r, extractor, want, w, i) && (i < |v| || i < |w|)
    ensures |v| == |w| && Roll(v) == Roll(w) && v[i].coord == w[i].coord && v[i].facts == w[i].facts
  {
  }
}
