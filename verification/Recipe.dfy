/** Looking a position up in a corpus, on as few fragments as may be. */
module Looking {
  import opened Wrappers
  import opened Json
  import opened Bridging
  import opened Corpus
  import opened Index
  import opened Matching
  import opened Refresh
  import opened Sqlite
  import opened Walk
  import Text

  // ---- From fragments to a report ----------------------------------------------------

  /** The wanted pairs the recipe lets a corpus be narrowed by. */
  function Narrowable(recipe: Recipe, want: Want): Want {
    if want == [] then []
    else (if want[0].0 in recipe.narrowsOn then [want[0]] else []) + Narrowable(recipe, want[1..])
  }

  function AllVerbatim(fragments: seq<Fragment>): seq<Candidate> {
    if fragments == [] then [] else [Verbatim(fragments[0])] + AllVerbatim(fragments[1..])
  }

  function Candidates(recipe: Recipe, fragments: seq<Fragment>): Result<seq<Candidate>, Halt> {
    match recipe.merge
    case Concat => Ok(AllVerbatim(fragments))
    case Fold(fold) =>
      match fold(fragments)
      case Ok(candidates) => Ok(candidates)
      case Err(why) => Err(Refused(Told(why)))
  }

  /** What is reported of fragments; none at all where no file was read either is a
      probe pointed at the wrong directory. */
  function LookOn(recipe: Recipe, root: string, want: Want, nth: nat, fragments: seq<Fragment>, populated: bool,
                  weigh: Report -> nat): Result<Report, Halt>
  {
    if fragments == [] && !populated then Err(Barren(root))
    else
      match Candidates(recipe, fragments)
      case Err(halt) => Err(halt)
      case Ok(candidates) =>
        match ReportOn(recipe.version, want, recipe.identity, nth, candidates, weigh)
        case Ok(out) => Ok(out)
        case Err(why) => Err(Refused(why))
  }

  function Touched(fragments: seq<Fragment>, want: Want): seq<Fragment> {
    if fragments == [] then []
    else (if Touches(fragments[0].coord, want) then [fragments[0]] else []) + Touched(fragments[1..], want)
  }

  /** The fragments a look asks for. */
  function Asked(recipe: Recipe, want: Want, all: seq<Fragment>): seq<Fragment> {
    var narrowed := Narrowable(recipe, want);
    if narrowed == [] then all else Touched(all, narrowed)
  }

  // ---- Exactly when narrowing says the same ------------------------------------------------

  /** Every identity item that is wanted is one to narrow on, or nothing is narrowed. */
  ghost predicate NarrowsSafely(recipe: Recipe, want: Want) {
    Narrowable(recipe, want) == [] ||
    forall i :: 0 <= i < |want| && want[i].0 in recipe.identity ==> want[i].0 in recipe.narrowsOn
  }

  lemma {:induction false} NarrowableHolds(recipe: Recipe, want: Want, pair: (string, string))
    ensures pair in Narrowable(recipe, want) <==> pair in want && pair.0 in recipe.narrowsOn
  {
    if want != [] { NarrowableHolds(recipe, want[1..], pair); }
  }

  lemma HitIsTouch(coord: Coord, want: Want, pair: (string, string))
    requires pair in want && Hits(coord, pair)
    ensures Touches(coord, want)
  {
    var i :| 0 <= i < |want| && want[i] == pair;
  }

  /** A candidate that may be named is one the narrowed corpus keeps. */
  lemma NamedIsTouched(recipe: Recipe, want: Want, c: Candidate)
    requires Narrowable(recipe, want) != [] && NarrowsSafely(recipe, want) && MayBeNamed(c, want, recipe.identity)
    ensures Touches(c.coord, Narrowable(recipe, want))
  {
    var narrowed := Narrowable(recipe, want);
    if exists i :: 0 <= i < |want| && want[i].0 in recipe.identity {
      var i :| 0 <= i < |want| && want[i].0 in recipe.identity && Hits(c.coord, want[i]);
      NarrowableHolds(recipe, want, want[i]);
      HitIsTouch(c.coord, narrowed, want[i]);
    } else {
      assert narrowed[0] in narrowed;
      NarrowableHolds(recipe, want, narrowed[0]);
      var i :| 0 <= i < |want| && want[i] == narrowed[0];
      HitIsTouch(c.coord, narrowed, narrowed[0]);
    }
  }

  lemma {:induction false} TouchedAreEligible(recipe: Recipe, want: Want, all: seq<Fragment>)
    requires Narrowable(recipe, want) != [] && NarrowsSafely(recipe, want)
    ensures Eligible(AllVerbatim(Touched(all, Narrowable(recipe, want))), want, recipe.identity)
            == Eligible(AllVerbatim(all), want, recipe.identity)
  {
    if all != [] {
      var c, kept := Verbatim(all[0]), Touched(all[1..], Narrowable(recipe, want));
      TouchedAreEligible(recipe, want, all[1..]);
      EligibleMayBeNamed(c, want, recipe.identity);
      if MayBeNamed(c, want, recipe.identity) { NamedIsTouched(recipe, want, c); }
      EligibleCons(c, AllVerbatim(all[1..]), want, recipe.identity);
      EligibleCons(c, AllVerbatim(kept), want, recipe.identity);
      assert ([all[0]] + kept)[1..] == kept && [] + kept == kept;
    }
  }

  lemma EligibleCons(c: Candidate, rest: seq<Candidate>, want: Want, identity: seq<string>)
    ensures Eligible([c] + rest, want, identity) ==
            if IsEligible(c, want, identity) then [c] + Eligible(rest, want, identity)
            else Eligible(rest, want, identity)
  {
    assert ([c] + rest)[1..] == rest;
  }

  /** Both refuse alike, or nothing reported tells the winners of the two apart. */
  ghost predicate Agree(a: Result<seq<Candidate>, Halt>, b: Result<seq<Candidate>, Halt>, want: Want,
                        identity: seq<string>)
  {
    match (a, b)
    case (Ok(x), Ok(y)) => Alike(Winners(x, x, want, identity), Winners(y, y, want, identity))
    case (Err(x), Err(y)) => x == y
    case _ => false
  }

  /** What is made of the fragments asked for agrees with what is made of all. */
  ghost predicate SafeOn(recipe: Recipe, want: Want, all: seq<Fragment>) {
    Agree(Candidates(recipe, Asked(recipe, want, all)), Candidates(recipe, all), want, recipe.identity)
  }

  /** A look on the fragments asked for is a look on all, errors included. */
  ghost predicate SameLooks(recipe: Recipe, root: string, want: Want, all: seq<Fragment>, populated: bool) {
    forall nth: nat, weigh: Report -> nat ::
      LookOn(recipe, root, want, nth, Asked(recipe, want, all), populated, weigh)
      == LookOn(recipe, root, want, nth, all, populated, weigh)
  }

  function Outcome(recipe: Recipe, want: Want, nth: nat, made: Result<seq<Candidate>, Halt>, weigh: Report -> nat):
    Result<Report, Halt>
  {
    match made
    case Err(halt) => Err(halt)
    case Ok(candidates) =>
      match ReportOn(recipe.version, want, recipe.identity, nth, candidates, weigh)
      case Ok(out) => Ok(out)
      case Err(why) => Err(Refused(why))
  }

  lemma OutcomesAgree(recipe: Recipe, want: Want, nth: nat, a: Result<seq<Candidate>, Halt>,
                      b: Result<seq<Candidate>, Halt>, weigh: Report -> nat)
    requires Agree(a, b, want, recipe.identity)
    ensures Outcome(recipe, want, nth, a, weigh) == Outcome(recipe, want, nth, b, weigh)
  {
    if a.Ok? {
      ReportsTellWinnersApart(recipe.version, want, recipe.identity, a.value, b.value);
      SameHere(recipe.version, want, recipe.identity, nth, a.value, b.value, weigh);
    }
  }

  ghost predicate SameOutcomes(recipe: Recipe, want: Want, a: Result<seq<Candidate>, Halt>,
                               b: Result<seq<Candidate>, Halt>)
  {
    forall nth: nat, weigh: Report -> nat ::
      Outcome(recipe, want, nth, a, weigh) == Outcome(recipe, want, nth, b, weigh)
  }

  lemma OutcomesTellApart(recipe: Recipe, want: Want, a: Result<seq<Candidate>, Halt>, b: Result<seq<Candidate>, Halt>)
    requires SameOutcomes(recipe, want, a, b)
    ensures Agree(a, b, want, recipe.identity)
  {
    SameFirst(recipe, want, a, b);
    if a.Ok? {
      var x, y := a.value, b.value;
      forall nth: nat, weigh: Report -> nat
        ensures ReportOn(recipe.version, want, recipe.identity, nth, x, weigh)
                == ReportOn(recipe.version, want, recipe.identity, nth, y, weigh)
      {
        assert Outcome(recipe, want, nth, a, weigh) == Outcome(recipe, want, nth, b, weigh);
      }
      ReportsTellWinnersApart(recipe.version, want, recipe.identity, x, y);
    }
  }

  /** The first winner, or there being none, can always be told. */
  lemma SameFirst(recipe: Recipe, want: Want, a: Result<seq<Candidate>, Halt>, b: Result<seq<Candidate>, Halt>)
    requires SameOutcomes(recipe, want, a, b)
    ensures a.Ok? <==> b.Ok?
    ensures a.Err? ==> a == b
  {
    assert Outcome(recipe, want, 0, a, Unlimited) == Outcome(recipe, want, 0, b, Unlimited);
    if a.Ok? { Unweighed(recipe.version, want, recipe.identity, 0, a.value); }
    if b.Ok? { Unweighed(recipe.version, want, recipe.identity, 0, b.value); }
  }

  /** Whichever of the tied is asked for, a look on the fragments asked for is a look
      on all exactly if what is made of them agrees. */
  lemma NarrowedLookIsWhole(recipe: Recipe, root: string, want: Want, all: seq<Fragment>, populated: bool)
    requires all != [] ==> populated
    ensures SameLooks(recipe, root, want, all, populated) <==> SafeOn(recipe, want, all)
  {
    var some := Asked(recipe, want, all);
    var a, b := Candidates(recipe, some), Candidates(recipe, all);
    if all == [] {
      assert some == all;
    } else {
      forall nth: nat, weigh: Report -> nat, fragments
        ensures LookOn(recipe, root, want, nth, fragments, true, weigh)
                == Outcome(recipe, want, nth, Candidates(recipe, fragments), weigh)
      {
      }
      if SafeOn(recipe, want, all) {
        forall nth: nat, weigh: Report -> nat
          ensures LookOn(recipe, root, want, nth, some, populated, weigh)
            == LookOn(recipe, root, want, nth, all, populated, weigh)
        {
          OutcomesAgree(recipe, want, nth, a, b, weigh);
        }
      }
      if SameLooks(recipe, root, want, all, populated) {
        forall nth: nat, weigh: Report -> nat
          ensures Outcome(recipe, want, nth, a, weigh) == Outcome(recipe, want, nth, b, weigh)
        {
          assert LookOn(recipe, root, want, nth, some, true, weigh)
            == LookOn(recipe, root, want, nth, all, true, weigh);
        }
        OutcomesTellApart(recipe, want, a, b);
      }
    }
  }

  /** The same eligible candidates in the same order are agreement enough. */
  lemma SameEligibleAgrees(recipe: Recipe, want: Want, a: seq<Candidate>, b: seq<Candidate>)
    requires Eligible(a, want, recipe.identity) == Eligible(b, want, recipe.identity)
    ensures Agree(Ok(a), Ok(b), want, recipe.identity)
  {
    forall nth: nat, weigh: Report -> nat
      ensures ReportOn(recipe.version, want, recipe.identity, nth, a, weigh)
              == ReportOn(recipe.version, want, recipe.identity, nth, b, weigh)
    {
      SameEligibleSameReport(recipe.version, want, recipe.identity, nth, a, b, weigh);
    }
    ReportsTellWinnersApart(recipe.version, want, recipe.identity, a, b);
  }

  /** Fragments taken as they are may be narrowed on every corpus by the items that
      identify. */
  lemma VerbatimIsSafe(recipe: Recipe, want: Want, all: seq<Fragment>)
    requires recipe.merge.Concat? && NarrowsSafely(recipe, want)
    ensures SafeOn(recipe, want, all)
  {
    if Narrowable(recipe, want) != [] { TouchedAreEligible(recipe, want, all); }
    SameEligibleAgrees(recipe, want, AllVerbatim(Asked(recipe, want, all)), AllVerbatim(all));
  }

  /** One fragment that carries nothing but one identity pair wanted. */
  function Lone(pair: (string, string)): Fragment { Fragment(map[pair.0 := pair.1], Null, "") }

  /** Where some wanted identity item is not narrowed on, a corpus of one fragment
      that carries it alone is reported whole and missed narrowed. */
  lemma UnsafeNarrowingMisses(recipe: Recipe, root: string, want: Want, i: nat, weigh: Report -> nat)
    requires recipe.merge.Concat? && Narrowable(recipe, want) != []
    requires i < |want| && want[i].0 in recipe.identity && want[i].0 !in recipe.narrowsOn
    ensures var all := [Lone(want[i])];
            && LookOn(recipe, root, want, 0, Asked(recipe, want, all), true, weigh) == Ok(Absent(recipe.version, want))
            && LookOn(recipe, root, want, 0, all, true, weigh) != Ok(Absent(recipe.version, want))
  {
    var lone, narrowed := Lone(want[i]), Narrowable(recipe, want);
    var c := Verbatim(lone);
    forall j | 0 <= j < |narrowed| ensures !Hits(lone.coord, narrowed[j]) {
      NarrowableHolds(recipe, want, narrowed[j]);
    }
    assert [lone][1..] == [] && [c][1..] == [];
    assert Touched([lone], narrowed) == [];
    assert AllVerbatim([lone]) == [c];
    assert Hits(c.coord, want[i]);
    assert MayBeNamed(c, want, recipe.identity);
    EligibleMayBeNamed(c, want, recipe.identity);
    assert Eligible([c], want, recipe.identity) == [c];
  }

  /** For recipes that do not fold, narrowing is safe on every corpus exactly if
      every identity item wanted is narrowed on, or nothing is. */
  lemma NarrowingIsExactlySafe(recipe: Recipe, want: Want)
    requires recipe.merge.Concat?
    ensures (forall all :: SafeOn(recipe, want, all)) <==> NarrowsSafely(recipe, want)
  {
    if NarrowsSafely(recipe, want) {
      forall all ensures SafeOn(recipe, want, all) { VerbatimIsSafe(recipe, want, all); }
    } else {
      var i :| 0 <= i < |want| && want[i].0 in recipe.identity && want[i].0 !in recipe.narrowsOn;
      UnsafeNarrowingMisses(recipe, "", want, i, Unlimited);
      LooksDiffer(recipe, "", want, 0, [Lone(want[i])], true, Unlimited);
    }
  }

  lemma LooksDiffer(recipe: Recipe, root: string, want: Want, nth: nat, all: seq<Fragment>, populated: bool,
                    weigh: Report -> nat)
    requires all != [] ==> populated
    requires LookOn(recipe, root, want, nth, Asked(recipe, want, all), populated, weigh)
             != LookOn(recipe, root, want, nth, all, populated, weigh)
    ensures !SafeOn(recipe, want, all)
  {
    NarrowedLookIsWhole(recipe, root, want, all, populated);
  }

  // ---- The corpus of a tree -------------------------------------------------------------------

  /** What the probe makes of the files under a root, one after another. */
  function CorpusFrom(m: Means, found: seq<Found>, root: string): seq<Fragment> {
    if found == [] then []
    else
      (if Yields(m, found[0]) && Under(found[0].rel, root)
       then m.recipe.collect(found[0].rel, found[0].stored.content.value).value else [])
      + CorpusFrom(m, found[1..], root)
  }

  function CorpusOf(m: Means, tree: seq<Entry>, root: string): seq<Fragment> { CorpusFrom(m, Files(tree, ""), root) }

  /** Some file under the root is one the probe reads. */
  ghost predicate Peopled(m: Means, tree: seq<Entry>, root: string) {
    exists f :: f in Files(tree, "") && Yields(m, f) && Under(f.rel, root)
  }

  function PlacedFile(m: Means, f: Found): (r: seq<Placed>)
    requires Yields(m, f)
    ensures |r| == |m.recipe.collect(f.rel, f.stored.content.value).value|
    ensures forall i :: 0 <= i < |r| ==>
              r[i] == Placed(SortKey(f.rel),
                Located(f.rel, RowsOf(m.recipe.collect(f.rel, f.stored.content.value).value)[i]))
  {
    var rows := RowsOf(m.recipe.collect(f.rel, f.stored.content.value).value);
    seq(|rows|, i requires 0 <= i < |rows| => Placed(SortKey(f.rel), Located(f.rel, rows[i])))
  }

  function PlacedFrom(m: Means, found: seq<Found>, root: string): seq<Placed> {
    if found == [] then []
    else
      (if Yields(m, found[0]) && Under(found[0].rel, root) then PlacedFile(m, found[0]) else [])
      + PlacedFrom(m, found[1..], root)
  }

  lemma {:induction false} FragmentsSplit(a: seq<Located>, b: seq<Located>)
    ensures FragmentsOf(a + b) == FragmentsOf(a) + FragmentsOf(b)
  {
    if a == [] {
      assert a + b == b;
    } else {
      assert (a + b)[1..] == a[1..] + b;
      FragmentsSplit(a[1..], b);
    }
  }

  lemma {:induction false} FragmentsAt(rows: seq<Located>)
    ensures |FragmentsOf(rows)| == |rows| && forall i :: 0 <= i < |rows| ==> FragmentsOf(rows)[i] == FragmentOf(rows[i])
  {
    if rows != [] { FragmentsAt(rows[1..]); }
  }

  lemma FileIsCorpus(m: Means, f: Found)
    requires Yields(m, f)
    ensures FragmentsOf(LocatedOf(PlacedFile(m, f))) == m.recipe.collect(f.rel, f.stored.content.value).value
  {
    FragmentsAt(LocatedOf(PlacedFile(m, f)));
  }

  lemma LocatedSplit(a: seq<Placed>, b: seq<Placed>)
    ensures LocatedOf(a + b) == LocatedOf(a) + LocatedOf(b)
  {
  }

  lemma {:induction false} PlacedIsCorpus(m: Means, found: seq<Found>, root: string)
    ensures FragmentsOf(LocatedOf(PlacedFrom(m, found, root))) == CorpusFrom(m, found, root)
  {
    if found != [] {
      var f, rest := found[0], PlacedFrom(m, found[1..], root);
      PlacedIsCorpus(m, found[1..], root);
      if Yields(m, f) && Under(f.rel, root) {
        LocatedSplit(PlacedFile(m, f), rest);
        FragmentsSplit(LocatedOf(PlacedFile(m, f)), LocatedOf(rest));
        FileIsCorpus(m, f);
      } else {
        assert PlacedFrom(m, found, root) == rest;
      }
    }
  }

  /** A row placed is some file's. */
  lemma {:induction false} PlacedFromHolds(m: Means, found: seq<Found>, root: string, p: Placed)
    ensures p in PlacedFrom(m, found, root) <==>
            exists i ::
              0 <= i < |found| && Yields(m, found[i]) && Under(found[i].rel, root) && p in PlacedFile(m, found[i])
  {
    if found != [] {
      PlacedFromHolds(m, found[1..], root, p);
      if p in PlacedFrom(m, found[1..], root) {
        var i :| 0 <= i < |found[1..]| && Yields(m, found[1..][i]) && Under(found[1..][i].rel, root)
                 && p in PlacedFile(m, found[1..][i]);
        assert found[i + 1] == found[1..][i];
      }
      if i :| 0 <= i < |found| && Yields(m, found[i]) && Under(found[i].rel, root) && p in PlacedFile(m, found[i]) {
        if i > 0 { assert found[1..][i - 1] == found[i]; }
      }
    }
  }

  /** Files in order of sort key give rows in order of place. */
  lemma {:induction false} PlacedAscends(m: Means, found: seq<Found>, root: string)
    requires Text.Ascending(BySortKey, found)
    ensures Text.Ascending(ByPlace, PlacedFrom(m, found, root))
  {
    if found != [] {
      var f, rest := found[0], PlacedFrom(m, found[1..], root);
      PlacedAscends(m, found[1..], root);
      if Yields(m, f) && Under(f.rel, root) {
        var first := PlacedFile(m, f);
        forall i, j | 0 <= i < |first| && 0 <= j < |rest| ensures ByPlace(first[i], rest[j]) {
          PlacedFromHolds(m, found[1..], root, rest[j]);
          assert rest[j] in rest;
          var k :| 0 <= k < |found[1..]| && Yields(m, found[1..][k]) && rest[j] in PlacedFile(m, found[1..][k]);
          assert BySortKey(found[0], found[k + 1]);
        }
        AscendingJoined(first, rest);
      }
    }
  }

  lemma AscendingJoined(a: seq<Placed>, b: seq<Placed>)
    requires Text.Ascending(ByPlace, a) && Text.Ascending(ByPlace, b)
    requires forall i, j :: 0 <= i < |a| && 0 <= j < |b| ==> ByPlace(a[i], b[j])
    ensures Text.Ascending(ByPlace, a + b)
  {
  }

  // ---- What an index that mirrors a tree lists ----------------------------------------------------

  lemma PlacedIsHeld(m: Means, s: Shelf, of: Generation, tree: seq<Entry>, root: string, p: Placed)
    requires Mirrors(m, s, of, tree) && p in PlacedFrom(m, Files(tree, ""), root)
    ensures Holds(s, of, root, None, p)
  {
    var found := Files(tree, "");
    PlacedFromHolds(m, found, root, p);
    var i :| 0 <= i < |found| && Yields(m, found[i]) && Under(found[i].rel, root) && p in PlacedFile(m, found[i]);
    var f := found[i];
    assert f in found;
    var rows := RowsOf(m.recipe.collect(f.rel, f.stored.content.value).value);
    var j :| 0 <= j < |PlacedFile(m, f)| && PlacedFile(m, f)[j] == p;
    ByOrdAt(rows, j);
  }

  lemma HeldIsPlaced(m: Means, s: Shelf, of: Generation, tree: seq<Entry>, root: string, p: Placed)
    requires Mirrors(m, s, of, tree) && Holds(s, of, root, None, p)
    ensures p in PlacedFrom(m, Files(tree, ""), root)
  {
    var found := Files(tree, "");
    var f :| f in found && f.rel == p.located.rel && Yields(m, f);
    assert s.files[Key(of, f.rel)] == Made(m, f);
    HeldIsInFile(m, f, p);
    InFileIsPlaced(m, found, root, f, p);
  }

  lemma InFileIsPlaced(m: Means, found: seq<Found>, root: string, f: Found, p: Placed)
    requires f in found && Yields(m, f) && Under(f.rel, root) && p in PlacedFile(m, f)
    ensures p in PlacedFrom(m, found, root)
  {
    PlacedFromHolds(m, found, root, p);
    var i :| 0 <= i < |found| && found[i] == f;
  }

  lemma HeldIsInFile(m: Means, f: Found, p: Placed)
    requires Yields(m, f) && p.located.rel == f.rel && p.sort == SortKey(f.rel)
    requires p.located.row.ord in Made(m, f).rows && Made(m, f).rows[p.located.row.ord] == p.located.row
    ensures p in PlacedFile(m, f)
  {
    var rows := RowsOf(m.recipe.collect(f.rel, f.stored.content.value).value);
    var j := ByOrdFrom(rows, p.located.row.ord);
    assert PlacedFile(m, f)[j] == p;
  }

  /** An index that mirrors a tree lists the rows of its files in the order of the walk. */
  lemma MirrorListsTheCorpus(m: Means, s: Shelf, of: Generation, tree: seq<Entry>, root: string)
    requires Proper(tree) && Mirrors(m, s, of, tree)
    ensures Lists(s, of, root, None, LocatedOf(PlacedFrom(m, Files(tree, ""), root)))
  {
    var placed := PlacedFrom(m, Files(tree, ""), root);
    FilesAscend(tree, "");
    PlacedAscends(m, Files(tree, ""), root);
    forall i | 0 <= i < |placed| ensures Holds(s, of, root, None, placed[i]) {
      assert placed[i] in placed;
      PlacedIsHeld(m, s, of, tree, root, placed[i]);
    }
    forall l | Selects(s, of, root, None, l) ensures Placed(s.files[Key(of, l.rel)].sort, l) in placed {
      HeldIsPlaced(m, s, of, tree, root, Placed(s.files[Key(of, l.rel)].sort, l));
    }
    AscendingIsListing(s, of, root, placed);
  }

  lemma AscendingIsListing(s: Shelf, of: Generation, root: string, placed: seq<Placed>)
    requires Text.Ascending(ByPlace, placed)
    requires forall i :: 0 <= i < |placed| ==> Holds(s, of, root, None, placed[i])
    requires forall l :: Selects(s, of, root, None, l) ==> Placed(s.files[Key(of, l.rel)].sort, l) in placed
    ensures Lists(s, of, root, None, LocatedOf(placed))
  {
    var rows := LocatedOf(placed);
    forall l ensures l in rows <==> Selects(s, of, root, None, l) {
      if Selects(s, of, root, None, l) {
        var i :| 0 <= i < |placed| && placed[i] == Placed(s.files[Key(of, l.rel)].sort, l);
        assert rows[i] == l;
      }
    }
    forall i, j | 0 <= i < j < |placed| ensures ByPlace(placed[i], placed[j]) { }
  }

  function TouchedRows(rows: seq<Located>, want: Want): seq<Located> {
    if rows == [] then []
    else (if Touches(rows[0].row.coord, want) then [rows[0]] else []) + TouchedRows(rows[1..], want)
  }

  lemma {:induction false} TouchedFragments(rows: seq<Located>, want: Want)
    ensures FragmentsOf(TouchedRows(rows, want)) == Touched(FragmentsOf(rows), want)
  {
    if rows != [] {
      var rest := TouchedRows(rows[1..], want);
      TouchedFragments(rows[1..], want);
      assert FragmentsOf(rows)[1..] == FragmentsOf(rows[1..]);
      assert ([rows[0]] + rest)[1..] == rest && [] + rest == rest;
    }
  }

  lemma {:induction false} TouchedRowsHold(rows: seq<Located>, want: Want)
    ensures forall l :: l in TouchedRows(rows, want) <==> l in rows && Touches(l.row.coord, want)
  {
    if rows != [] { TouchedRowsHold(rows[1..], want); }
  }

  lemma {:induction false} TouchedRowsInPlace(s: Shelf, of: Generation, rows: seq<Located>, want: Want)
    requires InPlace(s, of, rows)
    ensures InPlace(s, of, TouchedRows(rows, want))
  {
    if rows != [] {
      var rest := TouchedRows(rows[1..], want);
      TouchedRowsInPlace(s, of, rows[1..], want);
      TouchedRowsHold(rows[1..], want);
      forall j | 0 <= j < |rest| ensures LocatedBefore(s, of, rows[0], rest[j]) {
        assert rest[j] in rest;
        var k :| 0 <= k < |rows[1..]| && rows[1..][k] == rest[j];
        assert rows[k + 1] == rest[j];
      }
    }
  }

  /** What the index answers for some wanted pairs is what it lists, those left out
      that carry none of them. */
  lemma UnionIsTouched(s: Shelf, of: Generation, root: string, want: Want, all: seq<Located>, some: seq<Located>)
    requires Lists(s, of, root, None, all) && Lists(s, of, root, Some(want), some)
    ensures FragmentsOf(some) == Touched(FragmentsOf(all), want)
  {
    TouchedRowsInPlace(s, of, all, want);
    TouchedRowsHold(all, want);
    OneListing(s, of, root, Some(want), TouchedRows(all, want), some);
    TouchedFragments(all, want);
  }

  lemma MirrorIsPeopled(m: Means, s: Shelf, of: Generation, tree: seq<Entry>, root: string)
    requires Mirrors(m, s, of, tree)
    ensures Peopled(m, tree, root) <==> exists rel :: Key(of, rel) in s.files && Under(rel, root)
  {
    if Peopled(m, tree, root) {
      var f :| f in Files(tree, "") && Yields(m, f) && Under(f.rel, root);
      assert Key(of, f.rel) in s.files;
    }
    if rel :| Key(of, rel) in s.files && Under(rel, root) {
      var f :| f in Files(tree, "") && f.rel == rel && Yields(m, f);
      assert Under(f.rel, root);
    }
  }

  lemma {:induction false} CorpusIsPeopled(m: Means, found: seq<Found>, root: string)
    requires CorpusFrom(m, found, root) != []
    ensures exists f :: f in found && Yields(m, f) && Under(f.rel, root)
  {
    if Yields(m, found[0]) && Under(found[0].rel, root) {
      assert found[0] in found;
    } else {
      CorpusIsPeopled(m, found[1..], root);
      var f :| f in found[1..] && Yields(m, f) && Under(f.rel, root);
      assert f in found;
    }
  }

  // ---- The look, end to end --------------------------------------------------------------------------

  lemma {:induction false} ScanKeyed(m: Means, known: map<string, Held>, s: Scan, found: seq<Found>)
    requires forall i :: 0 <= i < |found| ==> NUL !in found[i].rel && Slashed(found[i].rel) == found[i].rel
    requires WellKeyed(AllIndexed(s.renewed))
    ensures WellKeyed(AllIndexed(ScanFrom(m, known, s, found).renewed))
    decreases |found|
  {
    if found != [] && s.halted.None? { ScanKeyed(m, known, Each(m, known, s, found[0]), found[1..]); }
  }

  /** A walk keeps every file under the key of its path. */
  lemma WalkedIsKeyed(m: Means, s: Shelf, of: Generation, tree: seq<Entry>, fault: Fault)
    requires Proper(tree) && Keyed(s) && Filed(s)
    ensures Keyed(Walked(m, s, of, tree, fault).1) && Filed(Walked(m, s, of, tree, fault).1)
  {
    WalkedIsAStage(m, s, of, tree, fault);
    if Rescanned(m, KnownOf(s, of), tree).Ok? {
      var scan := Rescanned(m, KnownOf(s, of), tree).value;
      ProperIsOneEach(tree);
      forall f | f in Files(tree, "") ensures NUL !in f.rel { FoundIsClean(tree, f); }
      ScanKeyed(m, KnownOf(s, of), BEGUN, Files(tree, ""));
      StagesAreKeyed(s, of, scan);
    }
  }

  lemma StagesAreKeyed(s: Shelf, of: Generation, scan: Rescan)
    requires Keyed(s) && Filed(s) && WellKeyed(AllIndexed(scan.renewed))
    ensures forall t :: Stage(s, of, scan, t) ==> Keyed(t) && Filed(t)
  {
    var w := Written(s, of, AllIndexed(scan.renewed));
    DoneKeyed(s, Write(of, AllIndexed(scan.renewed)));
    DoneKeyed(w, Restamp(of, scan.restamped));
    DoneKeyed(Restamping(s, of, scan), Forget(of, scan.gone));
  }

  lemma WalkedIsWritten(m: Means, s: Shelf, of: Generation, tree: seq<Entry>, fault: Fault)
    requires Walked(m, s, of, tree, fault).0.Ok?
    ensures of in Walked(m, s, of, tree, fault).1.written
  {
    WalkedIsAStage(m, s, of, tree, fault);
  }

  /** What a look may take for granted of what it looks in. */
  ghost predicate Ready(m: Means, history: seq<seq<Entry>>, memo: Memo, s: Shelf, tree: seq<Entry>) {
    var of := GenerationOf(m.recipe);
    && DigestsTell(m, history) && StampsTell(history) && Proper(tree) && EndsIn(history, tree)
    && Keyed(s) && Filed(s) && Grounded(m, history, s, of)
    && (Remembers(memo, of) && memo.value[of].Ok? ==> of in s.written && Mirrors(m, s, of, tree))
  }

  /** A refresh that comes through leaves a mirror of the tree, and any refresh leaves
      what the next look may take for granted, on a tree that stays as it is. */
  lemma RefreshedIsReady(m: Means, history: seq<seq<Entry>>, memo: Memo, s: Shelf, tree: seq<Entry>, fault: Fault)
    requires Ready(m, history, memo, s, tree)
    ensures var (r, t, after) := Refreshing(m, memo, s, tree, fault);
            && Ready(m, history, after, t, tree)
            && (r.Ok? ==> GenerationOf(m.recipe) in t.written && Mirrors(m, t, GenerationOf(m.recipe), tree))
  {
    var of := GenerationOf(m.recipe);
    if !Remembers(memo, of) {
      GroundedRefreshMirrors(m, history, s, of, tree, fault);
      WalkedIsGrounded(m, history, s, of, tree, fault);
      WalkedIsKeyed(m, s, of, tree, fault);
      if Walked(m, s, of, tree, fault).0.Ok? { WalkedIsWritten(m, s, of, tree, fault); }
    }
  }

  /** What was listed, whole or narrowed, is the corpus or what was asked of it. */
  lemma ListedIsAsked(m: Means, s: Shelf, tree: seq<Entry>, root: string, want: Want, fragments: seq<Fragment>)
    requires Proper(tree) && Mirrors(m, s, GenerationOf(m.recipe), tree)
    requires var narrowed := Narrowable(m.recipe, want);
             AreOf(fragments, s, GenerationOf(m.recipe), root, if narrowed == [] then None else Some(narrowed))
    ensures fragments == Asked(m.recipe, want, CorpusOf(m, tree, root))
  {
    var of, narrowed := GenerationOf(m.recipe), Narrowable(m.recipe, want);
    var rows :| Lists(s, of, root, if narrowed == [] then None else Some(narrowed), rows)
      && fragments == FragmentsOf(rows);
    var all := LocatedOf(PlacedFrom(m, Files(tree, ""), root));
    MirrorListsTheCorpus(m, s, of, tree, root);
    PlacedIsCorpus(m, Files(tree, ""), root);
    if narrowed == [] {
      OneListing(s, of, root, None, all, rows);
    } else {
      UnionIsTouched(s, of, root, narrowed, all, rows);
    }
  }

  /** After any life of the index, a look may take for granted what it has to. */
  lemma LiveIsReady(m: Means, events: seq<Event>, w: World, memo: Memo)
    requires w == Live(m, events) && AllProper(w.history) && StampsTell(w.history) && DigestsTell(m, w.history)
      && ApartKeyed(events)
    requires !Remembers(memo, GenerationOf(m.recipe))
    ensures Ready(m, w.history, memo, w.shelf, Now(w))
  {
    LiveIsGrounded(m, events);
    LastIsProper(w.history);
    LiveIsKeyed(m, events);
  }

  /** What is written elsewhere is written under the keys of its paths. */
  ghost predicate ApartKeyed(events: seq<Event>) {
    forall i :: 0 <= i < |events| && events[i].Apart? && events[i].op.Write? ==> WellKeyed(events[i].op.files)
  }

  lemma {:induction false} LiveIsKeyed(m: Means, events: seq<Event>)
    requires AllProper(Live(m, events).history) && ApartKeyed(events)
    ensures Keyed(Live(m, events).shelf) && Filed(Live(m, events).shelf)
    decreases |events|
  {
    if events != [] {
      var w, e, of := Live(m, events[..|events| - 1]), events[|events| - 1], GenerationOf(m.recipe);
      assert forall i :: 0 <= i < |w.history| ==> w.history[i] == Live(m, events).history[i];
      LiveIsKeyed(m, events[..|events| - 1]);
      LiveIsGrounded(m, events[..|events| - 1]);
      match e {
        case Edit(_) =>
        case Refreshed(spent, fault) =>
          LastIsProper(w.history);
          WalkedIsKeyed(m.(spent := spent), w.shelf, of, Now(w), fault);
        case Apart(op) => if Elsewhere(op, of) { DoneKeyed(w.shelf, op); }
      }
    }
  }

  /** What a look answers once its refresh has come to `refreshed`: what is made of the
      fragments asked for and, where that agrees with what is made of all, what is made
      of the whole corpus. */
  ghost predicate AnswersFor(m: Means, root: string, pos: Value, tree: seq<Entry>, weigh: Report -> nat,
                             refreshed: Result<(), Halt>, r: Result<Report, Halt>)
  {
    match Wanted(pos, m.recipe.items)
    case Err(why) => r == Err(Refused(why))
    case Ok(want) =>
      if refreshed.Err? then r == Err(refreshed.error)
      else
        var all, populated := CorpusOf(m, tree, root), Peopled(m, tree, root);
        && r == LookOn(m.recipe, root, want, Nth(pos), Asked(m.recipe, want, all), populated, weigh)
        && (SafeOn(m.recipe, want, all) ==> r == LookOn(m.recipe, root, want, Nth(pos), all, populated, weigh))
  }

  /** The half of a look that comes after the refresh. */
  method LookAfter(bridge: Bridge, m: Means, root: string, want: Want, nth: nat, tree: seq<Entry>, weigh: Report -> nat)
    returns (r: Result<Report, Halt>)
    requires bridge.Valid() && Keyed(bridge.index.Contents()) && Ascii(root) && Proper(tree)
    requires GenerationOf(m.recipe) in bridge.index.Contents().written
    requires Mirrors(m, bridge.index.Contents(), GenerationOf(m.recipe), tree)
    ensures r == LookOn(m.recipe, root, want, nth, Asked(m.recipe, want, CorpusOf(m, tree, root)),
      Peopled(m, tree, root), weigh)
  {
    var narrowed := Narrowable(m.recipe, want);
    var fragments;
    if narrowed == [] {
      fragments := bridge.Whole(m.recipe, root);
    } else {
      fragments := bridge.Touching(m.recipe, root, narrowed);
    }
    ListedIsAsked(m, bridge.index.Contents(), tree, root, want, fragments);
    MirrorIsPeopled(m, bridge.index.Contents(), GenerationOf(m.recipe), tree, root);
    if fragments == [] {
      var populated := bridge.Populated(m.recipe, root);
      if !populated { return Err(Barren(root)); }
    }
    var candidates := Candidates(m.recipe, fragments);
    if candidates.Err? { return Err(candidates.error); }
    match ReportOn(m.recipe.version, want, m.recipe.identity, nth, candidates.value, weigh) {
      case Ok(out) => return Ok(out);
      case Err(why) => return Err(Refused(why));
    }
  }

  /** Where what is made of the fragments asked for agrees with what is made of all. */
  lemma AskedIsWhole(m: Means, root: string, want: Want, nth: nat, tree: seq<Entry>, weigh: Report -> nat)
    requires SafeOn(m.recipe, want, CorpusOf(m, tree, root))
    ensures var all, populated := CorpusOf(m, tree, root), Peopled(m, tree, root);
            LookOn(m.recipe, root, want, nth, Asked(m.recipe, want, all), populated, weigh)
            == LookOn(m.recipe, root, want, nth, all, populated, weigh)
  {
    var all := CorpusOf(m, tree, root);
    if all != [] { CorpusIsPeopled(m, Files(tree, ""), root); }
    NarrowedLookIsWhole(m.recipe, root, want, all, Peopled(m, tree, root));
  }

  /** A look says what the corpus of the tree as it is now says, whatever the index
      held, whatever faulted before, and however little of it was read. */
  method Look(bridge: Bridge, m: Means, root: string, pos: Value, tree: seq<Entry>, fault: Fault, weigh: Report -> nat,
              ghost history: seq<seq<Entry>>)
    returns (r: Result<Report, Halt>)
    requires bridge.Valid() && Ready(m, history, bridge.walked, bridge.index.Contents(), tree) && Ascii(root)
    modifies bridge, bridge.index
    ensures bridge.Valid() && Ready(m, history, bridge.walked, bridge.index.Contents(), tree)
    ensures var (refreshed, s, memo) := Refreshing(m, old(bridge.walked), old(bridge.index.Contents()), tree, fault);
            && AnswersFor(m, root, pos, tree, weigh, refreshed, r)
            && (bridge.index.Contents(), bridge.walked) ==
               if Wanted(pos, m.recipe.items).Ok? then (s, memo) else (old(bridge.index.Contents()), old(bridge.walked))
  {
    var wanted := Wanted(pos, m.recipe.items);
    if wanted.Err? { return Err(Refused(wanted.error)); }
    var want := wanted.value;
    RefreshedIsReady(m, history, bridge.walked, bridge.index.Contents(), tree, fault);
    var refreshed := bridge.Refresh(m, tree, fault);
    if refreshed.Err? { return Err(refreshed.error); }
    r := LookAfter(bridge, m, root, want, Nth(pos), tree, weigh);
    if SafeOn(m.recipe, want, CorpusOf(m, tree, root)) { AskedIsWhole(m, root, want, Nth(pos), tree, weigh); }
  }
}
