/** Exactly which probes every refresh keeps up with. */
module Digests {
  import opened Wrappers
  import Budgets
  import opened Corpus
  import opened Index
  import opened Matching
  import opened Refresh
  import opened Walk
  import Text
  import Utf8

  // ---- A tree of one file -------------------------------------------------------------

  /** Names along which the walk goes in. */
  ghost predicate Walkable(names: seq<string>) {
    names != [] && forall i :: 0 <= i < |names| ==> Plain(names[i]) && !Skipped(names[i])
  }

  function TreeOf(names: seq<string>, stored: Stored): seq<Entry>
    requires names != []
    decreases |names|
  {
    if |names| == 1 then [Entry(names[0], File(stored))] else [Entry(names[0], Dir(TreeOf(names[1..], stored)))]
  }

  lemma LoneEntry(e: Entry, base: string)
    ensures Files([e], base) == Walk.One(e, base)
  {
    assert [e][1..] == [];
    assert Text.Sort(ByName, [e][1..]) == [];
    assert InOrder([e]) == [e];
    assert Walk.Onward([e], base) == Walk.One(e, base) + Walk.Onward([e][1..], base);
  }

  lemma {:induction false} OneFile(names: seq<string>, stored: Stored, base: string)
    requires Walkable(names)
    ensures Proper(TreeOf(names, stored))
    ensures Files(TreeOf(names, stored), base) == [Found(base + Text.Join(names, "/"), stored)]
    decreases |names|
  {
    var e := TreeOf(names, stored)[0];
    assert TreeOf(names, stored) == [e] && !Skipped(names[0]) && Plain(names[0]);
    LoneEntry(e, base);
    if |names| > 1 {
      OneFile(names[1..], stored, base + names[0] + "/");
      JoinsOn(base, names[0], names[1..]);
      assert [names[0]] + names[1..] == names;
      OneIsProper(e);
    }
  }

  lemma OneIsProper(e: Entry)
    requires ProperEntry(e)
    ensures Proper([e])
  {
  }

  /** The whole of the tree is a file at a path, with some contents under some stamp. */
  ghost predicate LoneFile(tree: seq<Entry>, f: Found) {
    Proper(tree) && Files(tree, "") == [f] && Slashed(f.rel) == f.rel
  }

  lemma TreeIsLone(names: seq<string>, bytes: Bytes, stamp: Stamp)
    requires Walkable(names)
    ensures var f := Found(Text.Join(names, "/"), Stored(Some(bytes), Some(stamp)));
            LoneFile(TreeOf(names, f.stored), f)
  {
    var f := Found(Text.Join(names, "/"), Stored(Some(bytes), Some(stamp)));
    OneFile(names, f.stored, "");
    assert "" + Text.Join(names, "/") == Text.Join(names, "/");
    ProperIsOneEach(TreeOf(names, f.stored));
    assert Files(TreeOf(names, f.stored), "")[0] == f;
  }

  // ---- A walk over one file -------------------------------------------------------------

  function Patient(k: nat): Option<Budgets.Spent> { None }

  lemma LoneScan(m: Means, known: map<string, Held>, tree: seq<Entry>, f: Found)
    requires LoneFile(tree, f) && m.spent(0).None? && !Judge(m, known, f).Refuses?
    ensures Rescanned(m, known, tree).Ok?
  {
    ScanOne(m, known, BEGUN, f);
  }

  lemma LoneBecomes(m: Means, s: Shelf, of: Generation, tree: seq<Entry>, f: Found)
    requires LoneFile(tree, f) && m.spent(0).None? && !Judge(m, KnownOf(s, of), f).Refuses?
    ensures Walked(m, s, of, tree, NoFault).0.Ok?
    ensures Walked(m, s, of, tree, NoFault).1 == Applied(s, of, Rescanned(m, KnownOf(s, of), tree).value)
    ensures Becomes(m, s, of, Walked(m, s, of, tree, NoFault).1, f.rel, Some(f))
  {
    LoneScan(m, KnownOf(s, of), tree, f);
    WalkedIsAStage(m, s, of, tree, NoFault);
    RefreshBecomes(m, s, of, tree, f.rel);
    ProperIsOneEach(tree);
    FoundAtHolds(Files(tree, ""), f);
  }

  lemma LoneHeld(m: Means, s: Shelf, of: Generation, tree: seq<Entry>, f: Found)
    requires LoneFile(tree, f) && m.spent(0).None? && !Judge(m, KnownOf(s, of), f).Refuses?
    ensures Mirrors(m, Walked(m, s, of, tree, NoFault).1, of, tree) <==> HeldIsMade(m, s, of, f)
  {
    LoneBecomes(m, s, of, tree, f);
    MirrorsExactlyIfHeldIsMade(m, s, of, tree);
    assert Files(tree, "")[0] == f;
  }

  // ---- Rows say what they were made of ----------------------------------------------------

  lemma RowAt(a: seq<Fragment>, i: nat)
    requires i < |a|
    ensures i in ByOrd(RowsOf(a)) && ByOrd(RowsOf(a))[i] == Row(i, a[i].id, a[i].coord, a[i].facts)
  {
    ByOrdAt(RowsOf(a), i);
  }

  lemma NoRowPast(a: seq<Fragment>)
    ensures |a| !in ByOrd(RowsOf(a))
  {
    if |a| in ByOrd(RowsOf(a)) { var i := ByOrdFrom(RowsOf(a), |a|); }
  }

  lemma RowsTell(a: seq<Fragment>, b: seq<Fragment>)
    requires ByOrd(RowsOf(a)) == ByOrd(RowsOf(b))
    ensures a == b
  {
    NoRowPast(a);
    NoRowPast(b);
    if |a| < |b| { RowAt(b, |a|); }
    if |b| < |a| { RowAt(a, |b|); }
    forall i | 0 <= i < |a| ensures a[i] == b[i] {
      RowAt(a, i);
      RowAt(b, i);
    }
  }

  // ---- Two contents of one digest ------------------------------------------------------------

  /** What a first refresh holds of a lone file. */
  ghost function First(m: Means, tree: seq<Entry>): Shelf {
    Walked(m, EMPTY, GenerationOf(m.recipe), tree, NoFault).1
  }

  lemma FirstHolds(m: Means, tree: seq<Entry>, f: Found)
    requires LoneFile(tree, f) && m.spent(0).None? && Yields(m, f)
    ensures Walked(m, EMPTY, GenerationOf(m.recipe), tree, NoFault).0.Ok?
    ensures var key := Key(GenerationOf(m.recipe), f.rel);
            key in First(m, tree).files && First(m, tree).files[key] == Made(m, f)
  {
    var of := GenerationOf(m.recipe);
    assert KnownOf(EMPTY, of) == map[];
    LoneBecomes(m, EMPTY, of, tree, f);
  }

  /** Edited, under a new stamp, to contents of the same digest that are read otherwise,
      a file is restamped, and the refresh comes through with what was made before. */
  lemma OtherwiseReadIsMissed(m: Means, s: Shelf, tree: seq<Entry>, f: Found, g: Found)
    requires LoneFile(tree, g) && m.spent(0).None? && Yields(m, f)
    requires f.rel == g.rel && g.stored.content.Some? && f.stored.stamp != g.stored.stamp
    requires m.digest(f.stored.content.value) == m.digest(g.stored.content.value)
    requires m.recipe.collect(f.rel, f.stored.content.value) != m.recipe.collect(g.rel, g.stored.content.value)
    requires var key := Key(GenerationOf(m.recipe), f.rel); key in s.files && s.files[key] == Made(m, f)
    ensures var (of, key) := (GenerationOf(m.recipe), Key(GenerationOf(m.recipe), f.rel));
            var (r, t) := Walked(m, s, of, tree, NoFault);
            && r.Ok? && key in t.files && t.files[key].rows == Made(m, f).rows && !Mirrors(m, t, of, tree)
  {
    var of, key := GenerationOf(m.recipe), Key(GenerationOf(m.recipe), f.rel);
    var known := KnownOf(s, of);
    assert known[f.rel] == Held(s.files[key].hash, s.files[key].stamp);
    assert Judge(m, known, g) == Restamps;
    LoneBecomes(m, s, of, tree, g);
    LoneHeld(m, s, of, tree, g);
    if HeldIsMade(m, s, of, g) {
      RowsTell(m.recipe.collect(f.rel, f.stored.content.value).value,
               m.recipe.collect(g.rel, g.stored.content.value).value);
    }
  }

  /** A file put, refreshed, and edited. */
  function Edited(t1: seq<Entry>, t2: seq<Entry>): seq<Event> { [Edit(t1), Refreshed(Patient, NoFault), Edit(t2)] }

  lemma EditedLives(m: Means, t1: seq<Entry>, t2: seq<Entry>)
    ensures Live(m, Edited(t1, t2)) == World([[], t1, t2], First(m.(spent := Patient), t1))
  {
    var events := Edited(t1, t2);
    assert events[..2] == [Edit(t1), Refreshed(Patient, NoFault)] && events[..2][..1] == [Edit(t1)];
    assert [Edit(t1)][..0] == [];
    assert Live(m, [Edit(t1)]) == World([[]] + [t1], EMPTY);
    assert [[]] + [t1] == [[], t1] && [[], t1] + [t2] == [[], t1, t2];
    assert Live(m, events[..2]) == World([[], t1], First(m.(spent := Patient), t1));
  }

  ghost predicate OfThem(tree: seq<Entry>, among: seq<Found>) {
    Proper(tree) && forall h :: h in Files(tree, "") ==> h in among
  }

  /** No tree there was holds other files. */
  ghost predicate HoldsOnly(history: seq<seq<Entry>>, among: seq<Found>) {
    forall tree :: tree in history ==> OfThem(tree, among)
  }

  ghost predicate StampsApart(among: seq<Found>) {
    forall f, g :: f in among && g in among && f.stored.stamp == g.stored.stamp ==>
      f.stored.content == g.stored.content
  }

  lemma OnlyTells(history: seq<seq<Entry>>, among: seq<Found>)
    requires HoldsOnly(history, among) && StampsApart(among)
    ensures AllProper(history) && StampsTell(history)
  {
    forall i | 0 <= i < |history| ensures OfThem(history[i], among) { assert history[i] in history; }
  }

  lemma EmptyOfThem(among: seq<Found>)
    ensures OfThem([], among)
  {
    assert Files([], "") == [];
  }

  lemma LoneOfThem(tree: seq<Entry>, f: Found, among: seq<Found>)
    requires LoneFile(tree, f) && f in among
    ensures OfThem(tree, among)
  {
  }

  lemma TwoApart(f: Found, g: Found)
    requires f.stored.stamp != g.stored.stamp
    ensures StampsApart([f, g])
  {
  }

  lemma ThreeApart(f: Found, g: Found, h: Found)
    requires f.stored.stamp != g.stored.stamp && g.stored.stamp != h.stored.stamp && f.stored.stamp != h.stored.stamp
    ensures StampsApart([f, g, h])
  {
  }

  lemma EditedTells(t1: seq<Entry>, t2: seq<Entry>, f: Found, g: Found)
    requires LoneFile(t1, f) && LoneFile(t2, g) && f.stored.stamp != g.stored.stamp
    ensures AllProper([[], t1, t2]) && StampsTell([[], t1, t2])
  {
    var among := [f, g];
    EmptyOfThem(among);
    LoneOfThem(t1, f, among);
    LoneOfThem(t2, g, among);
    TwoApart(f, g);
    OnlyTells([[], t1, t2], among);
  }

  // ---- Exactly when every refresh mirrors -------------------------------------------------------

  /** After some life of the index, a refresh that comes through mirrors the tree. */
  ghost predicate KeepsUp(m: Means, events: seq<Event>, spent: nat -> Option<Budgets.Spent>, fault: Fault) {
    var w := Live(m, events);
    var (r, t) := Walked(m.(spent := spent), w.shelf, GenerationOf(m.recipe), Now(w), fault);
    AllProper(w.history) && StampsTell(w.history) && r.Ok? ==> Mirrors(m, t, GenerationOf(m.recipe), Now(w))
  }

  ghost predicate AlwaysKeepsUp(m: Means) {
    forall events, spent: nat -> Option<Budgets.Spent>, fault :: KeepsUp(m, events, spent, fault)
  }

  /** At every path the walk may come to, contents of one digest are read alike. */
  ghost predicate AllReadAlike(m: Means) {
    forall names, x, y :: Walkable(names) ==> ReadAlike(m, Text.Join(names, "/"), x, y)
  }

  /** The edit a refresh misses, and that it misses it. */
  lemma EditIsMissed(m: Means, names: seq<string>, x: Bytes, y: Bytes, p: Stamp, q: Stamp)
    requires Walkable(names) && !ReadAlike(m, Text.Join(names, "/"), x, y) && p != q
    ensures var before, after := Stored(Some(x), Some(p)), Stored(Some(y), Some(q));
            var events := Edited(TreeOf(names, before), TreeOf(names, after));
            var w, n, of := Live(m, events), m.(spent := Patient), GenerationOf(m.recipe);
            var key, f := Key(of, Text.Join(names, "/")), Found(Text.Join(names, "/"), before);
            var (r, t) := Walked(n, w.shelf, of, Now(w), NoFault);
            && AllProper(w.history) && StampsTell(w.history) && Yields(m, f)
            && Walked(n, EMPTY, of, TreeOf(names, before), NoFault).0.Ok?
            && r.Ok? && key in t.files && t.files[key].rows == Made(m, f).rows && !Mirrors(m, t, of, Now(w))
  {
    var f := Found(Text.Join(names, "/"), Stored(Some(x), Some(p)));
    var g := Found(Text.Join(names, "/"), Stored(Some(y), Some(q)));
    var t1, t2, n := TreeOf(names, f.stored), TreeOf(names, g.stored), m.(spent := Patient);
    TreeIsLone(names, x, p);
    TreeIsLone(names, y, q);
    EditedLives(m, t1, t2);
    EditedTells(t1, t2, f, g);
    FirstHolds(n, t1, f);
    OtherwiseReadIsMissed(n, First(n, t1), t2, f, g);
    MirrorsAnyBudgetExactly(m, n, Walked(n, First(n, t1), GenerationOf(m.recipe), t2, NoFault).1, t2);
  }

  lemma MirrorsAnyBudgetExactly(m: Means, n: Means, s: Shelf, tree: seq<Entry>)
    requires m.recipe == n.recipe && m.digest == n.digest
    ensures Mirrors(m, s, GenerationOf(m.recipe), tree) <==> Mirrors(n, s, GenerationOf(m.recipe), tree)
  {
    if Mirrors(m, s, GenerationOf(m.recipe), tree) { MirrorsAnyBudget(m, n, s, GenerationOf(m.recipe), tree); }
    if Mirrors(n, s, GenerationOf(m.recipe), tree) { MirrorsAnyBudget(n, m, s, GenerationOf(m.recipe), tree); }
  }

  lemma {:induction false} LyingIsWalkable(entries: seq<Entry>, names: seq<string>, stored: Stored)
    requires Proper(entries) && Lies(entries, names, stored)
    ensures Walkable(names)
    decreases |names|
  {
    var i :| 0 <= i < |entries| && LiesAt(entries[i], names, stored);
    LyingIsPlain(entries, names, stored);
    assert names == [names[0]] + names[1..];
    if entries[i].node.Dir? { LyingIsWalkable(entries[i].node.entries, names[1..], stored); }
  }

  lemma StoodIsWalkable(history: seq<seq<Entry>>, rel: string, bytes: Bytes) returns (names: seq<string>)
    requires AllProper(history) && Lain(history, rel, bytes)
    ensures Walkable(names) && rel == Text.Join(names, "/")
  {
    var i, stamp :| 0 <= i < |history| && Found(rel, Stored(Some(bytes), stamp)) in Files(history[i], "");
    names := FoundLies(history[i], "", Found(rel, Stored(Some(bytes), stamp)));
    LyingIsWalkable(history[i], names, Stored(Some(bytes), stamp));
    assert "" + Text.Join(names, "/") == Text.Join(names, "/");
  }

  lemma AlikeIsTold(m: Means, history: seq<seq<Entry>>)
    requires AllReadAlike(m) && AllProper(history)
    ensures DigestsTell(m, history)
  {
    forall rel, x, y | Lain(history, rel, x) && Lain(history, rel, y) ensures ReadAlike(m, rel, x, y) {
      var names := StoodIsWalkable(history, rel, x);
    }
  }

  /** What has lived does not depend on the budget of the refresh to come. */
  lemma {:induction false} LivesAnyBudget(m: Means, n: Means, events: seq<Event>)
    requires n == m.(spent := n.spent)
    ensures Live(m, events) == Live(n, events)
    decreases |events|
  {
    if events != [] {
      LivesAnyBudget(m, n, events[..|events| - 1]);
      match events[|events| - 1] {
        case Refreshed(spent, _) => assert m.(spent := spent) == n.(spent := spent);
        case _ =>
      }
    }
  }

  lemma TellsAnyBudget(m: Means, n: Means, history: seq<seq<Entry>>)
    requires m.recipe == n.recipe && m.digest == n.digest && DigestsTell(m, history)
    ensures DigestsTell(n, history)
  {
    forall rel, x, y | Lain(history, rel, x) && Lain(history, rel, y) ensures ReadAlike(n, rel, x, y) {
      assert ReadAlike(m, rel, x, y);
    }
  }

  lemma AlikeKeepsUp(m: Means, events: seq<Event>, spent: nat -> Option<Budgets.Spent>, fault: Fault)
    requires AllReadAlike(m)
    ensures KeepsUp(m, events, spent, fault)
  {
    var w, n := Live(m, events), m.(spent := spent);
    LivesAnyBudget(m, n, events);
    if AllProper(w.history) && StampsTell(w.history) {
      AlikeIsTold(m, w.history);
      TellsAnyBudget(m, n, w.history);
      EveryRefreshMirrors(n, events, w, fault);
      MirrorsAnyBudgetExactly(m, n, Walked(n, w.shelf, GenerationOf(m.recipe), Now(w), fault).1, Now(w));
    }
  }

  /** Every refresh that comes through, after any life of the index, mirrors the tree
      exactly if contents of one digest are read alike wherever the probe may read them. */
  lemma KeepsUpExactlyIfReadAlike(m: Means)
    ensures AlwaysKeepsUp(m) <==> AllReadAlike(m)
  {
    if AllReadAlike(m) {
      forall events, spent: nat -> Option<Budgets.Spent>, fault ensures KeepsUp(m, events, spent, fault) {
        AlikeKeepsUp(m, events, spent, fault);
      }
    }
    if AlwaysKeepsUp(m) {
      forall names, x, y | Walkable(names) ensures ReadAlike(m, Text.Join(names, "/"), x, y) {
        KeptUpIsAlike(m, names, x, y);
      }
    }
  }

  lemma KeptUpIsAlike(m: Means, names: seq<string>, x: Bytes, y: Bytes)
    requires AlwaysKeepsUp(m) && Walkable(names)
    ensures ReadAlike(m, Text.Join(names, "/"), x, y)
  {
    var p, q := Stamp(0, 0), Stamp(1, 0);
    var events := Edited(TreeOf(names, Stored(Some(x), Some(p))), TreeOf(names, Stored(Some(y), Some(q))));
    assert KeepsUp(m, events, Patient, NoFault);
    if !ReadAlike(m, Text.Join(names, "/"), x, y) { EditIsMissed(m, names, x, y, p, q); }
  }

  /** At every path the walk may come to, contents that are one text, read with loss, are
      read alike. */
  ghost predicate AllReadByText(m: Means) {
    forall names, x, y :: Walkable(names) && Utf8.Lossy(x) == Utf8.Lossy(y) ==>
      ReadAlike(m, Text.Join(names, "/"), x, y)
  }

  /** With the digest there is, and a hash that tells texts apart, that is what it takes. */
  lemma KeepsUpExactlyIfReadByText(m: Means, hash: string -> string)
    requires m.digest == LossyDigest(hash) && forall s, t :: hash(s) == hash(t) ==> s == t
    ensures AlwaysKeepsUp(m) <==> AllReadByText(m)
  {
    KeepsUpExactlyIfReadAlike(m);
    if AllReadByText(m) {
      forall names, x, y | Walkable(names) ensures ReadAlike(m, Text.Join(names, "/"), x, y) {
        LossyTells(m, hash, x, y);
      }
    }
  }

  lemma LossyTells(m: Means, hash: string -> string, x: Bytes, y: Bytes)
    requires m.digest == LossyDigest(hash) && forall s, t :: hash(s) == hash(t) ==> s == t
    ensures m.digest(x) == m.digest(y) <==> Utf8.Lossy(x) == Utf8.Lossy(y)
  {
    assert m.digest(x) == hash(Utf8.Lossy(x)) && m.digest(y) == hash(Utf8.Lossy(y));
  }

  // ---- Two refreshes at once ---------------------------------------------------------------------

  /** What a scan of a file that was only touched says. */
  lemma TouchedScan(m: Means, s: Shelf, tree: seq<Entry>, f: Found)
    requires LoneFile(tree, f) && m.spent(0).None?
    requires var of := GenerationOf(m.recipe); Judge(m, KnownOf(s, of), f) == Restamps
    ensures var known := KnownOf(s, GenerationOf(m.recipe));
            && Rescanned(m, known, tree).Ok?
            && var scan := Rescanned(m, known, tree).value;
               LastFresh(scan.renewed, f.rel) == None && LastStamp(scan.restamped, f.rel) == Some(f.stored.stamp)
               && f.rel !in scan.gone
  {
    var known := KnownOf(s, GenerationOf(m.recipe));
    LoneScan(m, known, tree, f);
    ProperIsOneEach(tree);
    FoundAtHolds(Files(tree, ""), f);
    ScanSays(m, known, Files(tree, ""), f.rel);
  }

  /** A scan of a touched file, taken before another refresh wrote the file anew, and
      landing after it, puts the old stamp over the new rows. */
  lemma LateRestampLands(m: Means, s: Shelf, u: Shelf, before: seq<Entry>, f: Found)
    requires LoneFile(before, f) && m.spent(0).None?
    requires var (of, key) := (GenerationOf(m.recipe), Key(GenerationOf(m.recipe), f.rel));
             Judge(m, KnownOf(s, of), f) == Restamps && key in u.files
    ensures var (of, key) := (GenerationOf(m.recipe), Key(GenerationOf(m.recipe), f.rel));
            && Rescanned(m, KnownOf(s, of), before).Ok?
            && var late := Landed(u, of, Rescanned(m, KnownOf(s, of), before).value, NoFault).1;
               key in late.files && late.files[key] == u.files[key].(stamp := f.stored.stamp)
  {
    var of := GenerationOf(m.recipe);
    TouchedScan(m, s, before, f);
    LandsOver(u, of, Rescanned(m, KnownOf(s, of), before).value, f.rel, f.stored.stamp);
  }

  lemma LandsOver(u: Shelf, of: Generation, scan: Rescan, rel: string, stamp: Option<Stamp>)
    requires LastFresh(scan.renewed, rel) == None && LastStamp(scan.restamped, rel) == Some(stamp) && rel !in scan.gone
    requires Key(of, rel) in u.files
    ensures var (r, late) := Landed(u, of, scan, NoFault);
            r.Ok? && Key(of, rel) in late.files && late.files[Key(of, rel)] == u.files[Key(of, rel)].(stamp := stamp)
  {
    AppliedAt(u, of, scan, Key(of, rel));
  }

  /** The file's stamp is then that of contents it did not have, and when the file is put
      back under that stamp a refresh comes through with what was made of the other. */
  lemma OldStampIsTrusted(m: Means, late: Shelf, tree: seq<Entry>, f: Found, other: Found)
    requires LoneFile(tree, f) && m.spent(0).None? && Yields(m, other) && f.stored.content.Some?
    requires m.recipe.eligible(f.rel) && f.stored.stamp.Some?
    requires m.digest(f.stored.content.value) != m.digest(other.stored.content.value)
    requires var key := Key(GenerationOf(m.recipe), f.rel);
             key in late.files && late.files[key] == Made(m, other).(stamp := f.stored.stamp)
    ensures var of := GenerationOf(m.recipe);
            var (r, t) := Walked(m, late, of, tree, NoFault);
            r.Ok? && !Mirrors(m, t, of, tree)
  {
    var of, key := GenerationOf(m.recipe), Key(GenerationOf(m.recipe), f.rel);
    assert KnownOf(late, of)[f.rel] == Held(late.files[key].hash, f.stored.stamp);
    assert Judge(m, KnownOf(late, of), f) == Same;
    LoneHeld(m, late, of, tree, f);
    LoneBecomes(m, late, of, tree, f);
  }

  /** Two refreshes of one generation at once: a file held is touched, and scanned by the
      one; it is edited, and refreshed by the other; the first then lands, and the edit is
      undone. Stamps told contents all along, and yet the next refresh comes through on a
      tree that it does not mirror. */
  lemma {:induction false} RefreshesAtOnceGoWrong(m: Means, names: seq<string>, x: Bytes, y: Bytes, p: Stamp,
                                                  q: Stamp, r: Stamp)
    requires Walkable(names) && m.spent(0).None? && p != q && q != r && p != r && m.digest(x) != m.digest(y)
    requires var rel := Text.Join(names, "/");
             m.recipe.eligible(rel) && m.recipe.collect(rel, x).Ok? && m.recipe.collect(rel, y).Ok?
    ensures var of := GenerationOf(m.recipe);
            var held, touched := TreeOf(names, Stored(Some(x), Some(p))), TreeOf(names, Stored(Some(x), Some(q)));
            var edited := TreeOf(names, Stored(Some(y), Some(r)));
            var s := First(m, held);
            var u := Walked(m, s, of, edited, NoFault).1;
            && StampsTell([[], held, touched, edited, touched])
            && Walked(m, s, of, edited, NoFault).0.Ok? && Mirrors(m, u, of, edited)
            && Rescanned(m, KnownOf(s, of), touched).Ok?
            && var late := Landed(u, of, Rescanned(m, KnownOf(s, of), touched).value, NoFault).1;
               var (again, t) := Walked(m, late, of, touched, NoFault);
               again.Ok? && !Mirrors(m, t, of, touched)
  {
    var of, rel := GenerationOf(m.recipe), Text.Join(names, "/");
    var key := Key(of, rel);
    var f, g := Found(rel, Stored(Some(x), Some(p))), Found(rel, Stored(Some(x), Some(q)));
    var h := Found(rel, Stored(Some(y), Some(r)));
    TreeIsLone(names, x, p);
    TreeIsLone(names, x, q);
    TreeIsLone(names, y, r);
    var held, touched, edited := TreeOf(names, f.stored), TreeOf(names, g.stored), TreeOf(names, h.stored);
    var s := First(m, held);
    FirstHolds(m, held, f);
    HeldJudges(m, s, f, g, h);
    LoneBecomes(m, s, of, edited, h);
    LoneHeld(m, s, of, edited, h);
    var u := Walked(m, s, of, edited, NoFault).1;
    assert u.files[key] == Made(m, h);
    LateRestampLands(m, s, u, touched, g);
    OldStampIsTrusted(m, Landed(u, of, Rescanned(m, KnownOf(s, of), touched).value, NoFault).1, touched, g, h);
    FourTell(held, touched, edited, f, g, h);
  }

  lemma HeldJudges(m: Means, s: Shelf, f: Found, g: Found, h: Found)
    requires Yields(m, f) && f.rel == g.rel == h.rel && Slashed(f.rel) == f.rel
    requires g.stored.content == f.stored.content && g.stored.stamp != f.stored.stamp
      && h.stored.stamp != f.stored.stamp
    requires Yields(m, h) && m.digest(h.stored.content.value) != m.digest(f.stored.content.value)
    requires var key := Key(GenerationOf(m.recipe), f.rel); key in s.files && s.files[key] == Made(m, f)
    ensures var known := KnownOf(s, GenerationOf(m.recipe));
            Judge(m, known, g) == Restamps && Judge(m, known, h).Reads?
  {
    var key := Key(GenerationOf(m.recipe), f.rel);
    assert KnownOf(s, GenerationOf(m.recipe))[f.rel] == Held(s.files[key].hash, s.files[key].stamp);
  }

  lemma FourTell(held: seq<Entry>, touched: seq<Entry>, edited: seq<Entry>, f: Found, g: Found, h: Found)
    requires LoneFile(held, f) && LoneFile(touched, g) && LoneFile(edited, h)
    requires f.stored.stamp != g.stored.stamp && g.stored.stamp != h.stored.stamp && f.stored.stamp != h.stored.stamp
    ensures StampsTell([[], held, touched, edited, touched])
  {
    var among := [f, g, h];
    EmptyOfThem(among);
    LoneOfThem(held, f, among);
    LoneOfThem(touched, g, among);
    LoneOfThem(edited, h, among);
    ThreeApart(f, g, h);
    OnlyTells([[], held, touched, edited, touched], among);
  }
}
