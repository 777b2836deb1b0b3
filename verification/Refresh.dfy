/** What a refresh leaves an index holding: the tree as it is now, whatever the
    index held and whatever faulted before. */
module Refresh {
  import opened Wrappers
  import opened Corpus
  import opened Index
  import opened Matching
  import opened Walk
  import Budgets
  import Text

  // ---- Applying a rescan -------------------------------------------------------------

  function RowsOf(fragments: seq<Fragment>): (rows: seq<Row>)
    ensures |rows| == |fragments| && Distinct(rows)
    ensures forall i :: 0 <= i < |rows| ==> rows[i] == Row(i, fragments[i].id, fragments[i].coord, fragments[i].facts)
  {
    seq(|fragments|, i requires 0 <= i < |fragments| => Row(i, fragments[i].id, fragments[i].coord, fragments[i].facts))
  }

  function IndexedOf(f: Fresh): Indexed { Indexed(f.rel, f.hash, f.sort, f.stamp, RowsOf(f.fragments)) }

  function AllIndexed(renewed: seq<Fresh>): (files: seq<Indexed>)
    ensures |files| == |renewed| && forall i :: 0 <= i < |files| ==> files[i] == IndexedOf(renewed[i])
  {
    seq(|renewed|, i requires 0 <= i < |renewed| => IndexedOf(renewed[i]))
  }

  /** The call to the index that faults, if one does. */
  datatype Fault =
    | NoFault
    | AtKnown(trouble: Trouble)
    | AtWrite(trouble: Trouble)
    | AtRestamp(trouble: Trouble)
    | AtForget(trouble: Trouble)

  function Restamping(s: Shelf, of: Generation, scan: Rescan): Shelf {
    Restamped(Written(s, of, AllIndexed(scan.renewed)), of, scan.restamped)
  }

  function Applied(s: Shelf, of: Generation, scan: Rescan): Shelf {
    Forgotten(Restamping(s, of, scan), of, scan.gone)
  }

  /** Three calls, one after another. A fault leaves what went before it. */
  function Landed(s: Shelf, of: Generation, scan: Rescan, fault: Fault): (Result<(), Halt>, Shelf) {
    if fault.AtWrite? then (Err(Faulted(fault.trouble)), s)
    else if scan.restamped != [] && fault.AtRestamp? then
      (Err(Faulted(fault.trouble)), Written(s, of, AllIndexed(scan.renewed)))
    else if scan.gone != {} && fault.AtForget? then (Err(Faulted(fault.trouble)), Restamping(s, of, scan))
    else (Ok(()), Applied(s, of, scan))
  }

  function Walked(m: Means, s: Shelf, of: Generation, tree: seq<Entry>, fault: Fault): (Result<(), Halt>, Shelf) {
    if fault.AtKnown? then (Err(Faulted(fault.trouble)), s)
    else
      match Rescanned(m, KnownOf(s, of), tree)
      case Err(halt) => (Err(halt), s)
      case Ok(scan) => Landed(s, of, scan, fault)
  }

  /** The index after a walk that took the tree in. */
  ghost predicate Stage(s: Shelf, of: Generation, scan: Rescan, t: Shelf) {
    t == s || t == Written(s, of, AllIndexed(scan.renewed)) || t == Restamping(s, of, scan) || t == Applied(s, of, scan)
  }

  lemma LandedIsAStage(s: Shelf, of: Generation, scan: Rescan, fault: Fault)
    ensures Stage(s, of, scan, Landed(s, of, scan, fault).1)
    ensures Landed(s, of, scan, fault).0.Ok? ==> Landed(s, of, scan, fault).1 == Applied(s, of, scan)
    ensures fault.NoFault? ==> Landed(s, of, scan, fault).0.Ok?
  {
  }

  lemma WalkedIsAStage(m: Means, s: Shelf, of: Generation, tree: seq<Entry>, fault: Fault)
    ensures var (r, t) := Walked(m, s, of, tree, fault);
            match Rescanned(m, KnownOf(s, of), tree)
            case Err(_) => r.Err? && t == s
            case Ok(scan) =>
              Stage(s, of, scan, t) && (r.Ok? ==> t == Applied(s, of, scan)) && (fault.NoFault? ==> r.Ok?)
  {
    match Rescanned(m, KnownOf(s, of), tree) {
      case Err(_) =>
      case Ok(scan) => LandedIsAStage(s, of, scan, fault);
    }
  }

  // ---- A tree mirrored --------------------------------------------------------------------

  /** A file the probe can read, and what it makes of it. */
  predicate Yields(m: Means, f: Found) {
    && m.recipe.eligible(f.rel) && f.stored.content.Some?
    && m.recipe.collect(f.rel, f.stored.content.value).Ok?
  }

  function Made(m: Means, f: Found): Kept
    requires Yields(m, f)
  {
    var bytes := f.stored.content.value;
    Kept(m.digest(bytes), SortKey(f.rel), f.stored.stamp, ByOrd(RowsOf(m.recipe.collect(f.rel, bytes).value)))
  }

  /** A generation holds exactly what the probe makes of the tree's files. */
  ghost predicate Mirrors(m: Means, s: Shelf, of: Generation, tree: seq<Entry>) {
    && (forall f :: f in Files(tree, "") && m.recipe.eligible(f.rel) && f.stored.content.Some? ==> Yields(m, f))
    && (forall f :: f in Files(tree, "") && Yields(m, f) ==>
      Key(of, f.rel) in s.files && s.files[Key(of, f.rel)] == Made(m, f))
    && forall rel :: Key(of, rel) in s.files ==> exists f :: f in Files(tree, "") && f.rel == rel && Yields(m, f)
  }

  /** Only one set of files mirrors a tree. */
  lemma OneMirror(m: Means, s: Shelf, t: Shelf, of: Generation, tree: seq<Entry>)
    requires Mirrors(m, s, of, tree) && Mirrors(m, t, of, tree)
    ensures forall rel :: Key(of, rel) in s.files <==> Key(of, rel) in t.files
    ensures forall rel :: Key(of, rel) in s.files ==> s.files[Key(of, rel)] == t.files[Key(of, rel)]
  {
    forall rel | Key(of, rel) in s.files
      ensures Key(of, rel) in t.files && s.files[Key(of, rel)] == t.files[Key(of, rel)]
    {
      var f :| f in Files(tree, "") && f.rel == rel && Yields(m, f);
    }
    forall rel | Key(of, rel) in t.files ensures Key(of, rel) in s.files {
      var f :| f in Files(tree, "") && f.rel == rel && Yields(m, f);
    }
  }

  // ---- A rescan, file by file ------------------------------------------------------------------

  /** The last file read anew at a path. */
  function LastFresh(renewed: seq<Fresh>, rel: string): Option<Fresh> {
    if renewed == [] then None
    else
      var n := |renewed| - 1;
      if renewed[n].rel == rel then Some(renewed[n]) else LastFresh(renewed[..n], rel)
  }

  function LastStamp(stamps: seq<(string, Option<Stamp>)>, rel: string): Option<Option<Stamp>> {
    if stamps == [] then None
    else
      var n := |stamps| - 1;
      if stamps[n].0 == rel then Some(stamps[n].1) else LastStamp(stamps[..n], rel)
  }

  lemma LastFreshSnoc(renewed: seq<Fresh>, f: Fresh, rel: string)
    ensures LastFresh(renewed + [f], rel) == if f.rel == rel then Some(f) else LastFresh(renewed, rel)
  {
    assert (renewed + [f])[..|renewed|] == renewed;
  }

  lemma LastStampSnoc(stamps: seq<(string, Option<Stamp>)>, p: (string, Option<Stamp>), rel: string)
    ensures LastStamp(stamps + [p], rel) == if p.0 == rel then Some(p.1) else LastStamp(stamps, rel)
  {
    assert (stamps + [p])[..|stamps|] == stamps;
  }

  lemma {:induction false} WrittenAt(files: map<Key, Kept>, of: Generation, renewed: seq<Fresh>, key: Key)
    ensures var after := WrittenFiles(files, of, AllIndexed(renewed));
            if key.of == of && LastFresh(renewed, key.rel).Some?
            then key in after && after[key] == KeptOf(IndexedOf(LastFresh(renewed, key.rel).value))
            else (key in after <==> key in files) && (key in files ==> after[key] == files[key])
    decreases |renewed|
  {
    if renewed != [] {
      var n := |renewed| - 1;
      WrittenAt(files, of, renewed[..n], key);
      assert AllIndexed(renewed)[..n] == AllIndexed(renewed[..n]);
    }
  }

  lemma {:induction false} RestampedAt(files: map<Key, Kept>, of: Generation, stamps: seq<(string, Option<Stamp>)>,
                                       key: Key)
    ensures var after := RestampedFiles(files, of, stamps);
            && (key in after <==> key in files)
            && (key in files ==>
                  after[key] == if key.of == of && LastStamp(stamps, key.rel).Some?
                                then files[key].(stamp := LastStamp(stamps, key.rel).value) else files[key])
    decreases |stamps|
  {
    if stamps != [] {
      RestampedAt(files, of, stamps[..|stamps| - 1], key);
      RestampedAt(files, of, stamps[..|stamps| - 1], Key(of, stamps[|stamps| - 1].0));
    }
  }

  /** Files that a path tells apart, none with a backslash in its path. */
  ghost predicate OneEach(found: seq<Found>) {
    && (forall i, j :: 0 <= i < j < |found| ==> found[i].rel != found[j].rel)
    && forall i :: 0 <= i < |found| ==> Slashed(found[i].rel) == found[i].rel
  }

  /** The file at a path. */
  function FoundAt(found: seq<Found>, rel: string): Option<Found> {
    if found == [] then None
    else
      var n := |found| - 1;
      if found[n].rel == rel then Some(found[n]) else FoundAt(found[..n], rel)
  }

  lemma {:induction false} FoundAtHolds(found: seq<Found>, f: Found)
    requires OneEach(found)
    ensures f in found <==> FoundAt(found, f.rel) == Some(f)
    decreases |found|
  {
    if found != [] {
      var n := |found| - 1;
      FoundAtHolds(found[..n], f);
      assert found == found[..n] + [found[n]];
      if f in found[..n] {
        var i :| 0 <= i < n && found[i] == f;
      }
    }
  }

  /** A scan's three lists say of a path what was judged of the file there. */
  ghost predicate Says(m: Means, known: map<string, Held>, s: Scan, rel: string, f: Option<Found>) {
    match f
    case None => LastFresh(s.renewed, rel) == None && LastStamp(s.restamped, rel) == None && rel !in s.seen
    case Some(f) =>
      match Judge(m, known, f)
      case Passed => LastFresh(s.renewed, rel) == None && LastStamp(s.restamped, rel) == None && rel !in s.seen
      case Same => LastFresh(s.renewed, rel) == None && LastStamp(s.restamped, rel) == None && rel in s.seen
      case Restamps =>
        && LastFresh(s.renewed, rel) == None && LastStamp(s.restamped, rel) == Some(f.stored.stamp)
        && rel in s.seen
      case Reads(fragments) =>
        && LastFresh(s.renewed, rel) == Some(FreshOf(m, f, fragments)) && LastStamp(s.restamped, rel) == None
        && rel in s.seen
      case Refuses(_) => false
  }

  lemma EachSays(m: Means, known: map<string, Held>, s: Scan, f: Found, rel: string, before: Option<Found>)
    requires Slashed(f.rel) == f.rel && s.halted.None? && Each(m, known, s, f).halted.None?
    requires Says(m, known, s, rel, before) && (f.rel == rel ==> before == None)
    ensures Says(m, known, Each(m, known, s, f), rel, if f.rel == rel then Some(f) else before)
  {
    if f.rel == rel {
      match Judge(m, known, f) {
        case Reads(fragments) => LastFreshSnoc(s.renewed, FreshOf(m, f, fragments), rel);
        case Restamps => LastStampSnoc(s.restamped, (f.rel, f.stored.stamp), rel);
        case _ =>
      }
    } else {
      RenewedElsewhere(m, known, s, f, rel);
      RestampedElsewhere(m, known, s, f, rel);
      SeenElsewhere(m, known, s, f, rel);
    }
  }

  /** One file changes nothing that is said of other paths. */
  lemma RenewedElsewhere(m: Means, known: map<string, Held>, s: Scan, f: Found, rel: string)
    requires Slashed(f.rel) == f.rel != rel
    ensures LastFresh(Each(m, known, s, f).renewed, rel) == LastFresh(s.renewed, rel)
  {
    var verdict := Judge(m, known, f);
    if verdict.Reads? { LastFreshSnoc(s.renewed, FreshOf(m, f, verdict.fragments), rel); }
  }

  lemma RestampedElsewhere(m: Means, known: map<string, Held>, s: Scan, f: Found, rel: string)
    requires Slashed(f.rel) == f.rel != rel
    ensures LastStamp(Each(m, known, s, f).restamped, rel) == LastStamp(s.restamped, rel)
  {
    if Judge(m, known, f).Restamps? { LastStampSnoc(s.restamped, (f.rel, f.stored.stamp), rel); }
  }

  lemma SeenElsewhere(m: Means, known: map<string, Held>, s: Scan, f: Found, rel: string)
    requires Slashed(f.rel) == f.rel != rel
    ensures rel in Each(m, known, s, f).seen <==> rel in s.seen
  {
  }

  lemma {:induction false} NotFoundAt(found: seq<Found>, rel: string)
    requires forall i :: 0 <= i < |found| ==> found[i].rel != rel
    ensures FoundAt(found, rel) == None
    decreases |found|
  {
    if found != [] { NotFoundAt(found[..|found| - 1], rel); }
  }

  lemma {:induction false} ScanSays(m: Means, known: map<string, Held>, found: seq<Found>, rel: string)
    requires OneEach(found) && ScanFrom(m, known, BEGUN, found).halted.None?
    ensures Says(m, known, ScanFrom(m, known, BEGUN, found), rel, FoundAt(found, rel))
    decreases |found|
  {
    if found != [] {
      var n := |found| - 1;
      var before := ScanFrom(m, known, BEGUN, found[..n]);
      assert found == found[..n] + [found[n]];
      ScanSplits(m, known, BEGUN, found[..n], [found[n]]);
      assert before.halted.None?;
      ScanOne(m, known, before, found[n]);
      ScanSays(m, known, found[..n], rel);
      if found[n].rel == rel { NotFoundAt(found[..n], rel); }
      EachSays(m, known, before, found[n], rel, FoundAt(found[..n], rel));
    }
  }

  // ---- Paths of a proper tree ----------------------------------------------------------------

  lemma {:induction false} SlashedSame(rel: string)
    requires '\\' !in rel
    ensures Slashed(rel) == rel
  {
    if rel != "" {
      assert rel[0] in rel;
      SlashedSame(rel[1..]);
    }
  }

  lemma {:induction false} LyingIsPlain(entries: seq<Entry>, names: seq<string>, stored: Stored)
    requires Proper(entries) && Lies(entries, names, stored)
    ensures forall name :: name in names ==> Plain(name)
    decreases |names|
  {
    var i :| 0 <= i < |entries| && LiesAt(entries[i], names, stored);
    var e := entries[i];
    assert names == [names[0]] + names[1..];
    if e.node.Dir? { LyingIsPlain(e.node.entries, names[1..], stored); }
  }

  lemma {:induction false} JoinOfPlain(names: seq<string>)
    requires forall name :: name in names ==> Plain(name)
    ensures '\\' !in Text.Join(names, "/") && NUL !in Text.Join(names, "/")
  {
    if |names| > 1 {
      assert Plain(names[0]);
      JoinOfPlain(names[1..]);
    } else if |names| == 1 {
      assert Plain(names[0]);
    }
  }

  lemma FoundIsClean(tree: seq<Entry>, f: Found)
    requires Proper(tree) && f in Files(tree, "")
    ensures '\\' !in f.rel && NUL !in f.rel
  {
    var names := FoundLies(tree, "", f);
    LyingIsPlain(tree, names, f.stored);
    JoinOfPlain(names);
    assert "" + Text.Join(names, "/") == Text.Join(names, "/");
  }

  lemma ProperIsOneEach(tree: seq<Entry>)
    requires Proper(tree)
    ensures OneEach(Files(tree, ""))
  {
    var found := Files(tree, "");
    FilesAscend(tree, "");
    forall i, j | 0 <= i < j < |found| ensures found[i].rel != found[j].rel {
      assert BySortKey(found[i], found[j]);
      Text.LessIrreflexive(SortKey(found[i].rel));
    }
    forall i | 0 <= i < |found| ensures Slashed(found[i].rel) == found[i].rel {
      assert found[i] in found;
      FoundIsClean(tree, found[i]);
      SlashedSame(found[i].rel);
    }
  }

  // ---- What a whole refresh does to one path ----------------------------------------------------

  /** What is held of a path after a refresh, by what was judged of the file there. */
  ghost predicate Becomes(m: Means, s: Shelf, of: Generation, t: Shelf, rel: string, f: Option<Found>) {
    var key, known := Key(of, rel), KnownOf(s, of);
    match f
    case None => key !in t.files
    case Some(f) =>
      match Judge(m, known, f)
      case Passed => key !in t.files
      case Same => key in s.files && key in t.files && t.files[key] == s.files[key]
      case Restamps => key in s.files && key in t.files && t.files[key] == s.files[key].(stamp := f.stored.stamp)
      case Reads(fragments) =>
        f.stored.content.Some? && key in t.files && t.files[key] == KeptOf(IndexedOf(FreshOf(m, f, fragments)))
      case Refuses(_) => false
  }

  lemma AppliedAt(s: Shelf, of: Generation, scan: Rescan, key: Key)
    ensures var t := Applied(s, of, scan);
            if key.of != of
            then (key in t.files <==> key in s.files) && (key in s.files ==> t.files[key] == s.files[key])
            else if key.rel in scan.gone then key !in t.files
            else if LastFresh(scan.renewed, key.rel).Some? then
              && key in t.files
              && var kept := KeptOf(IndexedOf(LastFresh(scan.renewed, key.rel).value));
                 t.files[key] == if LastStamp(scan.restamped, key.rel).Some?
                                 then kept.(stamp := LastStamp(scan.restamped, key.rel).value) else kept
            else
              && (key in t.files <==> key in s.files)
              && (key in s.files ==>
                    t.files[key] == if LastStamp(scan.restamped, key.rel).Some?
                                    then s.files[key].(stamp := LastStamp(scan.restamped, key.rel).value)
                                    else s.files[key])
  {
    WrittenAt(s.files, of, scan.renewed, key);
    RestampedAt(WrittenFiles(s.files, of, AllIndexed(scan.renewed)), of, scan.restamped, key);
  }

  lemma SaidBecomes(m: Means, s: Shelf, of: Generation, scan: Scan, rel: string, f: Option<Found>)
    requires Says(m, KnownOf(s, of), scan, rel, f)
    requires f.Some? ==> f.value.rel == rel && Slashed(rel) == rel
    ensures Becomes(m, s, of, Applied(s, of, Rescan(scan.renewed, scan.restamped, KnownOf(s, of).Keys - scan.seen)),
      rel, f)
  {
    var known := KnownOf(s, of);
    AppliedAt(s, of, Rescan(scan.renewed, scan.restamped, known.Keys - scan.seen), Key(of, rel));
    assert rel in known <==> Key(of, rel) in s.files;
    if f.Some? {
      match Judge(m, known, f.value) {
        case _ =>
      }
    }
  }

  lemma RefreshBecomes(m: Means, s: Shelf, of: Generation, tree: seq<Entry>, rel: string)
    requires Proper(tree) && Rescanned(m, KnownOf(s, of), tree).Ok?
    ensures Becomes(m, s, of, Applied(s, of, Rescanned(m, KnownOf(s, of), tree).value), rel,
      FoundAt(Files(tree, ""), rel))
  {
    ProperIsOneEach(tree);
    ScanSays(m, KnownOf(s, of), Files(tree, ""), rel);
    FoundAtIsThere(Files(tree, ""), rel);
    SaidBecomes(m, s, of, ScanFrom(m, KnownOf(s, of), BEGUN, Files(tree, "")), rel, FoundAt(Files(tree, ""), rel));
  }

  lemma {:induction false} FoundAtIsThere(found: seq<Found>, rel: string)
    ensures FoundAt(found, rel).Some? ==> FoundAt(found, rel).value in found && FoundAt(found, rel).value.rel == rel
    ensures OneEach(found) && FoundAt(found, rel).Some? ==> Slashed(rel) == rel
    decreases |found|
  {
    if found != [] {
      assert found == found[..|found| - 1] + [found[|found| - 1]];
      FoundAtIsThere(found[..|found| - 1], rel);
    }
  }

  // ---- Exactly when a refresh mirrors the tree ------------------------------------------------------

  /** A file taken for what is held of it is what is held, under the stamp it has now. */
  ghost predicate HeldIsMade(m: Means, s: Shelf, of: Generation, f: Found) {
    var verdict := Judge(m, KnownOf(s, of), f);
    verdict.Same? || verdict.Restamps? ==>
      && Yields(m, f) && Key(of, f.rel) in s.files
      && s.files[Key(of, f.rel)].(stamp := f.stored.stamp) == Made(m, f)
  }

  ghost predicate AllHeldIsMade(m: Means, s: Shelf, of: Generation, tree: seq<Entry>) {
    forall f :: f in Files(tree, "") ==> HeldIsMade(m, s, of, f)
  }

  /** One file of the tree, after a refresh. */
  lemma FileMirrored(m: Means, s: Shelf, of: Generation, t: Shelf, f: Found)
    requires Slashed(f.rel) == f.rel && Becomes(m, s, of, t, f.rel, Some(f)) && HeldIsMade(m, s, of, f)
    ensures m.recipe.eligible(f.rel) && f.stored.content.Some? ==> Yields(m, f)
    ensures Key(of, f.rel) in t.files <==> Yields(m, f)
    ensures Yields(m, f) ==> t.files[Key(of, f.rel)] == Made(m, f)
  {
    var key := Key(of, f.rel);
    if Judge(m, KnownOf(s, of), f).Same? {
      assert s.files[key] == s.files[key].(stamp := f.stored.stamp);
    }
  }

  /** After a refresh that came through, the generation mirrors the tree exactly if
      every file taken for what is held of it, by its stamp or by its digest, is that. */
  lemma MirrorsExactlyIfHeldIsMade(m: Means, s: Shelf, of: Generation, tree: seq<Entry>)
    requires Proper(tree) && Rescanned(m, KnownOf(s, of), tree).Ok?
    ensures Mirrors(m, Applied(s, of, Rescanned(m, KnownOf(s, of), tree).value), of, tree)
            <==> AllHeldIsMade(m, s, of, tree)
  {
    var known := KnownOf(s, of);
    var t := Applied(s, of, Rescanned(m, known, tree).value);
    var found := Files(tree, "");
    ProperIsOneEach(tree);
    forall f | f in found ensures Becomes(m, s, of, t, f.rel, Some(f)) && Slashed(f.rel) == f.rel {
      RefreshBecomes(m, s, of, tree, f.rel);
      FoundAtHolds(found, f);
    }
    if AllHeldIsMade(m, s, of, tree) { HeldMirrors(m, s, of, tree, t); }
    if Mirrors(m, t, of, tree) {
      forall f | f in found ensures HeldIsMade(m, s, of, f) { MirroredIsHeld(m, s, of, tree, t, f); }
    }
  }

  lemma HeldMirrors(m: Means, s: Shelf, of: Generation, tree: seq<Entry>, t: Shelf)
    requires Proper(tree) && AllHeldIsMade(m, s, of, tree)
    requires Rescanned(m, KnownOf(s, of), tree).Ok? && t == Applied(s, of, Rescanned(m, KnownOf(s, of), tree).value)
    requires forall f :: f in Files(tree, "") ==> Becomes(m, s, of, t, f.rel, Some(f)) && Slashed(f.rel) == f.rel
    ensures Mirrors(m, t, of, tree)
  {
    var found := Files(tree, "");
    forall f | f in found
      ensures m.recipe.eligible(f.rel) && f.stored.content.Some? ==> Yields(m, f)
      ensures Key(of, f.rel) in t.files <==> Yields(m, f)
      ensures Yields(m, f) ==> t.files[Key(of, f.rel)] == Made(m, f)
    {
      FileMirrored(m, s, of, t, f);
    }
    forall rel | Key(of, rel) in t.files ensures exists f :: f in found && f.rel == rel && Yields(m, f) {
      RefreshBecomes(m, s, of, tree, rel);
      FoundAtIsThere(found, rel);
      assert FoundAt(found, rel).value in found;
    }
  }

  lemma MirroredIsHeld(m: Means, s: Shelf, of: Generation, tree: seq<Entry>, t: Shelf, f: Found)
    requires Mirrors(m, t, of, tree) && f in Files(tree, "") && OneEach(Files(tree, ""))
    requires Slashed(f.rel) == f.rel && Becomes(m, s, of, t, f.rel, Some(f))
    ensures HeldIsMade(m, s, of, f)
  {
    if Key(of, f.rel) in t.files {
      var g :| g in Files(tree, "") && g.rel == f.rel && Yields(m, g);
      FoundAtHolds(Files(tree, ""), f);
      FoundAtHolds(Files(tree, ""), g);
      assert g == f;
    }
  }

  // ---- Exactly when, where digests tell what there was -----------------------------------------------

  /** A path had these contents at some time. */
  ghost predicate Lain(history: seq<seq<Entry>>, rel: string, bytes: Bytes) {
    exists i, stamp :: 0 <= i < |history| && Found(rel, Stored(Some(bytes), stamp)) in Files(history[i], "")
  }

  /** Contents that the probe was to read alike: what can be made of the one is made of the other. */
  ghost predicate ReadAlike(m: Means, rel: string, x: Bytes, y: Bytes) {
    m.recipe.eligible(rel) && m.digest(x) == m.digest(y) && m.recipe.collect(rel, x).Ok? ==>
      m.recipe.collect(rel, y) == m.recipe.collect(rel, x)
  }

  /** Of the contents a path has had, those with one digest are read alike. */
  ghost predicate DigestsTell(m: Means, history: seq<seq<Entry>>) {
    forall rel, x, y :: Lain(history, rel, x) && Lain(history, rel, y) ==> ReadAlike(m, rel, x, y)
  }

  /** What is held of a path was read from contents it had, of the digest that is held. */
  ghost predicate Backed(m: Means, history: seq<seq<Entry>>, rel: string, kept: Kept) {
    exists bytes :: Lain(history, rel, bytes) && BackedBy(m, rel, kept, bytes)
  }

  ghost predicate BackedBy(m: Means, rel: string, kept: Kept, bytes: Bytes) {
    && kept.hash == m.digest(bytes) && kept.sort == SortKey(rel)
    && m.recipe.collect(rel, bytes).Ok? && kept.rows == ByOrd(RowsOf(m.recipe.collect(rel, bytes).value))
  }

  ghost predicate AllBacked(m: Means, history: seq<seq<Entry>>, s: Shelf, of: Generation) {
    forall rel :: Key(of, rel) in s.files ==> Backed(m, history, rel, s.files[Key(of, rel)])
  }

  /** A file passed on its stamp alone still has contents of the digest held. */
  ghost predicate Unaltered(m: Means, known: map<string, Held>, f: Found) {
    Judge(m, known, f).Same? ==>
      f.rel in known && f.stored.content.Some? && m.digest(f.stored.content.value) == known[f.rel].hash
  }

  ghost predicate AllUnaltered(m: Means, known: map<string, Held>, tree: seq<Entry>) {
    forall f :: f in Files(tree, "") ==> Unaltered(m, known, f)
  }

  /** The tree as it is now is the last there was. */
  ghost predicate EndsIn(history: seq<seq<Entry>>, tree: seq<Entry>) {
    history != [] && history[|history| - 1] == tree
  }

  lemma NowLain(history: seq<seq<Entry>>, tree: seq<Entry>, f: Found)
    requires EndsIn(history, tree) && f in Files(tree, "") && f.stored.content.Some?
    ensures Lain(history, f.rel, f.stored.content.value)
  {
    assert f == Found(f.rel, Stored(Some(f.stored.content.value), f.stored.stamp));
    assert f in Files(history[|history| - 1], "");
  }

  lemma BackedIsMade(m: Means, history: seq<seq<Entry>>, tree: seq<Entry>, kept: Kept, f: Found)
    requires DigestsTell(m, history) && EndsIn(history, tree) && f in Files(tree, "")
    requires Backed(m, history, f.rel, kept)
    requires m.recipe.eligible(f.rel) && f.stored.content.Some? && m.digest(f.stored.content.value) == kept.hash
    ensures Yields(m, f) && Made(m, f) == kept.(stamp := f.stored.stamp)
  {
    var bytes :| Lain(history, f.rel, bytes) && BackedBy(m, f.rel, kept, bytes);
    NowLain(history, tree, f);
    assert ReadAlike(m, f.rel, bytes, f.stored.content.value);
  }

  /** Where digests tell the contents there have been, what is held is the file's own
      exactly if no file was altered under its stamp. */
  lemma HeldIfUnaltered(m: Means, history: seq<seq<Entry>>, s: Shelf, of: Generation, tree: seq<Entry>, f: Found)
    requires DigestsTell(m, history) && EndsIn(history, tree) && AllBacked(m, history, s, of)
    requires f in Files(tree, "") && Slashed(f.rel) == f.rel
    ensures HeldIsMade(m, s, of, f) <==> Unaltered(m, KnownOf(s, of), f)
  {
    var known, verdict := KnownOf(s, of), Judge(m, KnownOf(s, of), f);
    if verdict.Same? || verdict.Restamps? {
      assert Key(of, f.rel) in s.files && known[f.rel].hash == s.files[Key(of, f.rel)].hash;
      if Unaltered(m, known, f) { BackedIsMade(m, history, tree, s.files[Key(of, f.rel)], f); }
    }
  }

  lemma MirrorsExactlyIfUnaltered(m: Means, history: seq<seq<Entry>>, s: Shelf, of: Generation, tree: seq<Entry>)
    requires Proper(tree) && Rescanned(m, KnownOf(s, of), tree).Ok?
    requires DigestsTell(m, history) && EndsIn(history, tree) && AllBacked(m, history, s, of)
    ensures Mirrors(m, Applied(s, of, Rescanned(m, KnownOf(s, of), tree).value), of, tree)
            <==> AllUnaltered(m, KnownOf(s, of), tree)
  {
    ProperIsOneEach(tree);
    forall f | f in Files(tree, "") ensures HeldIsMade(m, s, of, f) <==> Unaltered(m, KnownOf(s, of), f) {
      FoundAtHolds(Files(tree, ""), f);
      FoundAtIsThere(Files(tree, ""), f.rel);
      HeldIfUnaltered(m, history, s, of, tree, f);
    }
    MirrorsExactlyIfHeldIsMade(m, s, of, tree);
  }

  // ---- Every history -------------------------------------------------------------------------------------

  /** A file had these contents at some time, under this stamp. */
  ghost predicate Stamped(history: seq<seq<Entry>>, rel: string, stamp: Stamp, bytes: Bytes) {
    exists i :: 0 <= i < |history| && Found(rel, Stored(Some(bytes), Some(stamp))) in Files(history[i], "")
  }

  /** Among all the trees there have been, a path's stamp tells its contents, and
      whether they can be read. */
  ghost predicate StampsTell(history: seq<seq<Entry>>) {
    forall i, j, f, g :: 0 <= i < |history| && 0 <= j < |history|
      && f in Files(history[i], "") && g in Files(history[j], "")
      && f.rel == g.rel && f.stored.stamp.Some? && f.stored.stamp == g.stored.stamp
      ==> f.stored.content == g.stored.content
  }

  /** The stamp held of a path was the file's when it had contents of the digest held. */
  ghost predicate StampBacked(m: Means, history: seq<seq<Entry>>, rel: string, kept: Kept) {
    kept.stamp.Some? ==> exists bytes :: Stamped(history, rel, kept.stamp.value, bytes) && m.digest(bytes) == kept.hash
  }

  ghost predicate AllStamped(m: Means, history: seq<seq<Entry>>, s: Shelf, of: Generation) {
    forall rel :: Key(of, rel) in s.files ==> StampBacked(m, history, rel, s.files[Key(of, rel)])
  }

  lemma SameStampSameContents(m: Means, history: seq<seq<Entry>>, tree: seq<Entry>, kept: Kept, f: Found)
    requires StampsTell(history) && EndsIn(history, tree) && f in Files(tree, "")
    requires StampBacked(m, history, f.rel, kept) && kept.stamp.Some? && f.stored.stamp == kept.stamp
    ensures f.stored.content.Some? && m.digest(f.stored.content.value) == kept.hash
  {
    var bytes :| Stamped(history, f.rel, kept.stamp.value, bytes) && m.digest(bytes) == kept.hash;
    var g := Found(f.rel, Stored(Some(bytes), Some(kept.stamp.value)));
    var i :| 0 <= i < |history| && g in Files(history[i], "");
    assert f in Files(history[|history| - 1], "") && f.rel == g.rel && f.stored.stamp == g.stored.stamp;
  }

  lemma StampedIsUnaltered(m: Means, history: seq<seq<Entry>>, s: Shelf, of: Generation, tree: seq<Entry>)
    requires StampsTell(history) && AllStamped(m, history, s, of) && Proper(tree)
    requires EndsIn(history, tree)
    ensures AllUnaltered(m, KnownOf(s, of), tree)
  {
    ProperIsOneEach(tree);
    forall f | f in Files(tree, "") ensures Unaltered(m, KnownOf(s, of), f) {
      FoundAtHolds(Files(tree, ""), f);
      FoundAtIsThere(Files(tree, ""), f.rel);
      FileUnaltered(m, history, s, of, tree, f);
    }
  }

  lemma FileUnaltered(m: Means, history: seq<seq<Entry>>, s: Shelf, of: Generation, tree: seq<Entry>, f: Found)
    requires StampsTell(history) && AllStamped(m, history, s, of) && EndsIn(history, tree)
    requires f in Files(tree, "") && Slashed(f.rel) == f.rel
    ensures Unaltered(m, KnownOf(s, of), f)
  {
    if Judge(m, KnownOf(s, of), f).Same? {
      var kept := s.files[Key(of, f.rel)];
      assert StampBacked(m, history, f.rel, kept);
      SameStampSameContents(m, history, tree, kept, f);
    }
  }

  /** What stands behind a generation: contents for every row, a time for every stamp. */
  ghost predicate Grounded(m: Means, history: seq<seq<Entry>>, s: Shelf, of: Generation) {
    AllBacked(m, history, s, of) && AllStamped(m, history, s, of)
  }

  ghost predicate GroundedAt(m: Means, history: seq<seq<Entry>>, rel: string, kept: Kept) {
    Backed(m, history, rel, kept) && StampBacked(m, history, rel, kept)
  }

  lemma NowStamps(m: Means, history: seq<seq<Entry>>, tree: seq<Entry>, f: Found, kept: Kept)
    requires EndsIn(history, tree) && f in Files(tree, "") && f.stored.content.Some?
    requires kept.stamp == f.stored.stamp && kept.hash == m.digest(f.stored.content.value)
    ensures StampBacked(m, history, f.rel, kept)
  {
    if kept.stamp.Some? {
      var bytes := f.stored.content.value;
      assert history[|history| - 1] == tree && f == Found(f.rel, Stored(Some(bytes), Some(kept.stamp.value)));
      assert Stamped(history, f.rel, kept.stamp.value, bytes);
    }
  }

  lemma BackedWhateverStamp(m: Means, history: seq<seq<Entry>>, rel: string, kept: Kept, stamp: Option<Stamp>)
    requires Backed(m, history, rel, kept)
    ensures Backed(m, history, rel, kept.(stamp := stamp))
  {
    var bytes :| Lain(history, rel, bytes) && BackedBy(m, rel, kept, bytes);
    assert BackedBy(m, rel, kept.(stamp := stamp), bytes);
  }

  /** A file read now backs what is written of it, and its stamp. */
  lemma ReadIsBacked(m: Means, history: seq<seq<Entry>>, tree: seq<Entry>, known: map<string, Held>, f: Found,
                     fragments: seq<Fragment>)
    requires EndsIn(history, tree) && f in Files(tree, "") && Slashed(f.rel) == f.rel
    requires Judge(m, known, f) == Reads(fragments)
    ensures GroundedAt(m, history, f.rel, KeptOf(IndexedOf(FreshOf(m, f, fragments))))
  {
    var bytes := f.stored.content.value;
    var kept := KeptOf(IndexedOf(FreshOf(m, f, fragments)));
    NowLain(history, tree, f);
    assert BackedBy(m, f.rel, kept, bytes);
    assert Backed(m, history, f.rel, kept);
    NowStamps(m, history, tree, f, kept);
    GroundedOf(m, history, f.rel, kept);
  }

  lemma GroundedOf(m: Means, history: seq<seq<Entry>>, rel: string, kept: Kept)
    requires Backed(m, history, rel, kept) && StampBacked(m, history, rel, kept)
    ensures GroundedAt(m, history, rel, kept)
  {
  }

  lemma RestampsKnows(m: Means, known: map<string, Held>, f: Found)
    requires Slashed(f.rel) == f.rel && Judge(m, known, f).Restamps?
    ensures f.rel in known && f.stored.content.Some? && m.digest(f.stored.content.value) == known[f.rel].hash
  {
  }

  /** A new stamp is backed by the contents just found to have the digest held. */
  lemma RestampIsBacked(m: Means, history: seq<seq<Entry>>, tree: seq<Entry>, known: map<string, Held>, f: Found,
                        kept: Kept)
    requires EndsIn(history, tree) && f in Files(tree, "") && Slashed(f.rel) == f.rel
    requires Judge(m, known, f).Restamps? && known[f.rel].hash == kept.hash && Backed(m, history, f.rel, kept)
    ensures GroundedAt(m, history, f.rel, kept.(stamp := f.stored.stamp))
  {
    RestampsKnows(m, known, f);
    var now := kept.(stamp := f.stored.stamp);
    BackedWhateverStamp(m, history, f.rel, kept, f.stored.stamp);
    NowStamps(m, history, tree, f, now);
    GroundedOf(m, history, f.rel, now);
  }

  lemma WrittenIsGrounded(m: Means, history: seq<seq<Entry>>, s: Shelf, of: Generation, tree: seq<Entry>)
    requires Grounded(m, history, s, of) && Proper(tree) && EndsIn(history, tree)
    requires Rescanned(m, KnownOf(s, of), tree).Ok?
    ensures Grounded(m, history, Written(s, of, AllIndexed(Rescanned(m, KnownOf(s, of), tree).value.renewed)), of)
  {
    var known := KnownOf(s, of);
    var scan := Rescanned(m, known, tree).value;
    var t := Written(s, of, AllIndexed(scan.renewed));
    ProperIsOneEach(tree);
    forall rel | Key(of, rel) in t.files ensures GroundedAt(m, history, rel, t.files[Key(of, rel)]) {
      WrittenAt(s.files, of, scan.renewed, Key(of, rel));
      ScanSays(m, known, Files(tree, ""), rel);
      FoundAtIsThere(Files(tree, ""), rel);
      if LastFresh(scan.renewed, rel).Some? {
        var f := FoundAt(Files(tree, ""), rel).value;
        ReadIsBacked(m, history, tree, known, f, Judge(m, known, f).fragments);
      } else {
        assert GroundedAt(m, history, rel, s.files[Key(of, rel)]);
      }
    }
    assert forall rel :: Key(of, rel) in t.files ==> GroundedAt(m, history, rel, t.files[Key(of, rel)]);
  }

  lemma RestampingIsGrounded(m: Means, history: seq<seq<Entry>>, s: Shelf, of: Generation, tree: seq<Entry>)
    requires Grounded(m, history, s, of) && Proper(tree) && EndsIn(history, tree)
    requires Rescanned(m, KnownOf(s, of), tree).Ok?
    ensures Grounded(m, history, Restamping(s, of, Rescanned(m, KnownOf(s, of), tree).value), of)
  {
    var known := KnownOf(s, of);
    var scan := Rescanned(m, known, tree).value;
    var w := Written(s, of, AllIndexed(scan.renewed));
    var t := Restamping(s, of, scan);
    ProperIsOneEach(tree);
    WrittenIsGrounded(m, history, s, of, tree);
    forall rel | Key(of, rel) in t.files ensures GroundedAt(m, history, rel, t.files[Key(of, rel)]) {
      WrittenAt(s.files, of, scan.renewed, Key(of, rel));
      RestampedAt(w.files, of, scan.restamped, Key(of, rel));
      ScanSays(m, known, Files(tree, ""), rel);
      FoundAtIsThere(Files(tree, ""), rel);
      assert GroundedAt(m, history, rel, w.files[Key(of, rel)]);
      if LastStamp(scan.restamped, rel).Some? {
        RestampIsBacked(m, history, tree, known, FoundAt(Files(tree, ""), rel).value, w.files[Key(of, rel)]);
      }
    }
    assert forall rel :: Key(of, rel) in t.files ==> GroundedAt(m, history, rel, t.files[Key(of, rel)]);
  }

  lemma FewerIsGrounded(m: Means, history: seq<seq<Entry>>, s: Shelf, t: Shelf, of: Generation)
    requires Grounded(m, history, s, of)
    requires forall rel :: Key(of, rel) in t.files ==>
      Key(of, rel) in s.files && t.files[Key(of, rel)] == s.files[Key(of, rel)]
    ensures Grounded(m, history, t, of)
  {
  }

  lemma AppliedIsGrounded(m: Means, history: seq<seq<Entry>>, s: Shelf, of: Generation, scan: Rescan)
    requires Grounded(m, history, Restamping(s, of, scan), of)
    ensures Grounded(m, history, Applied(s, of, scan), of)
  {
    FewerIsGrounded(m, history, Restamping(s, of, scan), Applied(s, of, scan), of);
  }

  lemma StageIsGrounded(m: Means, history: seq<seq<Entry>>, s: Shelf, of: Generation, tree: seq<Entry>, t: Shelf)
    requires Grounded(m, history, s, of) && Proper(tree) && EndsIn(history, tree)
    requires Rescanned(m, KnownOf(s, of), tree).Ok? && Stage(s, of, Rescanned(m, KnownOf(s, of), tree).value, t)
    ensures Grounded(m, history, t, of)
  {
    WrittenIsGrounded(m, history, s, of, tree);
    RestampingIsGrounded(m, history, s, of, tree);
    AppliedIsGrounded(m, history, s, of, Rescanned(m, KnownOf(s, of), tree).value);
  }

  /** Whether it came through or faulted midway, a refresh leaves the generation
      grounded. */
  lemma WalkedIsGrounded(m: Means, history: seq<seq<Entry>>, s: Shelf, of: Generation, tree: seq<Entry>, fault: Fault)
    requires Grounded(m, history, s, of) && Proper(tree) && EndsIn(history, tree)
    ensures Grounded(m, history, Walked(m, s, of, tree, fault).1, of)
  {
    WalkedIsAStage(m, s, of, tree, fault);
    if Rescanned(m, KnownOf(s, of), tree).Ok? {
      StageIsGrounded(m, history, s, of, tree, Walked(m, s, of, tree, fault).1);
    }
  }

  lemma StoodStays(history: seq<seq<Entry>>, tree: seq<Entry>, rel: string, bytes: Bytes)
    requires Lain(history, rel, bytes)
    ensures Lain(history + [tree], rel, bytes)
  {
    var i, stamp :| 0 <= i < |history| && Found(rel, Stored(Some(bytes), stamp)) in Files(history[i], "");
    assert (history + [tree])[i] == history[i];
  }

  lemma {:induction false} LaterIsGrounded(m: Means, history: seq<seq<Entry>>, tree: seq<Entry>, s: Shelf,
                                           of: Generation)
    requires Grounded(m, history, s, of)
    ensures Grounded(m, history + [tree], s, of)
  {
    forall rel | Key(of, rel) in s.files ensures GroundedAt(m, history + [tree], rel, s.files[Key(of, rel)]) {
      var kept := s.files[Key(of, rel)];
      assert GroundedAt(m, history, rel, kept);
      var bytes :| Lain(history, rel, bytes) && BackedBy(m, rel, kept, bytes);
      StoodStays(history, tree, rel, bytes);
      if kept.stamp.Some? {
        var bytes :| Stamped(history, rel, kept.stamp.value, bytes) && m.digest(bytes) == kept.hash;
        var i :| 0 <= i < |history| && Found(rel, Stored(Some(bytes), Some(kept.stamp.value))) in Files(history[i], "");
        assert (history + [tree])[i] == history[i];
        assert Stamped(history + [tree], rel, kept.stamp.value, bytes);
      }
    }
  }

  /** The tree is edited, the generation is refreshed or, elsewhere in the index,
      something is done that does not write this generation's files. */
  datatype Event =
    | Edit(tree: seq<Entry>)
    | Refreshed(spent: nat -> Option<Budgets.Spent>, fault: Fault)
    | Apart(op: Op)

  predicate Elsewhere(op: Op, of: Generation) { op.of != of || op.Seal? || op.Discard? }

  datatype World = World(history: seq<seq<Entry>>, shelf: Shelf)

  function Now(w: World): seq<Entry> { if w.history == [] then [] else w.history[|w.history| - 1] }

  function After(m: Means, w: World, e: Event): World {
    match e
    case Edit(tree) => w.(history := w.history + [tree])
    case Refreshed(spent, fault) =>
      w.(shelf := Walked(m.(spent := spent), w.shelf, GenerationOf(m.recipe), Now(w), fault).1)
    case Apart(op) => if Elsewhere(op, GenerationOf(m.recipe)) then w.(shelf := Done(w.shelf, op)) else w
  }

  /** From an empty tree and an empty index. */
  function Live(m: Means, events: seq<Event>): World {
    if events == [] then World([[]], EMPTY) else After(m, Live(m, events[..|events| - 1]), events[|events| - 1])
  }

  ghost predicate AllProper(history: seq<seq<Entry>>) {
    forall i :: 0 <= i < |history| ==> Proper(history[i])
  }

  lemma {:induction false} WrittenElsewhere(files: map<Key, Kept>, of: Generation, more: seq<Indexed>, key: Key)
    requires key.of != of
    ensures var after := WrittenFiles(files, of, more);
            (key in after <==> key in files) && (key in files ==> after[key] == files[key])
    decreases |more|
  {
    if more != [] { WrittenElsewhere(files, of, more[..|more| - 1], key); }
  }

  lemma ElsewhereKeeps(s: Shelf, op: Op, of: Generation, key: Key)
    requires Elsewhere(op, of) && key.of == of && key in Done(s, op).files
    ensures key in s.files && Done(s, op).files[key] == s.files[key]
  {
    match op
    case Write(other, files) => WrittenElsewhere(s.files, other, files, key);
    case Restamp(other, stamps) => RestampedAt(s.files, other, stamps, key);
    case _ =>
  }

  lemma {:induction false} LiveIsGrounded(m: Means, events: seq<Event>)
    requires AllProper(Live(m, events).history)
    ensures Live(m, events).history != []
      && Grounded(m, Live(m, events).history, Live(m, events).shelf, GenerationOf(m.recipe))
    decreases |events|
  {
    if events != [] {
      var w, e, of := Live(m, events[..|events| - 1]), events[|events| - 1], GenerationOf(m.recipe);
      assert w.history <= Live(m, events).history;
      assert forall i :: 0 <= i < |w.history| ==> w.history[i] == Live(m, events).history[i];
      LiveIsGrounded(m, events[..|events| - 1]);
      match e {
        case Edit(tree) => LaterIsGrounded(m, w.history, tree, w.shelf, of);
        case Refreshed(spent, fault) =>
          var n := m.(spent := spent);
          SpentDoesNotGround(m, n, w.history, w.shelf, of);
          WalkedIsGrounded(n, w.history, w.shelf, of, Now(w), fault);
          SpentDoesNotGround(n, m, w.history, Walked(n, w.shelf, of, Now(w), fault).1, of);
        case Apart(op) =>
          if Elsewhere(op, of) {
            forall rel | Key(of, rel) in Done(w.shelf, op).files
              ensures Key(of, rel) in w.shelf.files
                && Done(w.shelf, op).files[Key(of, rel)] == w.shelf.files[Key(of, rel)]
            {
              ElsewhereKeeps(w.shelf, op, of, Key(of, rel));
            }
            FewerIsGrounded(m, w.history, w.shelf, Done(w.shelf, op), of);
          }
      }
    } else {
      assert Grounded(m, [[]], EMPTY, GenerationOf(m.recipe));
    }
  }

  lemma SpentDoesNotGround(m: Means, n: Means, history: seq<seq<Entry>>, s: Shelf, of: Generation)
    requires m.recipe == n.recipe && m.digest == n.digest && Grounded(m, history, s, of)
    ensures Grounded(n, history, s, of)
  {
    forall rel | Key(of, rel) in s.files
      ensures GroundedAt(n, history, rel, s.files[Key(of, rel)])
    {
      var kept := s.files[Key(of, rel)];
      assert GroundedAt(m, history, rel, kept);
      var bytes :| Lain(history, rel, bytes) && BackedBy(m, rel, kept, bytes);
      assert BackedBy(n, rel, kept, bytes);
    }
  }

  /** After any history of edits and of refreshes, come through or faulted, a refresh
      that comes through leaves the generation mirroring the tree as it is. */
  lemma EveryRefreshMirrors(m: Means, events: seq<Event>, w: World, fault: Fault)
    requires w == Live(m, events) && AllProper(w.history) && StampsTell(w.history) && DigestsTell(m, w.history)
    ensures var of := GenerationOf(m.recipe);
            Walked(m, w.shelf, of, Now(w), fault).0.Ok? ==>
              Mirrors(m, Walked(m, w.shelf, of, Now(w), fault).1, of, Now(w))
  {
    LiveIsGrounded(m, events);
    LastIsProper(w.history);
    GroundedRefreshMirrors(m, w.history, w.shelf, GenerationOf(m.recipe), Now(w), fault);
  }

  lemma LastIsProper(history: seq<seq<Entry>>)
    requires AllProper(history) && history != []
    ensures Proper(history[|history| - 1])
  {
  }

  lemma GroundedRefreshMirrors(m: Means, history: seq<seq<Entry>>, s: Shelf, of: Generation, tree: seq<Entry>,
                               fault: Fault)
    requires DigestsTell(m, history) && StampsTell(history) && Proper(tree) && EndsIn(history, tree)
    requires Grounded(m, history, s, of)
    ensures Walked(m, s, of, tree, fault).0.Ok? ==> Mirrors(m, Walked(m, s, of, tree, fault).1, of, tree)
  {
    WalkedIsAStage(m, s, of, tree, fault);
    StampedIsUnaltered(m, history, s, of, tree);
    if Rescanned(m, KnownOf(s, of), tree).Ok? { MirrorsExactlyIfUnaltered(m, history, s, of, tree); }
  }

  // ---- As if rebuilt from nothing --------------------------------------------------------------------

  ghost predicate AllYield(m: Means, found: seq<Found>) {
    forall i :: 0 <= i < |found| && m.recipe.eligible(found[i].rel) && found[i].stored.content.Some? ==>
      Yields(m, found[i])
  }

  lemma {:induction false} RebuildComesThrough(m: Means, found: seq<Found>, s: Scan)
    requires s.halted.None? && (forall k :: m.spent(k).None?) && AllYield(m, found)
    requires forall i :: 0 <= i < |found| ==> Slashed(found[i].rel) == found[i].rel
    ensures ScanFrom(m, map[], s, found).halted.None?
    decreases |found|
  {
    if found != [] {
      assert Yields(m, found[0]) || !m.recipe.eligible(found[0].rel) || found[0].stored.content.None?;
      RebuildComesThrough(m, found[1..], Each(m, map[], s, found[0]));
    }
  }

  /** Wherever a refresh leaves the generation, a rebuild from nothing, given time,
      comes through and leaves the same files with the same rows. */
  lemma RefreshIsRebuild(m: Means, s: Shelf, of: Generation, tree: seq<Entry>, patient: nat -> Option<Budgets.Spent>)
    requires Proper(tree) && Mirrors(m, s, of, tree) && forall k :: patient(k).None?
    ensures var (r, t) := Walked(m.(spent := patient), EMPTY, of, tree, NoFault);
            && r.Ok?
            && (forall rel :: Key(of, rel) in s.files <==> Key(of, rel) in t.files)
            && (forall rel :: Key(of, rel) in s.files ==> s.files[Key(of, rel)] == t.files[Key(of, rel)])
  {
    var n := m.(spent := patient);
    MirrorsAnyBudget(m, n, s, of, tree);
    EmptyRefreshMirrors(n, s, of, tree);
    OneMirror(n, s, Walked(n, EMPTY, of, tree, NoFault).1, of, tree);
  }

  lemma EmptyRefreshMirrors(m: Means, s: Shelf, of: Generation, tree: seq<Entry>)
    requires Proper(tree) && Mirrors(m, s, of, tree) && forall k :: m.spent(k).None?
    ensures Walked(m, EMPTY, of, tree, NoFault).0.Ok? && Mirrors(m, Walked(m, EMPTY, of, tree, NoFault).1, of, tree)
  {
    MirroredYields(m, s, of, tree);
    EmptyRescans(m, of, tree);
    WalkedIsAStage(m, EMPTY, of, tree, NoFault);
    MirrorsExactlyIfHeldIsMade(m, EMPTY, of, tree);
  }

  /** From nothing, every file is read. */
  lemma EmptyRescans(m: Means, of: Generation, tree: seq<Entry>)
    requires Proper(tree) && AllYield(m, Files(tree, "")) && forall k :: m.spent(k).None?
    ensures Rescanned(m, KnownOf(EMPTY, of), tree).Ok? && AllHeldIsMade(m, EMPTY, of, tree)
  {
    ProperIsOneEach(tree);
    assert KnownOf(EMPTY, of) == map[];
    RebuildComesThrough(m, Files(tree, ""), BEGUN);
  }

  lemma MirroredYields(m: Means, s: Shelf, of: Generation, tree: seq<Entry>)
    requires Mirrors(m, s, of, tree)
    ensures AllYield(m, Files(tree, ""))
  {
    var found := Files(tree, "");
    forall i | 0 <= i < |found| && m.recipe.eligible(found[i].rel) && found[i].stored.content.Some?
      ensures Yields(m, found[i])
    {
      assert found[i] in found;
    }
  }

  lemma MirrorsAnyBudget(m: Means, n: Means, s: Shelf, of: Generation, tree: seq<Entry>)
    requires m.recipe == n.recipe && m.digest == n.digest && Mirrors(m, s, of, tree)
    ensures Mirrors(n, s, of, tree)
  {
    forall f ensures Yields(m, f) <==> Yields(n, f) { }
    forall f | Yields(m, f) ensures Made(m, f) == Made(n, f) { }
    forall rel | Key(of, rel) in s.files ensures exists f :: f in Files(tree, "") && f.rel == rel && Yields(n, f) {
      var f :| f in Files(tree, "") && f.rel == rel && Yields(m, f);
      assert Yields(n, f);
    }
  }

  // ---- Done again -------------------------------------------------------------------------------------

  /** The same probe with another budget. */
  ghost predicate Otherwise(m: Means, n: Means) { n == m.(spent := n.spent) }

  predicate OutOfTime(s: Scan) { s.halted.Some? && s.halted.value.Spent? }

  /** A budget decides nothing of a scan but where it halts. */
  lemma {:induction false} BudgetsOnlyHalt(m: Means, n: Means, known: map<string, Held>, s: Scan, found: seq<Found>)
    requires Otherwise(m, n)
    ensures var (a, b) := (ScanFrom(m, known, s, found), ScanFrom(n, known, s, found));
            OutOfTime(a) || OutOfTime(b) || a == b
    decreases |found|
  {
    if found != [] && s.halted.None? && m.spent(s.visited).None? && n.spent(s.visited).None? {
      assert Judge(m, known, found[0]) == Judge(n, known, found[0]);
      assert Each(m, known, s, found[0]) == Each(n, known, s, found[0]);
      BudgetsOnlyHalt(m, n, known, Each(m, known, s, found[0]), found[1..]);
    }
  }

  lemma RescansAgree(m: Means, n: Means, known: map<string, Held>, tree: seq<Entry>)
    requires Otherwise(m, n)
    ensures var (a, b) := (Rescanned(m, known, tree), Rescanned(n, known, tree));
            (a.Err? && a.error.Spent?) || (b.Err? && b.error.Spent?) || a == b
  {
    BudgetsOnlyHalt(m, n, known, BEGUN, Files(tree, ""));
  }

  /** A path held just as the tree has it: nothing of it to read, to refuse or to forget. */
  ghost predicate AtRestAt(m: Means, t: Shelf, of: Generation, rel: string, f: Option<Found>) {
    match f
    case None => Key(of, rel) !in t.files
    case Some(f) =>
      var verdict := Judge(m, KnownOf(t, of), f);
      && (verdict.Passed? || verdict.Same? || verdict.Restamps?)
      && (Key(of, rel) in t.files <==> !verdict.Passed?)
      && (Key(of, rel) in t.files ==> t.files[Key(of, rel)].stamp == f.stored.stamp)
  }

  ghost predicate AtRest(m: Means, t: Shelf, of: Generation, tree: seq<Entry>) {
    forall rel :: AtRestAt(m, t, of, rel, FoundAt(Files(tree, ""), rel))
  }

  lemma BecomesSettled(m: Means, s: Shelf, of: Generation, t: Shelf, rel: string, f: Option<Found>)
    requires Becomes(m, s, of, t, rel, f) && (f.Some? ==> f.value.rel == rel && Slashed(rel) == rel)
    ensures AtRestAt(m, t, of, rel, f)
  {
    var key := Key(of, rel);
    assert key in t.files ==> KnownOf(t, of)[rel] == Held(t.files[key].hash, t.files[key].stamp);
    assert key !in t.files ==> rel !in KnownOf(t, of);
  }

  /** A refresh that came through leaves every path settled. */
  lemma RefreshSettles(m: Means, s: Shelf, of: Generation, tree: seq<Entry>)
    requires Proper(tree) && Rescanned(m, KnownOf(s, of), tree).Ok?
    ensures AtRest(m, Applied(s, of, Rescanned(m, KnownOf(s, of), tree).value), of, tree)
  {
    var t := Applied(s, of, Rescanned(m, KnownOf(s, of), tree).value);
    ProperIsOneEach(tree);
    forall rel ensures AtRestAt(m, t, of, rel, FoundAt(Files(tree, ""), rel)) {
      RefreshBecomes(m, s, of, tree, rel);
      FoundAtIsThere(Files(tree, ""), rel);
      BecomesSettled(m, s, of, t, rel, FoundAt(Files(tree, ""), rel));
    }
  }

  lemma JudgedAlike(m: Means, n: Means, known: map<string, Held>, f: Found)
    requires Otherwise(m, n)
    ensures Judge(m, known, f) == Judge(n, known, f)
  {
  }

  lemma SettledAnyBudget(m: Means, n: Means, t: Shelf, of: Generation, tree: seq<Entry>)
    requires Otherwise(m, n) && AtRest(m, t, of, tree)
    ensures AtRest(n, t, of, tree)
  {
    forall rel ensures AtRestAt(n, t, of, rel, FoundAt(Files(tree, ""), rel)) {
      var f := FoundAt(Files(tree, ""), rel);
      assert AtRestAt(m, t, of, rel, f);
      if f.Some? { JudgedAlike(m, n, KnownOf(t, of), f.value); }
    }
  }

  /** A scan that finds nothing new: no file to write, none gone, and every stamp as held. */
  ghost predicate NothingNew(t: Shelf, of: Generation, scan: Rescan) {
    && scan.renewed == [] && scan.gone == {}
    && forall rel :: LastStamp(scan.restamped, rel).Some? && Key(of, rel) in t.files ==>
         t.files[Key(of, rel)].stamp == LastStamp(scan.restamped, rel).value
  }

  /** What a scan says of a settled path. */
  ghost predicate SaysNothing(t: Shelf, of: Generation, scan: Scan, rel: string) {
    && LastFresh(scan.renewed, rel) == None
    && (Key(of, rel) in t.files ==> rel in scan.seen)
    && (LastStamp(scan.restamped, rel).Some? && Key(of, rel) in t.files ==>
          t.files[Key(of, rel)].stamp == LastStamp(scan.restamped, rel).value)
  }

  lemma SettledSaysNothing(m: Means, t: Shelf, of: Generation, scan: Scan, rel: string, f: Option<Found>)
    requires AtRestAt(m, t, of, rel, f) && Says(m, KnownOf(t, of), scan, rel, f)
    ensures SaysNothing(t, of, scan, rel)
  {
  }

  lemma RescannedAgain(m: Means, t: Shelf, of: Generation, tree: seq<Entry>)
    requires Proper(tree) && AtRest(m, t, of, tree) && Rescanned(m, KnownOf(t, of), tree).Ok?
    ensures NothingNew(t, of, Rescanned(m, KnownOf(t, of), tree).value)
  {
    var known, found := KnownOf(t, of), Files(tree, "");
    var scan := ScanFrom(m, known, BEGUN, found);
    ProperIsOneEach(tree);
    forall rel ensures SaysNothing(t, of, scan, rel) {
      ScanSays(m, known, found, rel);
      assert AtRestAt(m, t, of, rel, FoundAt(found, rel));
      SettledSaysNothing(m, t, of, scan, rel, FoundAt(found, rel));
    }
    NothingSaid(t, of, scan);
  }

  lemma NothingSaid(t: Shelf, of: Generation, scan: Scan)
    requires forall rel :: SaysNothing(t, of, scan, rel)
    ensures NothingNew(t, of, Rescan(scan.renewed, scan.restamped, KnownOf(t, of).Keys - scan.seen))
  {
    var last := if scan.renewed == [] then "" else scan.renewed[|scan.renewed| - 1].rel;
    assert SaysNothing(t, of, scan, last);
    forall rel | rel in KnownOf(t, of) ensures rel in scan.seen { assert SaysNothing(t, of, scan, rel); }
    forall rel | LastStamp(scan.restamped, rel).Some? && Key(of, rel) in t.files
      ensures t.files[Key(of, rel)].stamp == LastStamp(scan.restamped, rel).value
    {
      assert SaysNothing(t, of, scan, rel);
    }
  }

  lemma NothingNewChangesNothing(t: Shelf, of: Generation, scan: Rescan, u: Shelf)
    requires NothingNew(t, of, scan) && Stage(t, of, scan, u)
    ensures u.files == t.files
  {
    var w := Written(t, of, AllIndexed(scan.renewed));
    assert w.files == t.files;
    forall key ensures key in Restamping(t, of, scan).files <==> key in t.files
      ensures key in t.files ==> Restamping(t, of, scan).files[key] == t.files[key]
    {
      RestampedAt(w.files, of, scan.restamped, key);
    }
    assert Restamping(t, of, scan).files == t.files;
    assert Applied(t, of, scan).files == t.files;
  }

  /** A halt that may not come again. */
  predicate Passing(r: Result<(), Halt>) { r.Err? && (r.error.Spent? || r.error.Faulted?) }

  /** What is settled is refused nothing. */
  lemma {:induction false} SettledIsNotRefused(m: Means, t: Shelf, of: Generation, all: seq<Found>, from: Scan,
                                               found: seq<Found>)
    requires OneEach(all) && forall f :: f in found ==> f in all
    requires forall rel :: AtRestAt(m, t, of, rel, FoundAt(all, rel))
    requires from.halted.None?
    ensures var scan := ScanFrom(m, KnownOf(t, of), from, found); scan.halted.None? || OutOfTime(scan)
    decreases |found|
  {
    if found != [] {
      var f := found[0];
      var next := Each(m, KnownOf(t, of), from, f);
      NotRefused(m, t, of, all, from, f);
      assert forall g :: g in found[1..] ==> g in found;
      if next.halted.None? { SettledIsNotRefused(m, t, of, all, next, found[1..]); }
    }
  }

  lemma NotRefused(m: Means, t: Shelf, of: Generation, all: seq<Found>, from: Scan, f: Found)
    requires OneEach(all) && f in all && from.halted.None? && AtRestAt(m, t, of, f.rel, FoundAt(all, f.rel))
    ensures var next := Each(m, KnownOf(t, of), from, f); next.halted.None? || OutOfTime(next)
  {
    FoundAtHolds(all, f);
  }

  lemma SettledWalk(m: Means, t: Shelf, of: Generation, tree: seq<Entry>, fault: Fault)
    requires Proper(tree) && AtRest(m, t, of, tree)
    ensures var (r, u) := Walked(m, t, of, tree, fault); (r.Ok? || Passing(r)) && u.files == t.files
  {
    ProperIsOneEach(tree);
    WalkedIsAStage(m, t, of, tree, fault);
    SettledIsNotRefused(m, t, of, Files(tree, ""), BEGUN, Files(tree, ""));
    if Rescanned(m, KnownOf(t, of), tree).Ok? {
      RescannedAgain(m, t, of, tree);
      NothingNewChangesNothing(t, of, Rescanned(m, KnownOf(t, of), tree).value, Walked(m, t, of, tree, fault).1);
    }
  }

  /** The walk done again comes to the same, unless it is halted in passing, and leaves
      the files as they were. */
  ghost predicate ComesAgain(m: Means, was: Result<(), Halt>, t: Shelf, of: Generation, tree: seq<Entry>,
                             fault: Fault) {
    var (r, u) := Walked(m, t, of, tree, fault);
    (r == was || Passing(r)) && u.files == t.files
  }

  lemma RefusedWalk(m: Means, n: Means, s: Shelf, of: Generation, tree: seq<Entry>, fault: Fault, again: Fault)
    requires Otherwise(m, n)
    requires var r := Walked(m, s, of, tree, fault).0; r.Err? && r.error.Deterministic()
    ensures Walked(m, s, of, tree, fault).1 == s
    ensures ComesAgain(n, Walked(m, s, of, tree, fault).0, s, of, tree, again)
  {
    var r := Walked(m, s, of, tree, fault).0;
    RefusedInScan(m, s, of, tree, fault);
    RescansAgree(m, n, KnownOf(s, of), tree);
    HaltedScanHalts(n, s, of, tree, again, r);
  }

  /** Only a scan refuses. */
  lemma RefusedInScan(m: Means, s: Shelf, of: Generation, tree: seq<Entry>, fault: Fault)
    requires var r := Walked(m, s, of, tree, fault).0; r.Err? && r.error.Deterministic()
    ensures Walked(m, s, of, tree, fault).1 == s
    ensures Rescanned(m, KnownOf(s, of), tree) == Err(Walked(m, s, of, tree, fault).0.error)
  {
  }

  lemma HaltedScanHalts(n: Means, s: Shelf, of: Generation, tree: seq<Entry>, fault: Fault, was: Result<(), Halt>)
    requires was.Err?
    requires var r := Rescanned(n, KnownOf(s, of), tree); r.Err? && (r.error.Spent? || r.error == was.error)
    ensures ComesAgain(n, was, s, of, tree, fault)
  {
  }

  lemma ThroughSettles(m: Means, s: Shelf, of: Generation, tree: seq<Entry>, fault: Fault)
    requires Proper(tree) && Walked(m, s, of, tree, fault).0.Ok?
    ensures AtRest(m, Walked(m, s, of, tree, fault).1, of, tree)
  {
    WalkedIsAStage(m, s, of, tree, fault);
    RefreshSettles(m, s, of, tree);
  }

  lemma SettledAgain(m: Means, n: Means, was: Result<(), Halt>, t: Shelf, of: Generation, tree: seq<Entry>,
                     fault: Fault)
    requires Otherwise(m, n) && Proper(tree) && AtRest(m, t, of, tree) && was.Ok?
    ensures ComesAgain(n, was, t, of, tree, fault)
  {
    SettledAnyBudget(m, n, t, of, tree);
    SettledWalk(n, t, of, tree, fault);
    var r := Walked(n, t, of, tree, fault).0;
    if r.Ok? { OneUnit(r.value, was.value); }
  }

  lemma OneUnit(a: (), b: ())
    ensures a == b
  {
    match a case () => match b case () =>
  }

  /** On a tree that stays still, a walk whose outcome is kept comes to the same when it
      is done again, with any budget and any fault. */
  lemma WalkedAgain(m: Means, n: Means, s: Shelf, of: Generation, tree: seq<Entry>, fault: Fault, again: Fault)
    requires Otherwise(m, n) && Proper(tree)
    requires var r := Walked(m, s, of, tree, fault).0; r.Ok? || r.error.Deterministic()
    ensures ComesAgain(n, Walked(m, s, of, tree, fault).0, Walked(m, s, of, tree, fault).1, of, tree, again)
  {
    var (r, t) := Walked(m, s, of, tree, fault);
    if r.Ok? {
      ThroughSettles(m, s, of, tree, fault);
      SettledAgain(m, n, r, t, of, tree, again);
    } else {
      RefusedWalk(m, n, s, of, tree, fault, again);
    }
  }
}
