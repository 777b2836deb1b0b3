/** A corpus kept in the tables: refreshed from the tree, read back as fragments. */
module Bridging {
  import opened Wrappers
  import opened Corpus
  import opened Index
  import opened Matching
  import opened Refresh
  import opened Sqlite
  import opened Walk

  function FragmentOf(l: Located): Fragment { Fragment(l.row.coord, l.row.facts, l.row.id) }

  function FragmentsOf(rows: seq<Located>): seq<Fragment> {
    if rows == [] then [] else [FragmentOf(rows[0])] + FragmentsOf(rows[1..])
  }

  /** The fragments of the rows that an index is to list. */
  ghost predicate AreOf(fragments: seq<Fragment>, s: Shelf, of: Generation, root: string, want: Option<Want>) {
    exists rows :: Lists(s, of, root, want, rows) && fragments == FragmentsOf(rows)
  }

  /** The walks already done, for a tree that stays still. */
  type Memo = Option<map<Generation, Result<(), Halt>>>

  predicate Remembers(memo: Memo, of: Generation) { memo.Some? && of in memo.value }

  /** What a refresh comes to: the walk remembered or, failing that, the walk, whose
      outcome is remembered if it would be the same again. */
  function Refreshing(m: Means, memo: Memo, s: Shelf, tree: seq<Entry>, fault: Fault): (Result<(), Halt>, Shelf, Memo) {
    var of := GenerationOf(m.recipe);
    if Remembers(memo, of) then (memo.value[of], s, memo)
    else
      var (r, t) := Walked(m, s, of, tree, fault);
      (r, t, if memo.Some? && (r.Ok? || r.error.Deterministic()) then Some(memo.value[of := r]) else memo)
  }

  class Bridge {
    const index: SqliteIndex
    var walked: Memo

    ghost predicate Valid()
      reads this, index
    {
      index.Valid()
    }

    constructor (index: SqliteIndex)
      ensures this.index == index && walked == None
    {
      this.index := index;
      walked := None;
    }

    method OverAStillTree()
      modifies this
      ensures walked == Some(map[])
    {
      walked := Some(map[]);
    }

    method Walk(m: Means, tree: seq<Entry>, fault: Fault) returns (r: Result<(), Halt>)
      requires Valid()
      modifies index
      ensures Valid()
      ensures (r, index.Contents()) == Walked(m, old(index.Contents()), GenerationOf(m.recipe), tree, fault)
    {
      var of := GenerationOf(m.recipe);
      if fault.AtKnown? { return Err(Faulted(fault.trouble)); }
      var known := index.Known(of);
      var rescanned := RescanTree(m, known, tree);
      if rescanned.Err? { return Err(rescanned.error); }
      var scan := rescanned.value;
      var files := AllIndexed(scan.renewed);
      if fault.AtWrite? { return Err(Faulted(fault.trouble)); }
      var written := index.Write(of, files);
      if scan.restamped != [] {
        if fault.AtRestamp? { return Err(Faulted(fault.trouble)); }
        index.Restamp(of, scan.restamped);
      }
      if scan.gone != {} {
        if fault.AtForget? { return Err(Faulted(fault.trouble)); }
        index.Forget(of, scan.gone);
      }
      NothingLeftOver(old(index.Contents()), of, scan);
      return Ok(());
    }

    method Refresh(m: Means, tree: seq<Entry>, fault: Fault) returns (r: Result<(), Halt>)
      requires Valid()
      modifies this, index
      ensures Valid()
      ensures (r, index.Contents(), walked) == Refreshing(m, old(walked), old(index.Contents()), tree, fault)
    {
      var of := GenerationOf(m.recipe);
      if walked.None? {
        r := Walk(m, tree, fault);
        return;
      }
      if of in walked.value { return walked.value[of]; }
      r := Walk(m, tree, fault);
      if r.Ok? || r.error.Deterministic() { walked := Some(walked.value[of := r]); }
    }

    /** Drops the generations not kept. */
    method Retain(keep: set<Generation>) returns (dropped: set<Generation>)
      requires Valid()
      modifies index
      ensures Valid()
      ensures dropped == old(index.Contents()).written.Keys - keep
      ensures index.Contents() == Without(old(index.Contents()), dropped)
    {
      ghost var before := index.Contents();
      var all := index.Generations();
      var todo := all.Keys;
      dropped := {};
      NoneDropped(before);
      while todo != {}
        invariant Valid() && index.Contents() == Without(before, dropped)
        invariant forall of :: of in todo ==> of in before.written
        invariant forall of :: of in dropped <==> of in before.written && of !in todo && of !in keep
        decreases todo
      {
        var of :| of in todo;
        todo := todo - {of};
        if of !in keep {
          Drop(before, dropped, of);
          dropped := dropped + {of};
        }
      }
    }

    method Drop(ghost before: Shelf, ghost dropped: set<Generation>, of: Generation)
      requires Valid() && index.Contents() == Without(before, dropped)
      modifies index
      ensures Valid() && index.Contents() == Without(before, dropped + {of})
    {
      OneMoreDropped(before, dropped, of);
      index.Discard(of);
    }

    method Populated(recipe: Recipe, root: string) returns (some: bool)
      ensures some <==> exists rel :: Key(GenerationOf(recipe), rel) in index.Contents().files && Under(rel, root)
    {
      var known := index.Known(GenerationOf(recipe));
      some := exists rel :: rel in known && Under(rel, root);
      assert forall rel :: rel in known <==> Key(GenerationOf(recipe), rel) in index.Contents().files;
    }

    method Whole(recipe: Recipe, root: string) returns (fragments: seq<Fragment>)
      requires Valid() && Keyed(index.Contents()) && Ascii(root)
      ensures if GenerationOf(recipe) in index.Contents().written
              then AreOf(fragments, index.Contents(), GenerationOf(recipe), root, None) else fragments == []
    {
      var snapshot := index.Rows(GenerationOf(recipe), root);
      if snapshot.None? { return []; }
      fragments := FragmentsOf(snapshot.value.rows);
      assert Lists(index.Contents(), GenerationOf(recipe), root, None, snapshot.value.rows);
    }

    method Touching(recipe: Recipe, root: string, want: Want) returns (fragments: seq<Fragment>)
      requires Valid() && Keyed(index.Contents()) && Ascii(root)
      ensures if GenerationOf(recipe) in index.Contents().written
              then AreOf(fragments, index.Contents(), GenerationOf(recipe), root, Some(want)) else fragments == []
    {
      var snapshot := index.Union(GenerationOf(recipe), root, want);
      if snapshot.None? { return []; }
      fragments := FragmentsOf(snapshot.value.rows);
      assert Lists(index.Contents(), GenerationOf(recipe), root, Some(want), snapshot.value.rows);
    }
  }

  function Without(s: Shelf, dropped: set<Generation>): Shelf {
    Shelf(s.written - dropped, map key | key in s.files && key.of !in dropped :: s.files[key])
  }

  lemma NoneDropped(s: Shelf)
    ensures Without(s, {}) == s
  {
  }

  lemma OneMoreDropped(s: Shelf, dropped: set<Generation>, of: Generation)
    ensures Discarded(Without(s, dropped), of) == Without(s, dropped + {of})
  {
  }

  /** With nothing to restamp or to forget, the later calls would change nothing. */
  lemma NothingLeftOver(s: Shelf, of: Generation, scan: Rescan)
    ensures scan.restamped == [] ==> Restamping(s, of, scan) == Written(s, of, AllIndexed(scan.renewed))
    ensures scan.gone == {} ==> Applied(s, of, scan) == Restamping(s, of, scan)
  {
  }
}
