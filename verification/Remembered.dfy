/** The index kept in memory: the simple one, which the tables must agree with. */
module Remembers {
  import opened Wrappers
  import opened Index
  import opened Matching
  import opened Walk
  import Text

  datatype Shelved = Shelved(hash: string, sort: string, stamp: Option<Stamp>, rows: seq<Row>)

  function ShelfOf(written: map<Generation, Option<Time>>, files: map<Key, Shelved>): Shelf {
    Shelf(written, map key | key in files :: KeptAs(files[key]))
  }

  function KeptAs(f: Shelved): Kept { Kept(f.hash, f.sort, f.stamp, ByOrd(f.rows)) }

  lemma FilePut(written: map<Generation, Option<Time>>, files: map<Key, Shelved>, key: Key, f: Indexed)
    ensures ShelfOf(written, files[key := Shelved(f.hash, f.sort, f.stamp, f.rows)]).files ==
            ShelfOf(written, files).files[key := KeptOf(f)]
  {
  }

  function PlacedRows(rel: string, f: Shelved): (r: seq<Placed>)
    ensures |r| == |f.rows| && forall i :: 0 <= i < |r| ==> r[i] == Placed(f.sort, Located(rel, f.rows[i]))
  {
    seq(|f.rows|, i requires 0 <= i < |f.rows| => Placed(f.sort, Located(rel, f.rows[i])))
  }

  function KeepTouching(placed: seq<Placed>, want: Want): seq<Placed> {
    if placed == [] then []
    else
      (if Touches(placed[0].located.row.coord, want) then [placed[0]] else []) + KeepTouching(placed[1..], want)
  }

  lemma {:induction false} KeepTouchingKeeps(placed: seq<Placed>, want: Want)
    requires Text.Unrepeated(placed) && Text.Sorted(ByPlace, placed)
    ensures Text.Unrepeated(KeepTouching(placed, want)) && Text.Sorted(ByPlace, KeepTouching(placed, want))
    ensures forall p :: p in KeepTouching(placed, want) <==> p in placed && Touches(p.located.row.coord, want)
  {
    if placed != [] {
      KeepTouchingKeeps(placed[1..], want);
      var rest := KeepTouching(placed[1..], want);
      assert placed == [placed[0]] + placed[1..];
      forall p | p in rest ensures p != placed[0] && !ByPlace(p, placed[0]) {
        assert p in placed[1..];
      }
      Text.SortedCons(ByPlace, placed[0], rest);
    }
  }

  class Remembered {
    var written: map<Generation, Option<Time>>
    var files: map<Key, Shelved>

    /** No file holds two rows of one ordinal. */
    ghost predicate Valid()
      reads this
    {
      forall key :: key in files ==> Distinct(files[key].rows)
    }

    ghost function Contents(): Shelf
      reads this
    {
      ShelfOf(written, files)
    }

    constructor ()
      ensures Valid() && Contents() == EMPTY
    {
      written, files := map[], map[];
    }

    method Write(of: Generation, more: seq<Indexed>)
      modifies this
      ensures Contents() == Written(old(Contents()), of, more)
      ensures old(Valid()) && (forall i :: 0 <= i < |more| ==> Distinct(more[i].rows)) ==> Valid()
    {
      written := written[of := None];
      for i := 0 to |more|
        invariant written == old(written)[of := None]
        invariant Contents().files == WrittenFiles(old(Contents()).files, of, more[..i])
        invariant old(Valid()) && (forall j :: 0 <= j < i ==> Distinct(more[j].rows)) ==> Valid()
      {
        var f := more[i];
        FilePut(written, files, Key(of, f.rel), f);
        files := files[Key(of, f.rel) := Shelved(f.hash, f.sort, f.stamp, f.rows)];
        assert more[..i + 1][..i] == more[..i];
      }
      assert more[..|more|] == more;
    }

    method Restamp(of: Generation, stamps: seq<(string, Option<Stamp>)>)
      modifies this`files
      ensures Contents() == Restamped(old(Contents()), of, stamps)
      ensures old(Valid()) ==> Valid()
    {
      for i := 0 to |stamps|
        invariant Contents().files == RestampedFiles(old(Contents()).files, of, stamps[..i])
        invariant old(Valid()) ==> Valid()
      {
        var (rel, stamp) := stamps[i];
        ghost var before := files;
        if Key(of, rel) in files {
          files := files[Key(of, rel) := files[Key(of, rel)].(stamp := stamp)];
          assert Contents().files ==
                 ShelfOf(written, before).files[Key(of, rel) := KeptAs(before[Key(of, rel)]).(stamp := stamp)];
        }
        assert stamps[..i + 1][..i] == stamps[..i];
      }
      assert stamps[..|stamps|] == stamps;
    }

    method Forget(of: Generation, gone: set<string>)
      modifies this`files
      ensures Contents() == Forgotten(old(Contents()), of, gone)
      ensures old(Valid()) ==> Valid()
    {
      var todo := gone;
      while todo != {}
        invariant todo <= gone
        invariant files == map key | key in old(files) && !(key.of == of && key.rel in gone - todo) :: old(files)[key]
        decreases todo
      {
        var rel :| rel in todo;
        files := files - {Key(of, rel)};
        todo := todo - {rel};
      }
      assert gone - todo == gone;
    }

    method Seal(of: Generation, at: Time) returns (r: Result<(), Trouble>)
      modifies this`written
      ensures Contents() == Sealed(old(Contents()), of, at)
      ensures r == if of in old(written) then Ok(()) else Err(Unopened)
    {
      if of !in written { return Err(Unopened); }
      written := written[of := Some(at)];
      return Ok(());
    }

    method Discard(of: Generation)
      modifies this
      ensures Contents() == Discarded(old(Contents()), of)
      ensures old(Valid()) ==> Valid()
    {
      written := written - {of};
      files := map key | key in files && key.of != of :: files[key];
    }

    method Known(of: Generation) returns (known: map<string, Held>)
      ensures known == KnownOf(Contents(), of)
    {
      known := map key | key in files && key.of == of :: key.rel := Held(files[key].hash, files[key].stamp);
    }

    method Built(of: Generation) returns (built: Option<Built>)
      requires Valid()
      ensures built == BuiltOf(Contents(), of)
    {
      if of !in written { return None; }
      var mine := set key | key in files && key.of == of;
      FilesCounted(mine, of);
      assert (set key | key in mine :: key.rel) == FilesOf(Contents(), of);
      var rows, todo := 0, mine;
      while todo != {}
        invariant todo <= mine && rows == |CellsAmong(files, mine - todo)|
        decreases todo
      {
        var key :| key in todo;
        OneMoreFile(files, mine - todo, key);
        assert mine - (todo - {key}) == (mine - todo) + {key};
        rows := rows + |files[key].rows|;
        todo := todo - {key};
      }
      assert mine - {} == mine;
      CellsCounted(this, of, mine);
      return Some(Index.Built(|mine|, rows, written[of]));
    }

    method Generations() returns (all: map<Generation, Built>)
      requires Valid()
      ensures all == ListedOf(Contents())
    {
      all := map[];
      var todo := written.Keys;
      while todo != {}
        invariant todo <= written.Keys
        invariant all == map of | of in written.Keys - todo :: BuiltOf(Contents(), of).value
        decreases todo
      {
        var of :| of in todo;
        var built := Built(of);
        all := all[of := built.value];
        todo := todo - {of};
      }
    }

    /** A generation's rows under a root, in order of place. */
    method Ordered(of: Generation, root: string) returns (placed: seq<Placed>)
      requires Valid()
      ensures Text.Unrepeated(placed) && Text.Sorted(ByPlace, placed)
      ensures forall p :: p in placed <==> Holds(Contents(), of, root, None, p)
    {
      var mine := set key | key in files && key.of == of && Under(key.rel, root);
      var todo, out: seq<Placed> := mine, [];
      while todo != {}
        invariant todo <= mine
        invariant Text.Unrepeated(out)
        invariant forall p :: p in out <==>
          Key(of, p.located.rel) in mine - todo && Holds(Contents(), of, root, None, p)
        decreases todo
      {
        var key :| key in todo;
        var more := PlacedRows(key.rel, files[key]);
        FileHolds(this, of, root, key);
        assert forall p :: p in more ==> p.located.rel == key.rel;
        todo := todo - {key};
        out := out + more;
      }
      placed := Text.Sort(ByPlace, out);
      ByPlaceIsWeakOrder();
      Text.SortSorted(ByPlace, out);
      Text.SameLength(placed, out);
      Text.UnrepeatedSame(out, placed);
    }

    method Rows(of: Generation, root: string) returns (snapshot: Option<Snapshot>)
      requires Valid()
      ensures snapshot.None? <==> of !in written
      ensures snapshot.Some? ==> snapshot.value.sealedAt == written[of]
      ensures snapshot.Some? && Keyed(Contents()) ==> Lists(Contents(), of, root, None, snapshot.value.rows)
    {
      if of !in written { return None; }
      var placed := Ordered(of, root);
      ContentsFiled(this);
      if Keyed(Contents()) { SortedIsListing(Contents(), of, root, None, placed); }
      return Some(Snapshot(written[of], LocatedOf(placed)));
    }

    method Union(of: Generation, root: string, want: Want) returns (snapshot: Option<Snapshot>)
      requires Valid()
      ensures snapshot.None? <==> of !in written
      ensures snapshot.Some? ==> snapshot.value.sealedAt == written[of]
      ensures snapshot.Some? && Keyed(Contents()) ==> Lists(Contents(), of, root, Some(want), snapshot.value.rows)
    {
      if of !in written { return None; }
      var placed := Ordered(of, root);
      ContentsFiled(this);
      KeepTouchingKeeps(placed, want);
      placed := KeepTouching(placed, want);
      if Keyed(Contents()) { SortedIsListing(Contents(), of, root, Some(want), placed); }
      return Some(Snapshot(written[of], LocatedOf(placed)));
    }
  }

  lemma ContentsFiled(index: Remembered)
    ensures Filed(index.Contents())
  {
    var s := index.Contents();
    forall key, ord | key in s.files && ord in s.files[key].rows ensures s.files[key].rows[ord].ord == ord {
      ByOrdFiles(index.files[key].rows);
    }
  }

  /** A file's rows, placed, are what the contents hold for it. */
  lemma FileHolds(index: Remembered, of: Generation, root: string, key: Key)
    requires index.Valid() && key in index.files && key.of == of && Under(key.rel, root)
    ensures Text.Unrepeated(PlacedRows(key.rel, index.files[key]))
    ensures forall p :: p in PlacedRows(key.rel, index.files[key]) <==>
                        p.located.rel == key.rel && Holds(index.Contents(), of, root, None, p)
  {
    var f := index.files[key];
    var more := PlacedRows(key.rel, f);
    ByOrdFiles(f.rows);
    forall p ensures p in more <==> p.located.rel == key.rel && Holds(index.Contents(), of, root, None, p) {
      if p in more {
        var i :| 0 <= i < |more| && more[i] == p;
        assert f.rows[i] in f.rows;
      }
      if p.located.rel == key.rel && Holds(index.Contents(), of, root, None, p) {
        assert p.located.row in f.rows;
        var i :| 0 <= i < |f.rows| && f.rows[i] == p.located.row;
        assert more[i] == p;
      }
    }
  }

  function CellsAmong(files: map<Key, Shelved>, keys: set<Key>): set<(string, nat)> {
    set key, ord | key in keys && key in files && ord in ByOrd(files[key].rows) :: (key.rel, ord)
  }

  lemma {:induction false} OrdinalsCounted(rows: seq<Row>)
    requires Distinct(rows)
    ensures |ByOrd(rows).Keys| == |rows|
    decreases |rows|
  {
    if rows != [] {
      var n := |rows| - 1;
      OrdinalsCounted(rows[..n]);
      ByOrdFiles(rows[..n]);
      assert rows[n].ord !in ByOrd(rows[..n]);
      assert ByOrd(rows).Keys == ByOrd(rows[..n]).Keys + {rows[n].ord};
    }
  }

  /** A file adds as many cells as it has rows. */
  lemma OneMoreFile(files: map<Key, Shelved>, keys: set<Key>, key: Key)
    requires key !in keys && key in files && Distinct(files[key].rows)
    requires forall other :: other in keys ==> other.of == key.of
    ensures |CellsAmong(files, keys + {key})| == |CellsAmong(files, keys)| + |files[key].rows|
  {
    var before, more := CellsAmong(files, keys), CellsIn(files[key].rows, key.rel);
    CellsInCounted(files[key].rows, key.rel);
    assert before !! more;
    assert CellsAmong(files, keys + {key}) == before + more;
  }

  function CellsIn(rows: seq<Row>, rel: string): set<(string, nat)> {
    set ord | ord in ByOrd(rows) :: (rel, ord)
  }

  lemma CellsInCounted(rows: seq<Row>, rel: string)
    requires Distinct(rows)
    ensures |CellsIn(rows, rel)| == |rows|
  {
    OrdinalsCounted(rows);
    var f := (ord: nat) => (rel, ord);
    assert forall ord :: ord in ByOrd(rows).Keys ==> f(ord) in CellsIn(rows, rel);
    assert Pairs(ByOrd(rows).Keys, CellsIn(rows, rel), f);
    PairsSameSize(ByOrd(rows).Keys, CellsIn(rows, rel), f);
  }

  lemma FilesCounted(mine: set<Key>, of: Generation)
    requires forall key :: key in mine ==> key.of == of
    ensures |set key | key in mine :: key.rel| == |mine|
  {
    var rels := set key | key in mine :: key.rel;
    var f := (key: Key) => key.rel;
    assert Pairs(mine, rels, f);
    PairsSameSize(mine, rels, f);
  }

  lemma CellsCounted(index: Remembered, of: Generation, mine: set<Key>)
    requires mine == set key | key in index.files && key.of == of
    ensures CellsAmong(index.files, mine) == CellsOf(index.Contents(), of)
  {
  }
}
