/** What an index of files is to hold and to answer, whatever keeps it. */
module Index {
  import opened Wrappers
  import opened Json
  import opened Matching
  import opened Walk
  import Text

  type Time = int

  /** One probe at one version. It is told apart by both. */
  datatype Generation = Generation(probe: string, version: string)

  datatype Row = Row(ord: nat, id: string, coord: Coord, facts: Value)

  datatype Indexed = Indexed(rel: string, hash: string, sort: string, stamp: Option<Stamp>, rows: seq<Row>)

  datatype Built = Built(files: nat, rows: nat, sealedAt: Option<Time>)

  datatype Located = Located(rel: string, row: Row)

  datatype Snapshot = Snapshot(sealedAt: Option<Time>, rows: seq<Located>)

  datatype Trouble = Busy | Corrupt | Unopened

  predicate Starts(s: string, prefix: string) { |prefix| <= |s| && s[..|prefix|] == prefix }

  /** Strictly under a root, where the root is a path or stands for everything. */
  predicate Under(rel: string, root: string) {
    root == "" || root == "." || (Starts(rel, root) && |root| < |rel| && rel[|root|] == '/')
  }

  // ---- The contents ------------------------------------------------------------------

  datatype Key = Key(of: Generation, rel: string)

  datatype Kept = Kept(hash: string, sort: string, stamp: Option<Stamp>, rows: map<nat, Row>)

  /** What every index holds: the generations written into, each with the time it
      was sealed, and the files of each with their rows by ordinal. */
  datatype Shelf = Shelf(written: map<Generation, Option<Time>>, files: map<Key, Kept>)

  const EMPTY := Shelf(map[], map[])

  /** No two rows of a file have one ordinal. */
  predicate Distinct(rows: seq<Row>) {
    forall i, j :: 0 <= i < j < |rows| ==> rows[i].ord != rows[j].ord
  }

  function ByOrd(rows: seq<Row>): map<nat, Row> {
    if rows == [] then map[]
    else
      var n := |rows| - 1;
      ByOrd(rows[..n])[rows[n].ord := rows[n]]
  }

  lemma {:induction false} ByOrdFrom(rows: seq<Row>, ord: nat) returns (i: nat)
    requires ord in ByOrd(rows)
    ensures i < |rows| && ByOrd(rows)[ord] == rows[i] && rows[i].ord == ord
    decreases |rows|
  {
    var n := |rows| - 1;
    if rows[n].ord == ord {
      i := n;
    } else {
      i := ByOrdFrom(rows[..n], ord);
    }
  }

  lemma {:induction false} ByOrdAt(rows: seq<Row>, i: nat)
    requires Distinct(rows) && i < |rows|
    ensures rows[i].ord in ByOrd(rows) && ByOrd(rows)[rows[i].ord] == rows[i]
    decreases |rows|
  {
    var n := |rows| - 1;
    if i < n { ByOrdAt(rows[..n], i); }
  }

  /** Each row is filed under its own ordinal, and only there. */
  lemma ByOrdFiles(rows: seq<Row>)
    ensures forall ord :: ord in ByOrd(rows) ==> ByOrd(rows)[ord].ord == ord && ByOrd(rows)[ord] in rows
    ensures Distinct(rows) ==>
              forall row :: row in rows ==> row.ord in ByOrd(rows) && ByOrd(rows)[row.ord] == row
  {
    forall ord | ord in ByOrd(rows) ensures ByOrd(rows)[ord].ord == ord && ByOrd(rows)[ord] in rows {
      var i := ByOrdFrom(rows, ord);
    }
    if Distinct(rows) {
      forall row | row in rows ensures row.ord in ByOrd(rows) && ByOrd(rows)[row.ord] == row {
        var i :| 0 <= i < |rows| && rows[i] == row;
        ByOrdAt(rows, i);
      }
    }
  }

  function KeptOf(f: Indexed): Kept { Kept(f.hash, f.sort, f.stamp, ByOrd(f.rows)) }

  function WrittenFiles(files: map<Key, Kept>, of: Generation, more: seq<Indexed>): map<Key, Kept> {
    if more == [] then files
    else
      var n := |more| - 1;
      WrittenFiles(files, of, more[..n])[Key(of, more[n].rel) := KeptOf(more[n])]
  }

  function Written(s: Shelf, of: Generation, files: seq<Indexed>): Shelf {
    Shelf(s.written[of := None], WrittenFiles(s.files, of, files))
  }

  function RestampedFiles(files: map<Key, Kept>, of: Generation, stamps: seq<(string, Option<Stamp>)>): map<Key, Kept> {
    if stamps == [] then files
    else
      var n := |stamps| - 1;
      var before := RestampedFiles(files, of, stamps[..n]);
      var key := Key(of, stamps[n].0);
      if key in before then before[key := before[key].(stamp := stamps[n].1)] else before
  }

  function Restamped(s: Shelf, of: Generation, stamps: seq<(string, Option<Stamp>)>): Shelf {
    s.(files := RestampedFiles(s.files, of, stamps))
  }

  function Forgotten(s: Shelf, of: Generation, gone: set<string>): Shelf {
    s.(files := map key | key in s.files && !(key.of == of && key.rel in gone) :: s.files[key])
  }

  function Sealed(s: Shelf, of: Generation, at: Time): Shelf {
    if of in s.written then s.(written := s.written[of := Some(at)]) else s
  }

  function Discarded(s: Shelf, of: Generation): Shelf {
    Shelf(s.written - {of}, map key | key in s.files && key.of != of :: s.files[key])
  }

  // ---- What is asked of it ---------------------------------------------------------------

  function KnownOf(s: Shelf, of: Generation): map<string, Held> {
    map key | key in s.files && key.of == of :: key.rel := Held(s.files[key].hash, s.files[key].stamp)
  }

  function FilesOf(s: Shelf, of: Generation): set<string> {
    set key | key in s.files && key.of == of :: key.rel
  }

  /** Each row of a generation, by its file and ordinal. */
  function CellsOf(s: Shelf, of: Generation): set<(string, nat)> {
    set key, ord | key in s.files && key.of == of && ord in s.files[key].rows :: (key.rel, ord)
  }

  function BuiltOf(s: Shelf, of: Generation): Option<Built> {
    if of in s.written then Some(Built(|FilesOf(s, of)|, |CellsOf(s, of)|, s.written[of])) else None
  }

  function ListedOf(s: Shelf): map<Generation, Built> {
    map of | of in s.written :: BuiltOf(s, of).value
  }

  /** A row is one of a generation's, under a root, and, if anything is wanted,
      carries some wanted pair. */
  predicate Selects(s: Shelf, of: Generation, root: string, want: Option<Want>, l: Located) {
    && Key(of, l.rel) in s.files
    && l.row.ord in s.files[Key(of, l.rel)].rows
    && l.row == s.files[Key(of, l.rel)].rows[l.row.ord]
    && Under(l.rel, root)
    && (want.Some? ==> Touches(l.row.coord, want.value))
  }

  predicate PlaceBefore(a: (string, nat), b: (string, nat)) {
    Text.Less(a.0, b.0) || (a.0 == b.0 && a.1 < b.1)
  }

  predicate LocatedBefore(s: Shelf, of: Generation, a: Located, b: Located) {
    && Key(of, a.rel) in s.files && Key(of, b.rel) in s.files
    && PlaceBefore((s.files[Key(of, a.rel)].sort, a.row.ord), (s.files[Key(of, b.rel)].sort, b.row.ord))
  }

  /** In the order of the files' sort keys, and of ordinals within a file. */
  ghost predicate InPlace(s: Shelf, of: Generation, rows: seq<Located>) {
    forall i, j :: 0 <= i < j < |rows| ==> LocatedBefore(s, of, rows[i], rows[j])
  }

  /** Exactly the rows selected, each once, in the order of their places. */
  ghost predicate Lists(s: Shelf, of: Generation, root: string, want: Option<Want>, rows: seq<Located>) {
    && InPlace(s, of, rows)
    && forall l :: l in rows <==> Selects(s, of, root, want, l)
  }

  /** Every file's sort key is that of its path, and no path holds the separator's key. */
  ghost predicate Keyed(s: Shelf) {
    forall key :: key in s.files ==> NUL !in key.rel && s.files[key].sort == SortKey(key.rel)
  }

  ghost predicate WellKeyed(files: seq<Indexed>) {
    forall i :: 0 <= i < |files| ==>
      NUL !in files[i].rel && files[i].sort == SortKey(files[i].rel) && Distinct(files[i].rows)
  }

  /** Rows are filed under their own ordinals. */
  ghost predicate Filed(s: Shelf) {
    forall key, ord :: key in s.files && ord in s.files[key].rows ==> s.files[key].rows[ord].ord == ord
  }

  // ---- Runs ---------------------------------------------------------------------------------

  datatype Op =
    | Write(of: Generation, files: seq<Indexed>)
    | Restamp(of: Generation, stamps: seq<(string, Option<Stamp>)>)
    | Forget(of: Generation, gone: set<string>)
    | Seal(of: Generation, at: Time)
    | Discard(of: Generation)

  function Done(s: Shelf, op: Op): Shelf {
    match op
    case Write(of, files) => Written(s, of, files)
    case Restamp(of, stamps) => Restamped(s, of, stamps)
    case Forget(of, gone) => Forgotten(s, of, gone)
    case Seal(of, at) => Sealed(s, of, at)
    case Discard(of) => Discarded(s, of)
  }

  function RunOf(ops: seq<Op>): Shelf {
    if ops == [] then EMPTY else Done(RunOf(ops[..|ops| - 1]), ops[|ops| - 1])
  }

  lemma {:induction false} WrittenFilesKeyed(files: map<Key, Kept>, of: Generation, more: seq<Indexed>)
    requires WellKeyed(more)
    requires Keyed(Shelf(map[], files)) && Filed(Shelf(map[], files))
    ensures Keyed(Shelf(map[], WrittenFiles(files, of, more))) && Filed(Shelf(map[], WrittenFiles(files, of, more)))
  {
    if more != [] {
      WrittenFilesKeyed(files, of, more[..|more| - 1]);
      ByOrdFiles(more[|more| - 1].rows);
    }
  }

  lemma {:induction false} RestampedFilesKeyed(files: map<Key, Kept>, of: Generation,
                                               stamps: seq<(string, Option<Stamp>)>)
    requires Keyed(Shelf(map[], files)) && Filed(Shelf(map[], files))
    ensures Keyed(Shelf(map[], RestampedFiles(files, of, stamps)))
      && Filed(Shelf(map[], RestampedFiles(files, of, stamps)))
  {
    if stamps != [] { RestampedFilesKeyed(files, of, stamps[..|stamps| - 1]); }
  }

  /** Every operation keeps files under the keys of their paths. */
  lemma DoneKeyed(s: Shelf, op: Op)
    requires Keyed(s) && Filed(s) && (op.Write? ==> WellKeyed(op.files))
    ensures Keyed(Done(s, op)) && Filed(Done(s, op))
  {
    var t := Shelf(map[], s.files);
    assert Keyed(t) && Filed(t);
    match op
    case Write(of, files) => WrittenFilesKeyed(s.files, of, files);
    case Restamp(of, stamps) => RestampedFilesKeyed(s.files, of, stamps);
    case _ =>
  }

  // ---- There is one answer ----------------------------------------------------------------------

  /** A row with its file's sort key, as an index reads it. */
  datatype Placed = Placed(sort: string, located: Located)

  predicate ByPlace(a: Placed, b: Placed) {
    PlaceBefore((a.sort, a.located.row.ord), (b.sort, b.located.row.ord))
  }

  function LocatedOf(placed: seq<Placed>): (r: seq<Located>)
    ensures |r| == |placed| && forall i :: 0 <= i < |r| ==> r[i] == placed[i].located
  {
    seq(|placed|, i requires 0 <= i < |placed| => placed[i].located)
  }

  lemma PlaceAsymmetric(a: (string, nat), b: (string, nat))
    requires PlaceBefore(a, b)
    ensures !PlaceBefore(b, a)
  {
    if Text.Less(a.0, b.0) { Text.LessAsymmetric(a.0, b.0); } else { Text.LessIrreflexive(a.0); }
  }

  lemma PlaceTotal(a: (string, nat), b: (string, nat))
    ensures a == b || PlaceBefore(a, b) || PlaceBefore(b, a)
  {
    Text.LessTotal(a.0, b.0);
  }

  lemma PlaceTransitive(a: (string, nat), b: (string, nat), c: (string, nat))
    requires PlaceBefore(a, b) && PlaceBefore(b, c)
    ensures PlaceBefore(a, c)
  {
    if Text.Less(a.0, b.0) && Text.Less(b.0, c.0) { Text.LessTransitive(a.0, b.0, c.0); }
  }

  lemma ByPlaceIsWeakOrder()
    ensures Text.WeakOrder(ByPlace)
  {
    forall x, y | ByPlace(x, y) ensures !ByPlace(y, x) {
      PlaceAsymmetric((x.sort, x.located.row.ord), (y.sort, y.located.row.ord));
    }
    forall x, y, z | !ByPlace(y, x) && !ByPlace(z, y) ensures !ByPlace(z, x) {
      var p, q, r := (x.sort, x.located.row.ord), (y.sort, y.located.row.ord), (z.sort, z.located.row.ord);
      PlaceTotal(p, q);
      PlaceTotal(q, r);
      if PlaceBefore(p, q) && PlaceBefore(q, r) { PlaceTransitive(p, q, r); }
      if PlaceBefore(p, r) { PlaceAsymmetric(p, r); }
      if p == r { PlaceIrreflexive(p); }
    }
  }

  lemma PlaceIrreflexive(a: (string, nat))
    ensures !PlaceBefore(a, a)
  {
    Text.LessIrreflexive(a.0);
  }

  /** Rows read with the sort keys of their files. */
  ghost predicate Holds(s: Shelf, of: Generation, root: string, want: Option<Want>, p: Placed) {
    Selects(s, of, root, want, p.located) && p.sort == s.files[Key(of, p.located.rel)].sort
  }

  /** Where files are keyed by their paths, a place tells a row apart. */
  lemma PlaceTellsApart(s: Shelf, of: Generation, root: string, want: Option<Want>, a: Placed, b: Placed)
    requires Keyed(s) && Filed(s)
    requires Holds(s, of, root, want, a) && Holds(s, of, root, want, b)
    requires a.sort == b.sort && a.located.row.ord == b.located.row.ord
    ensures a == b
  {
    SortKeyInjective(a.located.rel, b.located.rel);
  }

  /** Rows read once each, and put in order of place, are the listing. */
  lemma SortedIsListing(s: Shelf, of: Generation, root: string, want: Option<Want>, placed: seq<Placed>)
    requires Keyed(s) && Filed(s)
    requires Text.Unrepeated(placed) && Text.Sorted(ByPlace, placed)
    requires forall p :: p in placed <==> Holds(s, of, root, want, p)
    ensures Lists(s, of, root, want, LocatedOf(placed))
  {
    var rows := LocatedOf(placed);
    forall i, j | 0 <= i < j < |rows| ensures ByPlace(placed[i], placed[j]) {
      var a, b := placed[i], placed[j];
      assert a in placed && b in placed;
      if a.sort == b.sort && a.located.row.ord == b.located.row.ord {
        PlaceTellsApart(s, of, root, want, a, b);
      } else {
        PlaceTotal((a.sort, a.located.row.ord), (b.sort, b.located.row.ord));
      }
    }
    forall i | 0 <= i < |rows| ensures Holds(s, of, root, want, placed[i]) { assert placed[i] in placed; }
    forall l ensures l in rows <==> Selects(s, of, root, want, l) {
      if Selects(s, of, root, want, l) {
        var p := Placed(s.files[Key(of, l.rel)].sort, l);
        assert Holds(s, of, root, want, p);
        var i :| 0 <= i < |placed| && placed[i] == p;
        assert rows[i] == l;
      }
    }
  }

  /** Two listings of the same rows are the same listing. */
  lemma OneListing(s: Shelf, of: Generation, root: string, want: Option<Want>, a: seq<Located>, b: seq<Located>)
    requires Lists(s, of, root, want, a) && Lists(s, of, root, want, b)
    ensures a == b
  {
    var before := (x, y) => LocatedBefore(s, of, x, y);
    forall x, y | before(x, y) ensures !before(y, x) {
      PlaceAsymmetric((s.files[Key(of, x.rel)].sort, x.row.ord), (s.files[Key(of, y.rel)].sort, y.row.ord));
    }
    assert Text.Ascending(before, a);
    assert Text.Ascending(before, b);
    Text.OneAscendingOrder(before, a, b);
  }

  // ---- Counting -------------------------------------------------------------------------------------

  /** One for one with another set. */
  ghost predicate Pairs<A(!new), B>(s: set<A>, t: set<B>, f: A -> B) {
    && (forall a :: a in s ==> f(a) in t)
    && (forall a, b :: a in s && b in s && f(a) == f(b) ==> a == b)
    && forall b :: b in t ==> exists a :: a in s && f(a) == b
  }

  lemma {:induction false} PairsSameSize<A(!new), B>(s: set<A>, t: set<B>, f: A -> B)
    requires Pairs(s, t, f)
    ensures |s| == |t|
    decreases s
  {
    if s == {} {
      assert t == {};
    } else {
      var a :| a in s;
      assert Pairs(s - {a}, t - {f(a)}, f) by {
        forall b | b in t - {f(a)} ensures exists c :: c in s - {a} && f(c) == b {
          var c :| c in s && f(c) == b;
          assert c in s - {a};
        }
      }
      PairsSameSize(s - {a}, t - {f(a)}, f);
    }
  }
}
