/** The index kept in four flat tables, and read by wanted pair from postings. */
module Sqlite {
  import opened Wrappers
  import opened Json
  import opened Index
  import opened Matching
  import opened Walk
  import Text

  datatype FileRow = FileRow(hash: string, sort: string, mtime: Option<int>, size: Option<nat>)

  datatype Cell = Cell(of: Generation, rel: string, ord: nat)

  datatype CandidateRow = CandidateRow(id: string, coord: Coord, facts: Value)

  datatype Posting = Posting(of: Generation, item: string, value: string, rel: string, ord: nat)

  /** The tables, each by its primary key. */
  datatype Tables = Tables(
    generation: map<Generation, Option<int>>,
    file: map<Key, FileRow>,
    candidate: map<Cell, CandidateRow>,
    posting: set<Posting>)

  // ---- What the tables hold -----------------------------------------------------------

  const NANOS: int := 1_000_000_000

  /** A time of sealing is kept in seconds. */
  function Seconds(at: Time): int { at / NANOS }

  function WholeSecond(at: Time): Time { Seconds(at) * NANOS }

  /** A time survives sealing exactly if it is a whole second. */
  lemma WholeSecondsSurvive(at: Time)
    ensures WholeSecond(at) == at <==> at % NANOS == 0
  {
    assert at == Seconds(at) * NANOS + at % NANOS;
  }

  function ReadTime(seconds: Option<int>): Option<Time> {
    match seconds case Some(s) => Some(s * NANOS) case None => None
  }

  function StampOf(row: FileRow): Option<Stamp> {
    if row.mtime.Some? && row.size.Some? then Some(Stamp(row.mtime.value, row.size.value)) else None
  }

  function RowOf(cell: Cell, c: CandidateRow): Row { Row(cell.ord, c.id, c.coord, c.facts) }

  function RowsIn(candidate: map<Cell, CandidateRow>, key: Key): map<nat, Row> {
    map cell | cell in candidate && cell.of == key.of && cell.rel == key.rel :: cell.ord := RowOf(cell, candidate[cell])
  }

  function KeptIn(t: Tables, key: Key): Kept
    requires key in t.file
  {
    var row := t.file[key];
    Kept(row.hash, row.sort, StampOf(row), RowsIn(t.candidate, key))
  }

  function FilesIn(t: Tables): map<Key, Kept> { map key | key in t.file :: KeptIn(t, key) }

  function TimesIn(t: Tables): map<Generation, Option<Time>> {
    map of | of in t.generation :: ReadTime(t.generation[of])
  }

  function ContentsOf(t: Tables): Shelf {
    Shelf(TimesIn(t), FilesIn(t))
  }

  // ---- What every transaction keeps ------------------------------------------------------

  /** The cell a posting points to is there, and carries the pair. */
  predicate Points(candidate: map<Cell, CandidateRow>, p: Posting) {
    var cell := Cell(p.of, p.rel, p.ord);
    cell in candidate && Hits(candidate[cell].coord, (p.item, p.value))
  }

  /** The postings are exactly the pairs of the candidates' coordinates. */
  ghost predicate Exact(t: Tables) {
    forall p :: p in t.posting <==> Points(t.candidate, p)
  }

  /** Every candidate is of some file. */
  ghost predicate Housed(t: Tables) {
    forall cell :: cell in t.candidate ==> Key(cell.of, cell.rel) in t.file
  }

  ghost predicate Sound(t: Tables) { Exact(t) && Housed(t) }

  // ---- Statements -------------------------------------------------------------------------

  function WithoutPostings(t: Tables, of: Generation, rel: string): Tables {
    t.(posting := set p | p in t.posting && !(p.of == of && p.rel == rel))
  }

  function WithoutCandidates(t: Tables, of: Generation, rel: string): Tables {
    t.(candidate := map cell | cell in t.candidate && !(cell.of == of && cell.rel == rel) :: t.candidate[cell])
  }

  function FileRowOf(f: Indexed): FileRow {
    match f.stamp
    case Some(s) => FileRow(f.hash, f.sort, Some(s.mtime), Some(s.size))
    case None => FileRow(f.hash, f.sort, None, None)
  }

  /** A file with its rows gone, and its other columns set. */
  function Cleared(t: Tables, of: Generation, f: Indexed): Tables {
    var u := WithoutCandidates(WithoutPostings(t, of, f.rel), of, f.rel);
    u.(file := u.file[Key(of, f.rel) := FileRowOf(f)])
  }

  function PostingsOf(of: Generation, rel: string, row: Row, items: set<string>): set<Posting>
    requires items <= row.coord.Keys
  {
    set item | item in items :: Posting(of, item, row.coord[item], rel, row.ord)
  }

  function RowPut(t: Tables, of: Generation, rel: string, row: Row): Tables {
    t.(candidate := t.candidate[Cell(of, rel, row.ord) := CandidateRow(row.id, row.coord, row.facts)],
       posting := t.posting + PostingsOf(of, rel, row, row.coord.Keys))
  }

  lemma ClearedIsSound(t: Tables, of: Generation, f: Indexed)
    requires Sound(t)
    ensures Sound(Cleared(t, of, f))
  {
    var u := Cleared(t, of, f);
    forall p ensures p in u.posting <==> Points(u.candidate, p) {
      assert p in t.posting <==> Points(t.candidate, p);
    }
  }

  lemma RowsInAt(candidate: map<Cell, CandidateRow>, key: Key, ord: nat)
    ensures Cell(key.of, key.rel, ord) in candidate <==> ord in RowsIn(candidate, key)
    ensures ord in RowsIn(candidate, key) ==>
              RowsIn(candidate, key)[ord] == RowOf(Cell(key.of, key.rel, ord), candidate[Cell(key.of, key.rel, ord)])
  {
  }

  lemma ClearedKept(t: Tables, of: Generation, f: Indexed, key: Key)
    requires key in Cleared(t, of, f).file
    ensures KeptIn(Cleared(t, of, f), key) ==
            if key == Key(of, f.rel) then Kept(f.hash, f.sort, f.stamp, map[]) else KeptIn(t, key)
  {
    assert RowsIn(Cleared(t, of, f).candidate, key) ==
           if key == Key(of, f.rel) then map[] else RowsIn(t.candidate, key);
  }

  lemma ClearedFiles(t: Tables, of: Generation, f: Indexed)
    ensures FilesIn(Cleared(t, of, f)) == FilesIn(t)[Key(of, f.rel) := Kept(f.hash, f.sort, f.stamp, map[])]
  {
    var u := Cleared(t, of, f);
    var a, b := FilesIn(u), FilesIn(t)[Key(of, f.rel) := Kept(f.hash, f.sort, f.stamp, map[])];
    assert a.Keys == b.Keys;
    forall key | key in u.file ensures a[key] == b[key] { ClearedKept(t, of, f, key); }
  }

  lemma RowPutIsSound(t: Tables, of: Generation, rel: string, row: Row)
    requires Sound(t) && Key(of, rel) in t.file && Cell(of, rel, row.ord) !in t.candidate
    ensures Sound(RowPut(t, of, rel, row))
  {
    var u := RowPut(t, of, rel, row);
    forall p ensures p in u.posting <==> Points(u.candidate, p) {
      assert p in t.posting <==> Points(t.candidate, p);
    }
  }

  lemma RowPutElsewhere(t: Tables, of: Generation, rel: string, row: Row, key: Key)
    requires key != Key(of, rel)
    ensures RowsIn(RowPut(t, of, rel, row).candidate, key) == RowsIn(t.candidate, key)
  {
  }

  lemma RowPutHere(t: Tables, of: Generation, rel: string, row: Row)
    ensures RowsIn(RowPut(t, of, rel, row).candidate, Key(of, rel)) == RowsIn(t.candidate, Key(of, rel))[row.ord := row]
  {
    var key := Key(of, rel);
    var a := RowsIn(RowPut(t, of, rel, row).candidate, key);
    var b := RowsIn(t.candidate, key)[row.ord := row];
    forall ord: nat ensures (ord in a <==> ord in b) && (ord in a ==> a[ord] == b[ord]) {
      RowsInAt(t.candidate, key, ord);
      RowsInAt(RowPut(t, of, rel, row).candidate, key, ord);
    }
  }

  lemma RowPutFiles(t: Tables, of: Generation, rel: string, row: Row)
    requires Key(of, rel) in t.file
    ensures var key := Key(of, rel);
            FilesIn(RowPut(t, of, rel, row)) ==
            FilesIn(t)[key := KeptIn(t, key).(rows := KeptIn(t, key).rows[row.ord := row])]
  {
    forall key | key in t.file ensures KeptIn(RowPut(t, of, rel, row), key) ==
      (if key == Key(of, rel) then KeptIn(t, key).(rows := KeptIn(t, key).rows[row.ord := row]) else KeptIn(t, key))
    {
      if key == Key(of, rel) { RowPutHere(t, of, rel, row); } else { RowPutElsewhere(t, of, rel, row, key); }
    }
  }

  // ---- Roots ----------------------------------------------------------------------------------

  /** The bytes of a character in UTF-8. */
  function Width(c: char): nat {
    var n := c as int;
    if n < 0x80 then 1 else if n < 0x800 then 2 else if n < 0x10000 then 3 else 4
  }

  function Bytes8(s: string): nat { if s == "" then 0 else Width(s[0]) + Bytes8(s[1..]) }

  /** SQL's `substr`, which counts characters, from one. */
  function Substr(s: string, from: nat, n: nat): string
    requires from > 0
  {
    if from > |s| then "" else if from - 1 + n > |s| then s[from - 1..] else s[from - 1..from - 1 + n]
  }

  /** The filter a query puts on paths, bound to the root's length in bytes. */
  predicate Beneath(rel: string, root: string) {
    root == "" || root == "." ||
    (Substr(rel, 1, Bytes8(root)) == root && Substr(rel, Bytes8(root) + 1, 1) == "/")
  }

  predicate Ascii(s: string) { forall i :: 0 <= i < |s| ==> s[i] as int < 0x80 }

  lemma {:induction false} BytesCount(s: string)
    ensures Bytes8(s) >= |s|
    ensures Bytes8(s) == |s| <==> Ascii(s)
  {
    if s != "" {
      BytesCount(s[1..]);
      assert s == [s[0]] + s[1..];
      assert Ascii(s) <==> (s[0] as int < 0x80 && Ascii(s[1..]));
    }
  }

  lemma SubstrPrefix(rel: string, n: nat)
    ensures Substr(rel, 1, n) == if n > |rel| then rel else rel[..n]
    ensures Substr(rel, n + 1, 1) == if n >= |rel| then "" else [rel[n]]
  {
    if n < |rel| { assert rel[n..n + 1] == [rel[n]]; }
  }

  lemma BeneathAscii(rel: string, root: string)
    requires Ascii(root)
    ensures Beneath(rel, root) <==> Under(rel, root)
  {
    BytesCount(root);
    SubstrPrefix(rel, |root|);
  }

  /** Past ASCII the filter is bound to a length the root does not have in
      characters, and passes nothing. */
  lemma BeneathPastAscii(rel: string, root: string)
    requires !Ascii(root)
    ensures !Beneath(rel, root)
  {
    BytesCount(root);
    SubstrPrefix(rel, Bytes8(root));
  }

  /** The filter is the one the index is to apply exactly for ASCII roots. */
  lemma FilterIsUnderExactlyForAscii(root: string)
    ensures (forall rel :: Beneath(rel, root) <==> Under(rel, root)) <==> Ascii(root)
  {
    if Ascii(root) {
      forall rel ensures Beneath(rel, root) <==> Under(rel, root) { BeneathAscii(rel, root); }
    } else {
      var rel := root + "/x";
      assert rel[..|root|] == root;
      BeneathPastAscii(rel, root);
      assert Under(rel, root) && !Beneath(rel, root);
    }
  }

  // ---- Queries ---------------------------------------------------------------------------------

  /** A candidate, with its file's sort key. */
  function PlacedAt(t: Tables, cell: Cell): Placed
    requires cell in t.candidate && Key(cell.of, cell.rel) in t.file
  {
    Placed(t.file[Key(cell.of, cell.rel)].sort, Located(cell.rel, RowOf(cell, t.candidate[cell])))
  }

  /** Candidates joined to their files. */
  function Read(t: Tables, of: Generation, root: string): set<Placed> {
    set cell | cell in t.candidate && cell.of == of && Key(cell.of, cell.rel) in t.file && Beneath(cell.rel, root)
      :: PlacedAt(t, cell)
  }

  /** Postings of one pair joined to candidates and files. */
  function Point(t: Tables, of: Generation, root: string, pair: (string, string)): set<Placed> {
    set p | p in t.posting && p.of == of && (p.item, p.value) == pair
            && Cell(p.of, p.rel, p.ord) in t.candidate && Key(p.of, p.rel) in t.file && Beneath(p.rel, root)
      :: PlacedAt(t, Cell(p.of, p.rel, p.ord))
  }

  lemma ReadHolds(t: Tables, of: Generation, root: string, p: Placed)
    requires Sound(t) && Ascii(root)
    ensures p in Read(t, of, root) <==> Holds(ContentsOf(t), of, root, None, p)
  {
    var key, cell := Key(of, p.located.rel), Cell(of, p.located.rel, p.located.row.ord);
    BeneathAscii(p.located.rel, root);
    RowsInAt(t.candidate, key, p.located.row.ord);
    if cell in t.candidate { assert key in t.file; }
  }

  lemma PointHolds(t: Tables, of: Generation, root: string, pair: (string, string), p: Placed)
    requires Sound(t) && Ascii(root)
    ensures p in Point(t, of, root, pair) <==>
      Holds(ContentsOf(t), of, root, None, p) && Hits(p.located.row.coord, pair)
  {
    var cell := Cell(of, p.located.rel, p.located.row.ord);
    var posting := Posting(of, pair.0, pair.1, cell.rel, cell.ord);
    ReadHolds(t, of, root, p);
    assert posting in t.posting <==> Points(t.candidate, posting);
    if p in Read(t, of, root) && Hits(p.located.row.coord, pair) { assert posting in t.posting; }
  }

  // ---- What transactions come to -------------------------------------------------------------------

  /** Only the rows of some files are left, each as it was. */
  ghost predicate Narrowed(t: Tables, u: Tables, keep: Key -> bool) {
    && (forall p :: p in u.posting <==> p in t.posting && keep(Key(p.of, p.rel)))
    && (forall cell :: cell in u.candidate <==> cell in t.candidate && keep(Key(cell.of, cell.rel)))
    && (forall cell :: cell in u.candidate ==> u.candidate[cell] == t.candidate[cell])
    && (forall key :: key in u.file <==> key in t.file && keep(key))
    && (forall key :: key in u.file ==> u.file[key] == t.file[key])
  }

  lemma NarrowedIsSound(t: Tables, u: Tables, keep: Key -> bool)
    requires Sound(t) && Narrowed(t, u, keep)
    ensures Sound(u)
  {
    forall p ensures p in u.posting <==> Points(u.candidate, p) {
      assert p in t.posting <==> Points(t.candidate, p);
    }
  }

  lemma NarrowedKept(t: Tables, u: Tables, keep: Key -> bool, key: Key)
    requires Narrowed(t, u, keep) && key in u.file
    ensures KeptIn(u, key) == KeptIn(t, key)
  {
    forall ord: nat ensures ord in RowsIn(u.candidate, key) <==> ord in RowsIn(t.candidate, key) {
      RowsInAt(u.candidate, key, ord);
      RowsInAt(t.candidate, key, ord);
    }
    forall ord | ord in RowsIn(u.candidate, key)
      ensures RowsIn(u.candidate, key)[ord] == RowsIn(t.candidate, key)[ord]
    {
      RowsInAt(u.candidate, key, ord);
      RowsInAt(t.candidate, key, ord);
    }
  }

  lemma NarrowedFiles(t: Tables, u: Tables, keep: Key -> bool)
    requires Narrowed(t, u, keep)
    ensures FilesIn(u) == map key | key in FilesIn(t) && keep(key) :: FilesIn(t)[key]
  {
    forall key | key in u.file ensures KeptIn(u, key) == KeptIn(t, key) { NarrowedKept(t, u, keep, key); }
  }

  lemma ForgottenIs(t: Tables, u: Tables, of: Generation, gone: set<string>)
    requires Sound(t) && u.generation == t.generation
    requires Narrowed(t, u, (key: Key) => !(key.of == of && key.rel in gone))
    ensures Sound(u) && ContentsOf(u) == Forgotten(ContentsOf(t), of, gone)
  {
    NarrowedIsSound(t, u, (key: Key) => !(key.of == of && key.rel in gone));
    NarrowedFiles(t, u, (key: Key) => !(key.of == of && key.rel in gone));
  }

  lemma DiscardedIs(t: Tables, u: Tables, of: Generation)
    requires Sound(t) && u.generation == t.generation - {of}
    requires Narrowed(t, u, (key: Key) => key.of != of)
    ensures Sound(u) && ContentsOf(u) == Discarded(ContentsOf(t), of)
  {
    NarrowedIsSound(t, u, (key: Key) => key.of != of);
    NarrowedFiles(t, u, (key: Key) => key.of != of);
  }

  lemma TimePut(t: Tables, of: Generation, seconds: Option<int>)
    ensures TimesIn(t.(generation := t.generation[of := seconds])) == TimesIn(t)[of := ReadTime(seconds)]
  {
  }

  lemma WrittenIs(t: Tables, u: Tables, of: Generation, more: seq<Indexed>)
    requires u.generation == t.generation[of := None] && FilesIn(u) == WrittenFiles(FilesIn(t), of, more)
    ensures ContentsOf(u) == Written(ContentsOf(t), of, more)
  {
    TimePut(t, of, None);
  }

  lemma SealedIs(t: Tables, of: Generation, at: Time)
    requires of in t.generation
    ensures var u := t.(generation := t.generation[of := Some(Seconds(at))]);
            ContentsOf(u) == Sealed(ContentsOf(t), of, WholeSecond(at)) && (Sound(t) ==> Sound(u))
  {
    var u := t.(generation := t.generation[of := Some(Seconds(at))]);
    TimePut(t, of, Some(Seconds(at)));
    assert FilesIn(u) == FilesIn(t);
  }

  lemma TableCounts(t: Tables, of: Generation)
    requires Sound(t)
    ensures |set key | key in t.file && key.of == of| == |FilesOf(ContentsOf(t), of)|
    ensures |set cell | cell in t.candidate && cell.of == of| == |CellsOf(ContentsOf(t), of)|
  {
    var keys := set key | key in t.file && key.of == of;
    var f := (key: Key) => key.rel;
    KeysPair(t, of, keys, f);
    PairsSameSize(keys, FilesOf(ContentsOf(t), of), f);
    var cells := set cell | cell in t.candidate && cell.of == of;
    var g := (cell: Cell) => (cell.rel, cell.ord);
    CellsPair(t, of, cells, g);
    PairsSameSize(cells, CellsOf(ContentsOf(t), of), g);
  }

  lemma KeysPair(t: Tables, of: Generation, keys: set<Key>, f: Key -> string)
    requires keys == set key | key in t.file && key.of == of
    requires forall key: Key :: f(key) == key.rel
    ensures Pairs(keys, FilesOf(ContentsOf(t), of), f)
  {
    var s := ContentsOf(t);
    forall key | key in keys ensures f(key) in FilesOf(s, of) { assert key in s.files; }
    forall rel | rel in FilesOf(s, of) ensures exists key :: key in keys && f(key) == rel {
      assert Key(of, rel) in keys && f(Key(of, rel)) == rel;
    }
  }

  function KnownIn(t: Tables, of: Generation): map<string, Held> {
    map key | key in t.file && key.of == of :: key.rel := Held(t.file[key].hash, StampOf(t.file[key]))
  }

  lemma KnownIs(t: Tables, of: Generation)
    ensures KnownIn(t, of) == KnownOf(ContentsOf(t), of)
  {
    var a, b := KnownIn(t, of), KnownOf(ContentsOf(t), of);
    forall rel ensures rel in a <==> rel in b {
      assert rel in a <==> Key(of, rel) in t.file;
      assert rel in b <==> Key(of, rel) in ContentsOf(t).files;
    }
    forall rel | rel in a ensures a[rel] == b[rel] {
      assert ContentsOf(t).files[Key(of, rel)] == KeptIn(t, Key(of, rel));
    }
  }

  lemma CellsPair(t: Tables, of: Generation, cells: set<Cell>, g: Cell -> (string, nat))
    requires Sound(t) && cells == set cell | cell in t.candidate && cell.of == of
    requires forall cell: Cell :: g(cell) == (cell.rel, cell.ord)
    ensures Pairs(cells, CellsOf(ContentsOf(t), of), g)
  {
    var s := ContentsOf(t);
    forall cell | cell in cells ensures g(cell) in CellsOf(s, of) {
      var key := Key(of, cell.rel);
      RowsInAt(t.candidate, key, cell.ord);
      assert key in s.files && cell.ord in s.files[key].rows;
    }
    forall b | b in CellsOf(s, of) ensures exists cell :: cell in cells && g(cell) == b {
      RowsInAt(t.candidate, Key(of, b.0), b.1);
      assert Cell(of, b.0, b.1) in cells && g(Cell(of, b.0, b.1)) == b;
    }
  }

  lemma ContentsFiled(t: Tables)
    ensures Filed(ContentsOf(t))
  {
  }

  // ---- Merging by place -----------------------------------------------------------------------------

  function PlaceOf(p: Placed): (string, nat) { (p.sort, p.located.row.ord) }

  /** A row some query answered with, at its place. */
  ghost predicate Answers(t: Tables, of: Generation, root: string, want: Want, at: (string, nat), l: Located) {
    l.row.ord == at.1 && exists i :: 0 <= i < |want| && Placed(at.0, l) in Point(t, of, root, want[i])
  }

  /** In order of place, of rows that are selected, with some row for the place of
      every one that is. */
  ghost predicate Covers(s: Shelf, of: Generation, root: string, want: Option<Want>, rows: seq<Located>) {
    && InPlace(s, of, rows)
    && (forall l :: l in rows ==> Selects(s, of, root, want, l))
    && forall l :: Selects(s, of, root, want, l) ==> HasPlace(s, of, rows, l)
  }

  ghost predicate HasPlace(s: Shelf, of: Generation, rows: seq<Located>, l: Located) {
    exists i :: 0 <= i < |rows| && SamePlace(s, of, rows[i], l)
  }

  ghost predicate SamePlace(s: Shelf, of: Generation, a: Located, b: Located) {
    && Key(of, a.rel) in s.files && Key(of, b.rel) in s.files
    && s.files[Key(of, a.rel)].sort == s.files[Key(of, b.rel)].sort && a.row.ord == b.row.ord
  }

  lemma CoversIsListing(s: Shelf, of: Generation, root: string, want: Want, rows: seq<Located>)
    requires Keyed(s) && Filed(s) && Covers(s, of, root, Some(want), rows)
    ensures Lists(s, of, root, Some(want), rows)
  {
    forall l | Selects(s, of, root, Some(want), l) ensures l in rows {
      assert HasPlace(s, of, rows, l);
      var i :| 0 <= i < |rows| && SamePlace(s, of, rows[i], l);
      var sort := s.files[Key(of, l.rel)].sort;
      assert Selects(s, of, root, Some(want), rows[i]);
      PlaceTellsApart(s, of, root, Some(want), Placed(sort, rows[i]), Placed(sort, l));
    }
  }

  /** Merging by place gives one row for each place: where two files share a sort
      key, it cannot give both their rows. */
  lemma OneRowForAPlace(s: Shelf, of: Generation, rows: seq<Located>, a: Located, b: Located)
    requires InPlace(s, of, rows) && SamePlace(s, of, a, b) && a in rows && b in rows
    ensures a == b
  {
    var i :| 0 <= i < |rows| && rows[i] == a;
    var j :| 0 <= j < |rows| && rows[j] == b;
    PlaceIrreflexive((s.files[Key(of, a.rel)].sort, a.row.ord));
  }

  /** What the queries so far have answered with: a row for each place, no more. */
  ghost predicate Merging(t: Tables, of: Generation, root: string, want: Want, merged: map<(string, nat), Located>) {
    && (forall at :: at in merged ==> Answers(t, of, root, want, at, merged[at]))
    && forall p, j :: 0 <= j < |want| && p in Point(t, of, root, want[j]) ==> PlaceOf(p) in merged
  }

  /** `merged` with a row for each new place. */
  ghost predicate MergedIn(merged: map<(string, nat), Located>, found: set<Placed>, more: map<(string, nat), Located>) {
    && (forall at :: at in merged ==> at in more && more[at] == merged[at])
    && (forall at :: at in more && at !in merged ==> Placed(at.0, more[at]) in found && more[at].row.ord == at.1)
    && forall p :: p in found ==> PlaceOf(p) in more
  }

  /** A place already taken keeps what it has. */
  method MergeIn(merged: map<(string, nat), Located>, found: set<Placed>) returns (more: map<(string, nat), Located>)
    ensures MergedIn(merged, found, more)
  {
    more := merged;
    var todo := found;
    while todo != {}
      invariant todo <= found
      invariant MergedIn(merged, found - todo, more)
      decreases todo
    {
      var p :| p in todo;
      if PlaceOf(p) !in more { more := more[PlaceOf(p) := p.located]; }
      todo := todo - {p};
    }
    assert found - todo == found;
  }

  lemma MergesOn(t: Tables, of: Generation, root: string, want: Want, pair: (string, string),
                 merged: map<(string, nat), Located>, more: map<(string, nat), Located>)
    requires Merging(t, of, root, want, merged) && MergedIn(merged, Point(t, of, root, pair), more)
    ensures Merging(t, of, root, want + [pair], more)
  {
    var wider := want + [pair];
    forall at | at in more ensures Answers(t, of, root, wider, at, more[at]) {
      if at in merged {
        assert Answers(t, of, root, want, at, merged[at]);
        var i :| 0 <= i < |want| && Placed(at.0, merged[at]) in Point(t, of, root, want[i]);
        assert wider[i] == want[i];
      } else {
        assert wider[|want|] == pair;
      }
    }
    forall p, j | 0 <= j < |wider| && p in Point(t, of, root, wider[j]) ensures PlaceOf(p) in more {
      if j < |want| { assert wider[j] == want[j] && PlaceOf(p) in merged; }
    }
  }

  method SortedPlaces(keys: set<(string, nat)>) returns (places: seq<(string, nat)>)
    ensures Text.Unrepeated(places) && Text.Sorted(PlaceBefore, places)
    ensures forall at :: at in places <==> at in keys
  {
    var found := Text.Enumerate(keys);
    places := Text.Sort(PlaceBefore, found);
    PlaceBeforeIsWeakOrder();
    Text.SortSorted(PlaceBefore, found);
    Text.SameLength(places, found);
    Text.UnrepeatedSame(found, places);
    forall at: (string, nat) ensures at in places <==> at in found {
      assert at in places <==> at in multiset(places);
      assert at in found <==> at in multiset(found);
    }
  }

  /** A merged map's rows, by place. */
  method InKeyOrder(t: Tables, of: Generation, root: string, want: Want, merged: map<(string, nat), Located>)
    returns (rows: seq<Located>)
    requires Sound(t) && Merging(t, of, root, want, merged)
    ensures Ascii(root) ==> Covers(ContentsOf(t), of, root, Some(want), rows)
  {
    var places := SortedPlaces(merged.Keys);
    rows := [];
    for i := 0 to |places|
      invariant |rows| == i
      invariant forall j :: 0 <= j < i ==> places[j] in merged && rows[j] == merged[places[j]]
    {
      assert places[i] in places;
      rows := rows + [merged[places[i]]];
    }
    if Ascii(root) { MergedCovers(t, of, root, want, merged, places, rows); }
  }

  lemma PlaceBeforeIsWeakOrder()
    ensures Text.WeakOrder(PlaceBefore)
  {
    forall x, y | PlaceBefore(x, y) ensures !PlaceBefore(y, x) { PlaceAsymmetric(x, y); }
    forall x, y, z | !PlaceBefore(y, x) && !PlaceBefore(z, y) ensures !PlaceBefore(z, x) {
      PlaceTotal(x, y);
      PlaceTotal(y, z);
      if PlaceBefore(x, y) && PlaceBefore(y, z) { PlaceTransitive(x, y, z); }
      if PlaceBefore(x, z) { PlaceAsymmetric(x, z); }
      if x == z { PlaceIrreflexive(x); }
    }
  }

  lemma AnswerIsSelected(t: Tables, of: Generation, root: string, want: Want, at: (string, nat), l: Located)
    requires Sound(t) && Ascii(root) && Answers(t, of, root, want, at, l)
    ensures Selects(ContentsOf(t), of, root, Some(want), l) && ContentsOf(t).files[Key(of, l.rel)].sort == at.0
  {
    var i :| 0 <= i < |want| && Placed(at.0, l) in Point(t, of, root, want[i]);
    PointHolds(t, of, root, want[i], Placed(at.0, l));
  }

  lemma SelectedIsAnswered(t: Tables, of: Generation, root: string, want: Want, l: Located) returns (i: nat)
    requires Sound(t) && Ascii(root) && Selects(ContentsOf(t), of, root, Some(want), l)
    ensures i < |want| && Placed(ContentsOf(t).files[Key(of, l.rel)].sort, l) in Point(t, of, root, want[i])
  {
    i :| 0 <= i < |want| && Hits(l.row.coord, want[i]);
    PointHolds(t, of, root, want[i], Placed(ContentsOf(t).files[Key(of, l.rel)].sort, l));
  }

  /** A row stands at its place. */
  ghost predicate StandsAt(s: Shelf, of: Generation, l: Located, at: (string, nat)) {
    Key(of, l.rel) in s.files && s.files[Key(of, l.rel)].sort == at.0 && l.row.ord == at.1
  }

  lemma StandingIsInPlace(s: Shelf, of: Generation, places: seq<(string, nat)>, rows: seq<Located>)
    requires |rows| == |places| && Text.Unrepeated(places) && Text.Sorted(PlaceBefore, places)
    requires forall i :: 0 <= i < |rows| ==> StandsAt(s, of, rows[i], places[i])
    ensures InPlace(s, of, rows)
  {
    forall i, j | 0 <= i < j < |rows| ensures PlaceBefore(places[i], places[j]) {
      PlaceTotal(places[i], places[j]);
    }
  }

  lemma MergedCovers(t: Tables, of: Generation, root: string, want: Want, merged: map<(string, nat), Located>,
                     places: seq<(string, nat)>, rows: seq<Located>)
    requires Sound(t) && Ascii(root) && Merging(t, of, root, want, merged)
    requires Text.Unrepeated(places) && Text.Sorted(PlaceBefore, places)
    requires forall at :: at in places <==> at in merged
    requires |rows| == |places| && forall i :: 0 <= i < |rows| ==> places[i] in merged && rows[i] == merged[places[i]]
    ensures Covers(ContentsOf(t), of, root, Some(want), rows)
  {
    var s := ContentsOf(t);
    forall i | 0 <= i < |rows|
      ensures Selects(s, of, root, Some(want), rows[i]) && StandsAt(s, of, rows[i], places[i])
    {
      AnswerIsSelected(t, of, root, want, places[i], rows[i]);
    }
    StandingIsInPlace(s, of, places, rows);
    forall l | Selects(s, of, root, Some(want), l) ensures HasPlace(s, of, rows, l) {
      var j := SelectedIsAnswered(t, of, root, want, l);
      assert PlaceOf(Placed(s.files[Key(of, l.rel)].sort, l)) in merged;
      PlaceIsMerged(s, of, places, rows, l);
    }
  }

  lemma PlaceIsMerged(s: Shelf, of: Generation, places: seq<(string, nat)>, rows: seq<Located>, l: Located)
    requires |rows| == |places| && Key(of, l.rel) in s.files
    requires forall i :: 0 <= i < |rows| ==> StandsAt(s, of, rows[i], places[i])
    requires (s.files[Key(of, l.rel)].sort, l.row.ord) in places
    ensures HasPlace(s, of, rows, l)
  {
    var i :| 0 <= i < |places| && places[i] == (s.files[Key(of, l.rel)].sort, l.row.ord);
    assert SamePlace(s, of, rows[i], l);
  }

  // ---- The index ---------------------------------------------------------------------------------

  /** One row of a file: the candidate, then a posting for each pair it carries. */
  method PutRow(t: Tables, of: Generation, rel: string, row: Row) returns (r: Result<Tables, Trouble>)
    requires Sound(t) && Key(of, rel) in t.file
    ensures r == if Cell(of, rel, row.ord) in t.candidate then Err(Corrupt) else Ok(RowPut(t, of, rel, row))
  {
    var cell := Cell(of, rel, row.ord);
    if cell in t.candidate { return Err(Corrupt); }
    var u := t.(candidate := t.candidate[cell := CandidateRow(row.id, row.coord, row.facts)]);
    var items := row.coord.Keys;
    var todo := items;
    while todo != {}
      invariant todo <= items
      invariant u == t.(candidate := u.candidate, posting := t.posting + PostingsOf(of, rel, row, items - todo))
      invariant u.candidate == t.candidate[cell := CandidateRow(row.id, row.coord, row.facts)]
      decreases todo
    {
      var item :| item in todo;
      var posting := Posting(of, item, row.coord[item], rel, row.ord);
      assert posting !in t.posting by { assert posting in t.posting <==> Points(t.candidate, posting); }
      if posting in u.posting { return Err(Corrupt); }
      u := u.(posting := u.posting + {posting});
      todo := todo - {item};
    }
    assert items - todo == row.coord.Keys;
    return Ok(u);
  }

  /** A file's rows so far. */
  ghost predicate PutSoFar(t: Tables, u: Tables, key: Key, f: Indexed, rows: seq<Row>) {
    && u.generation == t.generation && key in u.file
    && FilesIn(u) == FilesIn(t)[key := Kept(f.hash, f.sort, f.stamp, ByOrd(rows))]
  }

  lemma PutTwice(m: map<Key, Kept>, key: Key, a: Kept, b: Kept)
    ensures m[key := a][key := b] == m[key := b]
  {
  }

  lemma ByOrdSnoc(rows: seq<Row>, row: Row)
    ensures ByOrd(rows + [row]) == ByOrd(rows)[row.ord := row]
  {
    assert (rows + [row])[..|rows|] == rows;
  }

  lemma PutOneMore(t: Tables, u: Tables, of: Generation, f: Indexed, rows: seq<Row>, row: Row)
    requires PutSoFar(t, u, Key(of, f.rel), f, rows)
    ensures PutSoFar(t, RowPut(u, of, f.rel, row), Key(of, f.rel), f, rows + [row])
  {
    var key := Key(of, f.rel);
    var before := Kept(f.hash, f.sort, f.stamp, ByOrd(rows));
    var after := Kept(f.hash, f.sort, f.stamp, ByOrd(rows + [row]));
    assert FilesIn(u)[key] == before;
    RowPutAdds(u, of, f.rel, row, before);
    ByOrdSnoc(rows, row);
    PutTwice(FilesIn(t), key, before, after);
  }

  lemma RowPutAdds(t: Tables, of: Generation, rel: string, row: Row, was: Kept)
    requires Key(of, rel) in t.file && FilesIn(t)[Key(of, rel)] == was
    ensures FilesIn(RowPut(t, of, rel, row)) ==
            FilesIn(t)[Key(of, rel) := Kept(was.hash, was.sort, was.stamp, was.rows[row.ord := row])]
  {
    RowPutFiles(t, of, rel, row);
    assert KeptIn(t, Key(of, rel)) == was;
  }

  /** A cell is taken exactly if the file has a row of its ordinal. */
  lemma TakenByRow(t: Tables, u: Tables, key: Key, f: Indexed, rows: seq<Row>, ord: nat)
    requires PutSoFar(t, u, key, f, rows)
    ensures Cell(key.of, key.rel, ord) in u.candidate <==> ord in ByOrd(rows)
  {
    RowsInAt(u.candidate, key, ord);
    assert KeptIn(u, key) == FilesIn(u)[key];
  }

  lemma DistinctOn(rows: seq<Row>, i: nat)
    requires i < |rows| && Distinct(rows[..i]) && rows[i].ord !in ByOrd(rows[..i])
    ensures Distinct(rows[..i + 1])
  {
    forall j | 0 <= j < i ensures rows[j].ord != rows[i].ord {
      ByOrdAt(rows[..i], j);
    }
  }

  lemma ClearedSoFar(t: Tables, of: Generation, f: Indexed)
    requires Sound(t)
    ensures Sound(Cleared(t, of, f)) && PutSoFar(t, Cleared(t, of, f), Key(of, f.rel), f, f.rows[..0])
  {
    ClearedIsSound(t, of, f);
    ClearedFiles(t, of, f);
  }

  method PutNext(ghost t: Tables, u: Tables, of: Generation, f: Indexed, i: nat) returns (r: Result<Tables, Trouble>)
    requires i < |f.rows| && Distinct(f.rows[..i])
    requires Sound(u) && PutSoFar(t, u, Key(of, f.rel), f, f.rows[..i])
    ensures r.Ok? <==> Distinct(f.rows[..i + 1])
    ensures r.Err? ==> r == Err(Corrupt)
    ensures r.Ok? ==> Sound(r.value) && PutSoFar(t, r.value, Key(of, f.rel), f, f.rows[..i + 1])
  {
    var row := f.rows[i];
    TakenByRow(t, u, Key(of, f.rel), f, f.rows[..i], row.ord);
    r := PutRow(u, of, f.rel, row);
    if r.Err? {
      var j := ByOrdFrom(f.rows[..i], row.ord);
      assert f.rows[..i + 1][j].ord == f.rows[..i + 1][i].ord;
    } else {
      RowPutIsSound(u, of, f.rel, row);
      PutOneMore(t, u, of, f, f.rows[..i], row);
      DistinctOn(f.rows, i);
      assert f.rows[..i + 1] == f.rows[..i] + [row];
    }
  }

  /** A file's old rows out and its new ones in. Two of one ordinal are refused. */
  method PutFile(t: Tables, of: Generation, f: Indexed) returns (r: Result<Tables, Trouble>)
    requires Sound(t)
    ensures r.Ok? <==> Distinct(f.rows)
    ensures r.Err? ==> r == Err(Corrupt)
    ensures r.Ok? ==> Sound(r.value) && PutSoFar(t, r.value, Key(of, f.rel), f, f.rows)
  {
    var u := Cleared(t, of, f);
    ClearedSoFar(t, of, f);
    for i := 0 to |f.rows|
      invariant Sound(u) && Distinct(f.rows[..i]) && PutSoFar(t, u, Key(of, f.rel), f, f.rows[..i])
    {
      r := PutNext(t, u, of, f, i);
      if r.Err? { return; }
      u := r.value;
    }
    assert f.rows[..|f.rows|] == f.rows;
    return Ok(u);
  }

  class SqliteIndex {
    var tables: Tables

    ghost predicate Valid()
      reads this
    {
      Sound(tables)
    }

    ghost function Contents(): Shelf
      reads this
    {
      ContentsOf(tables)
    }

    constructor ()
      ensures Valid() && Contents() == EMPTY
    {
      tables := Tables(map[], map[], map[], {});
    }

    /** All the files or, if one of them has two rows of one ordinal, none. */
    method Write(of: Generation, more: seq<Indexed>) returns (r: Result<(), Trouble>)
      requires Valid()
      modifies this
      ensures Valid()
      ensures r.Ok? <==> forall i :: 0 <= i < |more| ==> Distinct(more[i].rows)
      ensures r.Ok? ==> Contents() == Written(old(Contents()), of, more)
      ensures r.Err? ==> tables == old(tables)
    {
      var tx := tables.(generation := tables.generation[of := None]);
      for i := 0 to |more|
        invariant tables == old(tables) && Sound(tx) && tx.generation == tables.generation[of := None]
        invariant forall j :: 0 <= j < i ==> Distinct(more[j].rows)
        invariant FilesIn(tx) == WrittenFiles(FilesIn(tables), of, more[..i])
      {
        var put := PutFile(tx, of, more[i]);
        if put.Err? { return Err(put.error); }
        tx := put.value;
        assert more[..i + 1][..i] == more[..i];
      }
      assert more[..|more|] == more;
      WrittenIs(tables, tx, of, more);
      tables := tx;
      return Ok(());
    }

    method Restamp(of: Generation, stamps: seq<(string, Option<Stamp>)>)
      requires Valid()
      modifies this
      ensures Valid()
      ensures Contents() == Restamped(old(Contents()), of, stamps)
    {
      var tx := tables;
      for i := 0 to |stamps|
        invariant tx == tables.(file := tx.file) && tx.file.Keys == tables.file.Keys
        invariant FilesIn(tx) == RestampedFiles(FilesIn(tables), of, stamps[..i])
      {
        var (rel, stamp) := stamps[i];
        var key := Key(of, rel);
        if key in tx.file {
          ghost var was := tx;
          var row := tx.file[key];
          tx := tx.(file := tx.file[key := match stamp
                                           case Some(s) => FileRow(row.hash, row.sort, Some(s.mtime), Some(s.size))
                                           case None => FileRow(row.hash, row.sort, None, None)]);
          assert FilesIn(tx) == FilesIn(was)[key := FilesIn(was)[key].(stamp := stamp)];
        }
        assert stamps[..i + 1][..i] == stamps[..i];
      }
      assert stamps[..|stamps|] == stamps;
      tables := tx;
    }

    method Forget(of: Generation, gone: set<string>)
      requires Valid()
      modifies this
      ensures Valid()
      ensures Contents() == Forgotten(old(Contents()), of, gone)
    {
      var tx := tables;
      var todo := gone;
      while todo != {}
        invariant todo <= gone
        invariant tx == tables.(posting := tx.posting)
        invariant forall p :: p in tx.posting <==> p in tables.posting && !(p.of == of && p.rel in gone - todo)
        decreases todo
      {
        var rel :| rel in todo;
        tx := WithoutPostings(tx, of, rel);
        todo := todo - {rel};
      }
      ghost var kept := tx.posting;
      todo := gone;
      while todo != {}
        invariant todo <= gone
        invariant tx == tables.(posting := kept, candidate := tx.candidate)
        invariant tx.candidate == map cell | cell in tables.candidate && !(cell.of == of && cell.rel in gone - todo)
                                    :: tables.candidate[cell]
        decreases todo
      {
        var rel :| rel in todo;
        tx := WithoutCandidates(tx, of, rel);
        todo := todo - {rel};
      }
      todo := gone;
      while todo != {}
        invariant todo <= gone
        invariant tx == tables.(posting := kept, candidate := tx.candidate, file := tx.file)
        invariant tx.candidate == map cell | cell in tables.candidate && !(cell.of == of && cell.rel in gone)
                                    :: tables.candidate[cell]
        invariant tx.file == map key | key in tables.file && !(key.of == of && key.rel in gone - todo) ::
          tables.file[key]
        decreases todo
      {
        var rel :| rel in todo;
        tx := tx.(file := tx.file - {Key(of, rel)});
        todo := todo - {rel};
      }
      ForgottenIs(tables, tx, of, gone);
      tables := tx;
    }

    method Seal(of: Generation, at: Time) returns (r: Result<(), Trouble>)
      requires Valid()
      modifies this
      ensures Valid()
      ensures Contents() == Sealed(old(Contents()), of, WholeSecond(at))
      ensures r == if of in old(tables).generation then Ok(()) else Err(Unopened)
    {
      if of !in tables.generation { return Err(Unopened); }
      SealedIs(tables, of, at);
      tables := tables.(generation := tables.generation[of := Some(Seconds(at))]);
      return Ok(());
    }

    method Discard(of: Generation)
      requires Valid()
      modifies this
      ensures Valid()
      ensures Contents() == Discarded(old(Contents()), of)
    {
      var tx := tables;
      tx := tx.(posting := set p | p in tx.posting && p.of != of);
      tx := tx.(candidate := map cell | cell in tx.candidate && cell.of != of :: tx.candidate[cell]);
      tx := tx.(file := map key | key in tx.file && key.of != of :: tx.file[key]);
      tx := tx.(generation := tx.generation - {of});
      DiscardedIs(tables, tx, of);
      tables := tx;
    }

    method Known(of: Generation) returns (known: map<string, Held>)
      ensures known == KnownOf(Contents(), of)
    {
      known := KnownIn(tables, of);
      KnownIs(tables, of);
    }

    method Built(of: Generation) returns (built: Option<Built>)
      requires Valid()
      ensures built == BuiltOf(Contents(), of)
    {
      if of !in tables.generation { return None; }
      var files := |set key | key in tables.file && key.of == of|;
      var rows := |set cell | cell in tables.candidate && cell.of == of|;
      TableCounts(tables, of);
      return Some(Index.Built(files, rows, ReadTime(tables.generation[of])));
    }

    method Generations() returns (all: map<Generation, Built>)
      requires Valid()
      ensures all == ListedOf(Contents())
    {
      all := map[];
      var todo := tables.generation.Keys;
      while todo != {}
        invariant todo <= tables.generation.Keys
        invariant all == map of | of in tables.generation.Keys - todo :: BuiltOf(Contents(), of).value
        decreases todo
      {
        var of :| of in todo;
        var built := Built(of);
        all := all[of := built.value];
        todo := todo - {of};
      }
    }

    method Rows(of: Generation, root: string) returns (snapshot: Option<Snapshot>)
      requires Valid()
      ensures snapshot.None? <==> of !in Contents().written
      ensures snapshot.Some? ==> snapshot.value.sealedAt == Contents().written[of]
      ensures snapshot.Some? && Keyed(Contents()) && Ascii(root) ==>
                Lists(Contents(), of, root, None, snapshot.value.rows)
    {
      if of !in tables.generation { return None; }
      var found := Text.Enumerate(Read(tables, of, root));
      var placed := Text.Sort(ByPlace, found);
      ByPlaceIsWeakOrder();
      Text.SortSorted(ByPlace, found);
      Text.SameLength(placed, found);
      Text.UnrepeatedSame(found, placed);
      ContentsFiled(tables);
      if Keyed(Contents()) && Ascii(root) {
        forall p ensures p in placed <==> Holds(Contents(), of, root, None, p) { ReadHolds(tables, of, root, p); }
        SortedIsListing(Contents(), of, root, None, placed);
      }
      return Some(Snapshot(ReadTime(tables.generation[of]), LocatedOf(placed)));
    }

    /** One query for each wanted pair, merged by place; a place already taken keeps
        what it has. */
    method Union(of: Generation, root: string, want: Want) returns (snapshot: Option<Snapshot>)
      requires Valid()
      ensures snapshot.None? <==> of !in Contents().written
      ensures snapshot.Some? ==> snapshot.value.sealedAt == Contents().written[of]
      ensures snapshot.Some? && Ascii(root) ==> Covers(Contents(), of, root, Some(want), snapshot.value.rows)
      ensures snapshot.Some? && Keyed(Contents()) && Ascii(root) ==>
                Lists(Contents(), of, root, Some(want), snapshot.value.rows)
    {
      if of !in tables.generation { return None; }
      var merged: map<(string, nat), Located> := map[];
      for i := 0 to |want|
        invariant Merging(tables, of, root, want[..i], merged)
      {
        var more := MergeIn(merged, Point(tables, of, root, want[i]));
        MergesOn(tables, of, root, want[..i], want[i], merged, more);
        assert want[..i + 1] == want[..i] + [want[i]];
        merged := more;
      }
      assert want[..|want|] == want;
      var rows := InKeyOrder(tables, of, root, want, merged);
      if Ascii(root) && Keyed(Contents()) { CoversIsListing(Contents(), of, root, want, rows); }
      return Some(Snapshot(ReadTime(tables.generation[of]), rows));
    }
  }
}
