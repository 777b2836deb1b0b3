/** The walk over a directory tree, and the key that puts paths in its order. */
module Walk {
  import opened Wrappers
  import Text
  import Utf8

  type Bytes = Utf8.Bytes

  /** When a file was last written, and its size. */
  datatype Stamp = Stamp(mtime: int, size: nat)

  /** What is remembered of a file that was read. */
  datatype Held = Held(hash: string, stamp: Option<Stamp>)

  /** A file: its bytes, unless it cannot be read, and its stamp, if it has one. */
  datatype Stored = Stored(content: Option<Bytes>, stamp: Option<Stamp>)

  /** A directory lists its entries in no particular order. One that cannot be
      listed is one with no entries. */
  datatype Node = File(stored: Stored) | Dir(entries: seq<Entry>)
  datatype Entry = Entry(name: string, node: Node)

  datatype Found = Found(rel: string, stored: Stored)

  const NUL: char := '\0'

  function SortKey(rel: string): string {
    if rel == "" then ""
    else [if rel[0] == '/' then NUL else rel[0]] + SortKey(rel[1..])
  }

  predicate Skipped(name: string) {
    (name != "" && name[0] == '.') || name == "target" || name == "node_modules"
  }

  // ---- The order of visiting -------------------------------------------------------

  function Height(node: Node): (n: nat)
    decreases node, 0
  {
    match node case File(_) => 0 case Dir(entries) => 1 + Tallest(entries)
  }

  function Tallest(entries: seq<Entry>): (n: nat)
    ensures forall i :: 0 <= i < |entries| ==> Height(entries[i].node) <= n
    ensures n > 0 ==> exists i :: 0 <= i < |entries| && Height(entries[i].node) == n
    decreases entries, 1
  {
    if entries == [] then 0
    else
      var m := Tallest(entries[1..]);
      assert forall i :: 1 <= i < |entries| ==> entries[i] == entries[1..][i - 1];
      assert m > Height(entries[0].node) ==>
        exists i :: 0 <= i < |entries[1..]| && Height(entries[1..][i].node) == m && entries[i + 1] == entries[1..][i];
      Text.Max(Height(entries[0].node), m)
  }

  lemma TallestAtMost(a: seq<Entry>, b: seq<Entry>)
    requires forall e :: e in a ==> e in b
    ensures Tallest(a) <= Tallest(b)
  {
    if Tallest(a) > 0 {
      var i :| 0 <= i < |a| && Height(a[i].node) == Tallest(a);
      assert a[i] in b;
    }
  }

  predicate ByName(a: Entry, b: Entry) { Text.Less(a.name, b.name) }

  function InOrder(entries: seq<Entry>): (r: seq<Entry>)
    ensures multiset(r) == multiset(entries)
    ensures Tallest(r) <= Tallest(entries)
  {
    var r := Text.Sort(ByName, entries);
    Text.SameLength(r, entries);
    TallestAtMost(r, entries);
    r
  }

  /** The files under a directory, in the order they are handed over. */
  function Files(entries: seq<Entry>, base: string): seq<Found>
    decreases Tallest(entries), 2, 0
  {
    Onward(InOrder(entries), base)
  }

  function Onward(entries: seq<Entry>, base: string): seq<Found>
    decreases Tallest(entries), 1, |entries|
  {
    if entries == [] then []
    else
      assert forall i :: 0 <= i < |entries[1..]| ==> entries[1..][i] == entries[i + 1];
      One(entries[0], base) + Onward(entries[1..], base)
  }

  function One(e: Entry, base: string): seq<Found>
    decreases Height(e.node), 0, 0
  {
    if Skipped(e.name) then []
    else
      match e.node
      case File(stored) => [Found(base + e.name, stored)]
      case Dir(entries) => Files(entries, base + e.name + "/")
  }

  // ---- What a real tree is -----------------------------------------------------------

  predicate Plain(name: string) {
    name != "" && '/' !in name && '\\' !in name && NUL !in name
  }

  /** Siblings have different names, and no name holds a separator. */
  ghost predicate Proper(entries: seq<Entry>)
    decreases entries
  {
    && (forall i, j :: 0 <= i < j < |entries| ==> entries[i].name != entries[j].name)
    && forall i :: 0 <= i < |entries| ==>
         Plain(entries[i].name) && (entries[i].node.Dir? ==> Proper(entries[i].node.entries))
  }

  ghost predicate ProperEntry(e: Entry) {
    Plain(e.name) && (e.node.Dir? ==> Proper(e.node.entries))
  }

  /** Entries one after another by name. */
  ghost predicate Lined(entries: seq<Entry>) {
    Text.Ascending(ByName, entries) && forall i :: 0 <= i < |entries| ==> ProperEntry(entries[i])
  }

  lemma ByNameIsWeakOrder()
    ensures Text.WeakOrder(ByName)
  {
    forall x, y | ByName(x, y) ensures !ByName(y, x) { Text.LessAsymmetric(x.name, y.name); }
    forall x, y, z | !ByName(y, x) && !ByName(z, y) ensures !ByName(z, x) {
      Text.ByTextIsWeakOrder();
      assert !Text.ByText(y.name, x.name) && !Text.ByText(z.name, y.name);
      assert !Text.ByText(z.name, x.name);
    }
  }

  lemma DistinctAfterSort(entries: seq<Entry>, r: seq<Entry>)
    requires multiset(r) == multiset(entries)
    requires forall i, j :: 0 <= i < j < |entries| ==> entries[i].name != entries[j].name
    ensures forall i, j :: 0 <= i < j < |r| ==> r[i].name != r[j].name
  {
    Text.UnrepeatedSame(entries, r);
    Text.SameLength(r, entries);
    forall i, j | 0 <= i < j < |r| ensures r[i].name != r[j].name {
      assert r[i] in entries && r[j] in entries && r[i] != r[j];
    }
  }

  lemma SortedIsLined(entries: seq<Entry>)
    requires Proper(entries)
    ensures Lined(InOrder(entries))
  {
    var r := InOrder(entries);
    ByNameIsWeakOrder();
    Text.SortSorted(ByName, entries);
    Text.SameLength(r, entries);
    DistinctAfterSort(entries, r);
    forall i, j | 0 <= i < j < |r| ensures ByName(r[i], r[j]) { Text.LessTotal(r[i].name, r[j].name); }
    forall i | 0 <= i < |r| ensures ProperEntry(r[i]) { assert r[i] in entries; }
  }

  // ---- The sort key puts paths in that order ---------------------------------------------

  lemma {:induction false} SortKeySplits(a: string, b: string)
    ensures SortKey(a + b) == SortKey(a) + SortKey(b)
  {
    if a == "" {
      assert a + b == b;
    } else {
      assert (a + b)[1..] == a[1..] + b;
      SortKeySplits(a[1..], b);
    }
  }

  lemma {:induction false} SortKeyOfName(name: string)
    requires '/' !in name
    ensures SortKey(name) == name
  {
    if name != "" {
      assert name[0] in name;
      SortKeyOfName(name[1..]);
    }
  }

  /** Different paths have different keys. */
  lemma {:induction false} SortKeyInjective(a: string, b: string)
    requires NUL !in a && NUL !in b && SortKey(a) == SortKey(b)
    ensures a == b
  {
    if a != "" && b != "" {
      assert a[0] in a && b[0] in b;
      assert SortKey(a)[0] == SortKey(b)[0] && SortKey(a)[1..] == SortKey(b)[1..];
      SortKeyInjective(a[1..], b[1..]);
      assert a == [a[0]] + a[1..] && b == [b[0]] + b[1..];
    }
  }

  /** A name that comes first puts everything under it first: the separator's key
      is less than any character of a name. */
  lemma {:induction false} NameDecides(a: string, b: string, s: string, t: string)
    requires Text.Less(a, b) && NUL !in b && (s == "" || s[0] == NUL)
    ensures Text.Less(a + s, b + t)
  {
    assert b[0] in b;
    if a == "" {
      assert a + s == s && (b + t)[0] == b[0];
    } else if a[0] == b[0] {
      NameDecides(a[1..], b[1..], s, t);
      assert (a + s)[1..] == a[1..] + s && (b + t)[1..] == b[1..] + t;
    }
  }

  predicate BySortKey(a: Found, b: Found) { Text.Less(SortKey(a.rel), SortKey(b.rel)) }

  /** Everything found at an entry lies at or under it. */
  ghost predicate Below(f: Found, e: Entry, base: string) {
    exists rest :: f.rel == base + e.name + rest && (rest == "" || rest[0] == '/')
  }

  ghost predicate AllBelow(found: seq<Found>, e: Entry, base: string) {
    forall i :: 0 <= i < |found| ==> Below(found[i], e, base)
  }

  /** Everything found under a directory has its path as a prefix. */
  ghost predicate Within(f: Found, base: string) { exists rest :: f.rel == base + rest }

  ghost predicate AllUnder(found: seq<Found>, base: string) {
    forall i :: 0 <= i < |found| ==> Within(found[i], base)
  }

  lemma {:induction false} FilesUnder(entries: seq<Entry>, base: string)
    ensures AllUnder(Files(entries, base), base)
    decreases Tallest(entries), 2, 0
  {
    OnwardUnder(InOrder(entries), base);
  }

  lemma {:induction false} OnwardUnder(entries: seq<Entry>, base: string)
    ensures AllUnder(Onward(entries, base), base)
    decreases Tallest(entries), 1, |entries|
  {
    if entries != [] {
      assert forall i :: 0 <= i < |entries[1..]| ==> entries[1..][i] == entries[i + 1];
      OneBelow(entries[0], base);
      BelowIsUnder(One(entries[0], base), entries[0], base);
      OnwardUnder(entries[1..], base);
    }
  }

  lemma BelowIsUnder(found: seq<Found>, e: Entry, base: string)
    requires AllBelow(found, e, base)
    ensures AllUnder(found, base)
  {
    forall i | 0 <= i < |found| ensures Within(found[i], base) {
      assert Below(found[i], e, base);
      var rest :| found[i].rel == base + e.name + rest;
      assert found[i].rel == base + (e.name + rest);
    }
  }

  lemma BelowBy(f: Found, e: Entry, base: string, rest: string)
    requires f.rel == (base + e.name + "/") + rest
    ensures Below(f, e, base)
  {
    assert f.rel == base + e.name + ("/" + rest);
  }

  lemma {:induction false} OneBelow(e: Entry, base: string)
    ensures AllBelow(One(e, base), e, base)
    decreases Height(e.node), 0, 0
  {
    if !Skipped(e.name) {
      match e.node
      case File(stored) => assert base + e.name == base + e.name + "";
      case Dir(entries) =>
        var under := base + e.name + "/";
        FilesUnder(entries, under);
        var found := Files(entries, under);
        forall i | 0 <= i < |found| ensures Below(found[i], e, base) {
          assert Within(found[i], under);
          var rest :| found[i].rel == under + rest;
          BelowBy(found[i], e, base, rest);
        }
    }
  }

  lemma EntriesApart(a: Entry, b: Entry, x: Found, y: Found, base: string)
    requires ByName(a, b) && ProperEntry(a) && ProperEntry(b) && Below(x, a, base) && Below(y, b, base)
    ensures BySortKey(x, y)
  {
    var s :| x.rel == base + a.name + s && (s == "" || s[0] == '/');
    var t :| y.rel == base + b.name + t;
    Parts(base, a.name, s);
    Parts(base, b.name, t);
    NameDecides(a.name, b.name, SortKey(s), SortKey(t));
    Text.LessAfter(SortKey(base), a.name + SortKey(s), b.name + SortKey(t));
  }

  lemma Parts(base: string, name: string, rest: string)
    requires '/' !in name
    ensures SortKey(base + name + rest) == SortKey(base) + (name + SortKey(rest))
  {
    SortKeySplits(base + name, rest);
    SortKeySplits(base, name);
    SortKeyOfName(name);
    Text.Assoc(SortKey(base), name, SortKey(rest));
  }

  lemma LinedTail(entries: seq<Entry>)
    requires Lined(entries) && entries != []
    ensures Lined(entries[1..])
  {
  }

  /** Everything at the first entry comes before everything at the later ones. */
  lemma {:induction false} FirstBefore(e: Entry, x: Found, entries: seq<Entry>, base: string)
    requires ProperEntry(e) && Below(x, e, base) && Lined(entries)
    requires forall i :: 0 <= i < |entries| ==> ByName(e, entries[i])
    ensures forall i :: 0 <= i < |Onward(entries, base)| ==> BySortKey(x, Onward(entries, base)[i])
    decreases |entries|
  {
    if entries != [] {
      var one, rest := One(entries[0], base), Onward(entries[1..], base);
      OneBelow(entries[0], base);
      forall i | 0 <= i < |one| ensures BySortKey(x, one[i]) {
        EntriesApart(e, entries[0], x, one[i], base);
      }
      LinedTail(entries);
      FirstBefore(e, x, entries[1..], base);
    }
  }

  lemma AscendingJoins(a: seq<Found>, b: seq<Found>)
    requires Text.Ascending(BySortKey, a) && Text.Ascending(BySortKey, b)
    requires forall i, j :: 0 <= i < |a| && 0 <= j < |b| ==> BySortKey(a[i], b[j])
    ensures Text.Ascending(BySortKey, a + b)
  {
  }

  lemma {:induction false} OnwardAscends(entries: seq<Entry>, base: string)
    requires Lined(entries)
    ensures Text.Ascending(BySortKey, Onward(entries, base))
    decreases Tallest(entries), 1, |entries|
  {
    if entries != [] {
      var one, rest := One(entries[0], base), Onward(entries[1..], base);
      assert forall i :: 0 <= i < |entries[1..]| ==> entries[1..][i] == entries[i + 1];
      LinedTail(entries);
      assert ProperEntry(entries[0]);
      if entries[0].node.Dir? && !Skipped(entries[0].name) {
        FilesAscend(entries[0].node.entries, base + entries[0].name + "/");
      }
      OnwardAscends(entries[1..], base);
      OneBelow(entries[0], base);
      forall i, j | 0 <= i < |one| && 0 <= j < |rest| ensures BySortKey(one[i], rest[j]) {
        FirstBefore(entries[0], one[i], entries[1..], base);
      }
      AscendingJoins(one, rest);
    }
  }

  /** The walk hands files over in strictly ascending order of sort key. */
  lemma {:induction false} FilesAscend(entries: seq<Entry>, base: string)
    requires Proper(entries)
    ensures Text.Ascending(BySortKey, Files(entries, base))
    decreases Tallest(entries), 2, 0
  {
    SortedIsLined(entries);
    OnwardAscends(InOrder(entries), base);
  }

  lemma BySortKeyIsWeakOrder()
    ensures Text.WeakOrder(BySortKey)
  {
    forall x, y | BySortKey(x, y) ensures !BySortKey(y, x) { Text.LessAsymmetric(SortKey(x.rel), SortKey(y.rel)); }
    forall x, y, z | !BySortKey(y, x) && !BySortKey(z, y) ensures !BySortKey(z, x) {
      Text.ByTextIsWeakOrder();
      assert !Text.ByText(SortKey(y.rel), SortKey(x.rel)) && !Text.ByText(SortKey(z.rel), SortKey(y.rel));
      assert !Text.ByText(SortKey(z.rel), SortKey(x.rel));
    }
  }

  lemma AscendingSeparates(found: seq<Found>)
    requires Text.Ascending(BySortKey, found) && Text.WeakOrder(BySortKey)
    ensures Text.Separates(BySortKey, found) && Text.Sorted(BySortKey, found)
  {
    forall x, y | x in found && y in found && x != y ensures BySortKey(x, y) || BySortKey(y, x) {
      var i :| 0 <= i < |found| && found[i] == x;
      var j :| 0 <= j < |found| && found[j] == y;
    }
    forall i, j | 0 <= i < j < |found| ensures !BySortKey(found[j], found[i]) {
      assert BySortKey(found[i], found[j]);
    }
  }

  /** However a tree's files are listed, sorting them by sort key gives the walk. */
  lemma SortingIsWalking(entries: seq<Entry>, listed: seq<Found>)
    requires Proper(entries) && multiset(listed) == multiset(Files(entries, ""))
    ensures Text.Sort(BySortKey, listed) == Files(entries, "")
  {
    var walked := Files(entries, "");
    FilesAscend(entries, "");
    BySortKeyIsWeakOrder();
    Text.SortSorted(BySortKey, listed);
    AscendingSeparates(walked);
    Text.OneSortedOrder(BySortKey, walked, Text.Sort(BySortKey, listed));
  }

  // ---- What the walk finds ------------------------------------------------------------------

  /** A file lies along a path of names, none of them skipped. */
  ghost predicate Lies(entries: seq<Entry>, names: seq<string>, stored: Stored)
    decreases |names|
  {
    names != [] && exists i :: 0 <= i < |entries| && LiesAt(entries[i], names, stored)
  }

  ghost predicate LiesAt(e: Entry, names: seq<string>, stored: Stored)
    requires names != []
    decreases |names|, 0
  {
    && e.name == names[0] && !Skipped(e.name)
    && match e.node
       case File(s) => |names| == 1 && s == stored
       case Dir(entries) => Lies(entries, names[1..], stored)
  }

  lemma {:induction false} OneAmong(entries: seq<Entry>, base: string, e: Entry, f: Found)
    requires e in entries && f in One(e, base)
    ensures f in Onward(entries, base)
    decreases |entries|
  {
    if e != entries[0] { OneAmong(entries[1..], base, e, f); }
  }

  lemma {:induction false} AmongOne(entries: seq<Entry>, base: string, f: Found) returns (e: Entry)
    requires f in Onward(entries, base)
    ensures e in entries && f in One(e, base)
    decreases |entries|
  {
    if f in One(entries[0], base) {
      e := entries[0];
    } else {
      e := AmongOne(entries[1..], base, f);
    }
  }

  lemma JoinsOn(base: string, name: string, rest: seq<string>)
    requires rest != []
    ensures base + name + "/" + Text.Join(rest, "/") == base + Text.Join([name] + rest, "/")
  {
    assert ([name] + rest)[1..] == rest;
  }

  lemma {:induction false} LyingIsFound(entries: seq<Entry>, base: string, names: seq<string>, stored: Stored)
    requires Lies(entries, names, stored)
    ensures Found(base + Text.Join(names, "/"), stored) in Files(entries, base)
    decreases |names|
  {
    var i :| 0 <= i < |entries| && LiesAt(entries[i], names, stored);
    var e, f := entries[i], Found(base + Text.Join(names, "/"), stored);
    if e.node.Dir? {
      LyingIsFound(e.node.entries, base + e.name + "/", names[1..], stored);
      assert names == [e.name] + names[1..];
      JoinsOn(base, e.name, names[1..]);
    }
    Text.SameLength(InOrder(entries), entries);
    assert e in InOrder(entries);
    OneAmong(InOrder(entries), base, e, f);
  }

  lemma {:induction false} FoundLies(entries: seq<Entry>, base: string, f: Found) returns (names: seq<string>)
    requires f in Files(entries, base)
    ensures Lies(entries, names, f.stored) && f.rel == base + Text.Join(names, "/")
    decreases Tallest(entries)
  {
    var e := AmongOne(InOrder(entries), base, f);
    Text.SameLength(InOrder(entries), entries);
    assert e in entries;
    match e.node {
      case File(_) => names := [e.name];
      case Dir(under) =>
        var rest := FoundLies(under, base + e.name + "/", f);
        names := [e.name] + rest;
        assert names[1..] == rest;
        JoinsOn(base, e.name, rest);
    }
    assert LiesAt(e, names, f.stored);
  }

  /** The walk finds exactly the files that lie along names none of which is
      skipped, each by its names joined. */
  lemma FoundExactlyWhereLying(entries: seq<Entry>, f: Found)
    ensures f in Files(entries, "") <==>
            exists names :: Lies(entries, names, f.stored) && f.rel == Text.Join(names, "/")
  {
    if f in Files(entries, "") {
      var names := FoundLies(entries, "", f);
      assert "" + Text.Join(names, "/") == Text.Join(names, "/");
    }
    if names :| Lies(entries, names, f.stored) && f.rel == Text.Join(names, "/") {
      LyingIsFound(entries, "", names, f.stored);
      assert "" + Text.Join(names, "/") == Text.Join(names, "/");
    }
  }
}
