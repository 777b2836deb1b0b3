/** Canonical JSON, which every content address is taken over. */
module Addr {
  import opened Wrappers
  import Ast
  import Text

  // ---- Documents as they sit in memory -----------------------------------------------

  /** A finite double, by the shortest decimal that reads back as it: digits, an
      optional fraction and an optional power of ten. */
  datatype Decimal = Decimal(neg: bool, whole: nat, frac: string, exp: Option<int>)

  datatype Number = Whole(n: int) | Double(d: Decimal)

  datatype Entry = Entry(key: string, value: Doc)

  /** A JSON document, its objects in the order their fields were written. */
  datatype Doc =
    | DNull
    | DBool(b: bool)
    | DNumber(num: Number)
    | DString(s: string)
    | DArray(items: seq<Doc>)
    | DObject(entries: seq<Entry>)

  predicate DistinctKeys(entries: seq<Entry>) {
    forall i, j :: 0 <= i < j < |entries| ==> entries[i].key != entries[j].key
  }

  /** What the in-memory types guarantee: no object holds a key twice, and a
      fraction is digits. */
  predicate Proper(doc: Doc) {
    match doc
    case DNumber(Double(d)) => Text.AllDigits(d.frac)
    case DArray(items) => forall i :: 0 <= i < |items| ==> Proper(items[i])
    case DObject(entries) => DistinctKeys(entries) && forall i :: 0 <= i < |entries| ==> Proper(entries[i].value)
    case _ => true
  }

  /** The nodes on the longest path down from here. */
  function Levels(doc: Doc): (n: nat)
    ensures n > 0
    decreases doc, 0
  {
    match doc
    case DArray(items) => 1 + MostItems(items)
    case DObject(entries) => 1 + MostEntries(entries)
    case _ => 1
  }

  function MostItems(items: seq<Doc>): (n: nat)
    ensures forall i :: 0 <= i < |items| ==> Levels(items[i]) <= n
    ensures items != [] ==> exists i :: 0 <= i < |items| && Levels(items[i]) == n
    decreases items, 1
  {
    if items == [] then 0
    else
      var m := MostItems(items[1..]);
      assert forall i :: 1 <= i < |items| ==> items[i] == items[1..][i - 1];
      assert m > Levels(items[0]) ==>
        exists i :: 0 <= i < |items[1..]| && Levels(items[1..][i]) == m && items[i + 1] == items[1..][i];
      Text.Max(Levels(items[0]), m)
  }

  function MostEntries(entries: seq<Entry>): (n: nat)
    ensures forall i :: 0 <= i < |entries| ==> Levels(entries[i].value) <= n
    ensures entries != [] ==> exists i :: 0 <= i < |entries| && Levels(entries[i].value) == n
    decreases entries, 1
  {
    if entries == [] then 0
    else
      var m := MostEntries(entries[1..]);
      assert forall i :: 1 <= i < |entries| ==> entries[i] == entries[1..][i - 1];
      assert m > Levels(entries[0].value) ==>
        exists i :: 0 <= i < |entries[1..]| && Levels(entries[1..][i].value) == m && entries[i + 1] == entries[1..][i];
      Text.Max(Levels(entries[0].value), m)
  }

  lemma SameMost(a: seq<Entry>, b: seq<Entry>)
    requires multiset(a) == multiset(b)
    ensures MostEntries(a) == MostEntries(b)
  {
    AtMost(a, b);
    AtMost(b, a);
  }

  lemma AtMost(a: seq<Entry>, b: seq<Entry>)
    requires multiset(a) == multiset(b)
    ensures MostEntries(a) <= MostEntries(b)
  {
    Text.SameLength(a, b);
    if a != [] {
      var i :| 0 <= i < |a| && Levels(a[i].value) == MostEntries(a);
      assert a[i] in b;
    }
  }

  // ---- The canonical form ----------------------------------------------------------------

  function Strip(frac: string): string {
    if frac != "" && frac[|frac| - 1] == '0' then Strip(frac[..|frac| - 1]) else frac
  }

  /** Without trailing zeros, and zero without a sign. */
  function Normal(num: Number): Decimal {
    match num
    case Whole(n) => Decimal(n < 0, if n < 0 then -n else n, "", None)
    case Double(d) =>
      var frac := Strip(d.frac);
      Decimal(d.neg && !(d.whole == 0 && frac == ""), d.whole, frac, d.exp)
  }

  function MantissaText(d: Decimal): string {
    (if d.neg then "-" else "") + Text.NatText(d.whole) + (if d.frac == "" then "" else "." + d.frac)
  }

  function ExponentText(exp: Option<int>): string {
    match exp case None => "" case Some(e) => "e" + Ast.IntText(e)
  }

  function DecimalText(d: Decimal): string { MantissaText(d) + ExponentText(d.exp) }

  function NumberText(num: Number): string { DecimalText(Normal(num)) }

  predicate ByKey(a: Entry, b: Entry) { Text.Less(a.key, b.key) }

  function EntriesInOrder(entries: seq<Entry>): (r: seq<Entry>)
    ensures multiset(r) == multiset(entries)
  {
    Text.Sort(ByKey, entries)
  }

  lemma SortedIsProper(entries: seq<Entry>)
    requires Proper(DObject(entries))
    ensures forall i :: 0 <= i < |EntriesInOrder(entries)| ==> Proper(EntriesInOrder(entries)[i].value)
  {
    var r := EntriesInOrder(entries);
    Text.SameLength(r, entries);
    forall i | 0 <= i < |r| ensures Proper(r[i].value) {
      assert r[i] in entries;
    }
  }

  function Canon(doc: Doc): string
    decreases Levels(doc), 0
  {
    match doc
    case DNull => "null"
    case DBool(b) => if b then "true" else "false"
    case DNumber(num) => NumberText(num)
    case DString(s) => Ast.Quote(s)
    case DArray(items) => "[" + (CanonItems(items, true) + "]")
    case DObject(entries) =>
      SameMost(EntriesInOrder(entries), entries);
      "{" + (CanonEntries(EntriesInOrder(entries), true) + "}")
  }

  function Comma(first: bool): string { if first then "" else "," }

  /** The items from here on, a comma before each but the first of all. */
  function CanonItems(items: seq<Doc>, first: bool): string
    decreases MostItems(items), 1, |items|
  {
    if items == [] then ""
    else
      assert forall i :: 0 <= i < |items[1..]| ==> items[1..][i] == items[i + 1];
      Comma(first) + (Canon(items[0]) + CanonItems(items[1..], false))
  }

  function CanonEntries(entries: seq<Entry>, first: bool): string
    decreases MostEntries(entries), 2, |entries|
  {
    if entries == [] then ""
    else
      assert forall i :: 0 <= i < |entries[1..]| ==> entries[1..][i] == entries[i + 1];
      Comma(first) + (CanonEntry(entries[0]) + CanonEntries(entries[1..], false))
  }

  function CanonEntry(entry: Entry): string
    decreases Levels(entry.value), 1
  {
    Ast.Quote(entry.key) + (":" + Canon(entry.value))
  }

  // ---- The writer as it runs --------------------------------------------------------------

  const MAX_DEPTH: nat := 1024

  method StripZeros(d: Decimal) returns (text: string)
    requires Text.AllDigits(d.frac)
    ensures text == MantissaText(Normal(Double(d)))
  {
    var lead := (if d.neg then "-" else "") + Text.NatText(d.whole);
    var frac := d.frac;
    while frac != "" && frac[|frac| - 1] == '0'
      invariant Strip(frac) == Strip(d.frac)
      decreases |frac|
    {
      frac := frac[..|frac| - 1];
    }
    text := if frac == "" then lead else lead + ("." + frac);
    assert frac == Strip(d.frac);
    if frac == "" && d.neg && d.whole == 0 {
      assert text == "-" + "0";
      text := "0";
    }
    assert lead + "" == lead;
  }

  datatype Error = DepthExceeded

  // ---- What is written so far ---------------------------------------------------------------

  /** The first `n` items leave room for all their levels. */
  ghost predicate ItemsFit(items: seq<Doc>, n: nat, depth: int)
    requires n <= |items|
  {
    forall j :: 0 <= j < n ==> depth + Levels(items[j]) <= MAX_DEPTH + 1
  }

  ghost predicate EntriesFit(entries: seq<Entry>, n: nat, depth: int)
    requires n <= |entries|
  {
    forall j :: 0 <= j < n ==> depth + Levels(entries[j].value) <= MAX_DEPTH + 1
  }

  lemma AllItemsFit(items: seq<Doc>, depth: int)
    requires ItemsFit(items, |items|, depth) && depth <= MAX_DEPTH + 1
    ensures depth + MostItems(items) <= MAX_DEPTH + 1
  {
  }

  lemma AllEntriesFit(entries: seq<Entry>, depth: int)
    requires EntriesFit(entries, |entries|, depth) && depth <= MAX_DEPTH + 1
    ensures depth + MostEntries(entries) <= MAX_DEPTH + 1
  {
  }

  /** What is written, and then the items not yet written, is the whole. */
  ghost predicate ItemsGoOn(items: seq<Doc>, i: nat, done: string)
    requires i <= |items| && forall j :: 0 <= j < |items| ==> Proper(items[j])
  {
    done + CanonItems(items[i..], i == 0) == CanonItems(items, true)
  }

  ghost predicate EntriesGoOn(entries: seq<Entry>, i: nat, done: string)
    requires i <= |entries| && forall j :: 0 <= j < |entries| ==> Proper(entries[j].value)
  {
    done + CanonEntries(entries[i..], i == 0) == CanonEntries(entries, true)
  }

  lemma NextItem(items: seq<Doc>, i: nat, done: string)
    requires i < |items| && forall j :: 0 <= j < |items| ==> Proper(items[j])
    requires ItemsGoOn(items, i, done)
    ensures ItemsGoOn(items, i + 1, done + (Comma(i == 0) + Canon(items[i])))
  {
    assert items[i..][1..] == items[i + 1..];
    PieceDone(done, Comma(i == 0), Canon(items[i]), CanonItems(items[i + 1..], false));
  }

  lemma NextEntry(entries: seq<Entry>, i: nat, done: string)
    requires i < |entries| && forall j :: 0 <= j < |entries| ==> Proper(entries[j].value)
    requires EntriesGoOn(entries, i, done)
    ensures EntriesGoOn(entries, i + 1, done + (Comma(i == 0) + CanonEntry(entries[i])))
  {
    assert entries[i..][1..] == entries[i + 1..];
    PieceDone(done, Comma(i == 0), CanonEntry(entries[i]), CanonEntries(entries[i + 1..], false));
  }

  class Canonicalizer {
    var out: string
    var depth: nat

    constructor ()
      ensures out == "" && depth == 0
    {
      out := "";
      depth := 0;
    }

    /** Writes the canonical form, unless some node lies under more containers
        than are allowed. The depth is as before either way. */
    method WriteValue(doc: Doc) returns (r: Option<Error>)
      requires Proper(doc)
      modifies this
      ensures depth == old(depth)
      ensures r == None <==> old(depth) + Levels(doc) <= MAX_DEPTH + 1
      ensures r == None ==> out == old(out) + Canon(doc)
      decreases Levels(doc), 0
    {
      if depth > MAX_DEPTH { return Some(DepthExceeded); }
      match doc {
        case DNull => out := out + "null";
        case DBool(b) => out := out + (if b then "true" else "false");
        case DString(s) => out := out + Ast.Quote(s);
        case DNumber(num) =>
          var text := NumberString(num);
          out := out + text;
        case DArray(items) =>
          depth := depth + 1;
          r := WriteItems(items);
          depth := depth - 1;
          return;
        case DObject(entries) =>
          depth := depth + 1;
          var sorted := EntriesInOrder(entries);
          SameMost(sorted, entries);
          SortedIsProper(entries);
          r := WriteEntries(sorted);
          depth := depth - 1;
          return;
      }
      r := None;
    }

    method NumberString(num: Number) returns (text: string)
      requires num.Double? ==> Text.AllDigits(num.d.frac)
      ensures text == NumberText(num)
    {
      match num {
        case Whole(n) =>
          text := Ast.IntText(n);
          assert MantissaText(Normal(num)) == Ast.IntText(n);
        case Double(d) =>
          text := StripZeros(d);
          if d.exp.Some? { text := text + ("e" + Ast.IntText(d.exp.value)); }
      }
    }

    method WriteItems(items: seq<Doc>) returns (r: Option<Error>)
      requires forall i :: 0 <= i < |items| ==> Proper(items[i])
      requires 0 < depth <= MAX_DEPTH + 1
      modifies this
      ensures depth == old(depth)
      ensures r == None <==> depth + MostItems(items) <= MAX_DEPTH + 1
      ensures r == None ==> out == old(out) + ("[" + (CanonItems(items, true) + "]"))
      decreases MostItems(items), 2
    {
      out := out + "[";
      ghost var base, done := out, "";
      for i := 0 to |items|
        invariant depth == old(depth) && out == base + done
        invariant ItemsFit(items, i, depth) && ItemsGoOn(items, i, done)
      {
        NextItem(items, i, done);
        Text.Assoc(base, done, Comma(i == 0) + Canon(items[i]));
        done := done + (Comma(i == 0) + Canon(items[i]));
        r := WriteItem(items[i], i == 0);
        if r.Some? { return; }
      }
      AllItemsFit(items, depth);
      Closed(old(out), "[", done, "]");
      out := out + "]";
      r := None;
    }

    method WriteEntries(entries: seq<Entry>) returns (r: Option<Error>)
      requires forall i :: 0 <= i < |entries| ==> Proper(entries[i].value)
      requires 0 < depth <= MAX_DEPTH + 1
      modifies this
      ensures depth == old(depth)
      ensures r == None <==> depth + MostEntries(entries) <= MAX_DEPTH + 1
      ensures r == None ==> out == old(out) + ("{" + (CanonEntries(entries, true) + "}"))
      decreases MostEntries(entries), 2
    {
      out := out + "{";
      ghost var base, done := out, "";
      for i := 0 to |entries|
        invariant depth == old(depth) && out == base + done
        invariant EntriesFit(entries, i, depth) && EntriesGoOn(entries, i, done)
      {
        NextEntry(entries, i, done);
        Text.Assoc(base, done, Comma(i == 0) + CanonEntry(entries[i]));
        done := done + (Comma(i == 0) + CanonEntry(entries[i]));
        r := WriteEntry(entries[i], i == 0);
        if r.Some? { return; }
      }
      AllEntriesFit(entries, depth);
      Closed(old(out), "{", done, "}");
      out := out + "}";
      r := None;
    }

    method WriteItem(item: Doc, first: bool) returns (r: Option<Error>)
      requires Proper(item)
      modifies this
      ensures depth == old(depth)
      ensures r == None <==> depth + Levels(item) <= MAX_DEPTH + 1
      ensures r == None ==> out == old(out) + (Comma(first) + Canon(item))
      decreases Levels(item), 1
    {
      NextPiece(out, Comma(first), Canon(item));
      if !first { out := out + ","; }
      r := WriteValue(item);
    }

    method WriteEntry(entry: Entry, first: bool) returns (r: Option<Error>)
      requires Proper(entry.value)
      modifies this
      ensures depth == old(depth)
      ensures r == None <==> depth + Levels(entry.value) <= MAX_DEPTH + 1
      ensures r == None ==> out == old(out) + (Comma(first) + CanonEntry(entry))
      decreases Levels(entry.value), 1
    {
      NextPiece(out, Comma(first), CanonEntry(entry));
      if !first { out := out + ","; }
      Text.Assoc(out, Ast.Quote(entry.key), ":" + Canon(entry.value));
      Text.Assoc(out + Ast.Quote(entry.key), ":", Canon(entry.value));
      out := out + Ast.Quote(entry.key);
      out := out + ":";
      r := WriteValue(entry.value);
    }
  }

  lemma NextPiece(before: string, sep: string, piece: string)
    ensures before + sep + piece == before + (sep + piece)
    ensures sep == "" ==> before + piece == before + (sep + piece)
  {
    Text.Assoc(before, sep, piece);
    assert sep == "" ==> sep + piece == piece;
  }

  lemma PieceDone(done: string, sep: string, piece: string, more: string)
    ensures (done + (sep + piece)) + more == done + (sep + (piece + more))
  {
    Text.Assoc(done, sep + piece, more);
    Text.Assoc(sep, piece, more);
  }

  lemma Closed(before: string, first: string, done: string, last: string)
    ensures before + first + done + last == before + (first + (done + last))
    ensures done + "" == done
  {
    Text.Assoc(before + first, done, last);
    Text.Assoc(before, first, done + last);
  }

  /** Canonical bytes exist exactly when no node sits under more than the
      allowed number of containers. */
  method Canonicalize(doc: Doc) returns (r: Result<string, Error>)
    requires Proper(doc)
    ensures r == if Levels(doc) <= MAX_DEPTH + 1 then Ok(Canon(doc)) else Err(DepthExceeded)
  {
    assert "" + Canon(doc) == Canon(doc);
    var c := new Canonicalizer();
    var failed := c.WriteValue(doc);
    r := if failed.Some? then Err(DepthExceeded) else Ok(c.out);
  }
}
