/** Canonical bytes tell documents apart exactly as far as JSON does. */
module Canonical {
  import opened Wrappers
  import opened Json
  import opened Addr
  import Ast
  import Text

  /** The same document but for the order of fields and how numbers are held. */
  predicate Same(a: Doc, b: Doc)
    decreases a
  {
    match (a, b)
    case (DNull, DNull) => true
    case (DBool(x), DBool(y)) => x == y
    case (DNumber(x), DNumber(y)) => Normal(x) == Normal(y)
    case (DString(x), DString(y)) => x == y
    case (DArray(xs), DArray(ys)) => |xs| == |ys| && forall i :: 0 <= i < |xs| ==> Same(xs[i], ys[i])
    case (DObject(xs), DObject(ys)) =>
      && (forall i :: 0 <= i < |xs| ==> Holds(ys, xs[i].key))
      && (forall j :: 0 <= j < |ys| ==> Holds(xs, ys[j].key))
      && (forall i, j :: 0 <= i < |xs| && 0 <= j < |ys| && xs[i].key == ys[j].key ==> Same(xs[i].value, ys[j].value))
    case _ => false
  }

  predicate Holds(entries: seq<Entry>, key: string) {
    exists i :: 0 <= i < |entries| && entries[i].key == key
  }

  // ---- Reading the front of a text --------------------------------------------------------

  predicate NumberChar(c: char) { Text.IsDigit(c) || c == '-' || c == '.' || c == 'e' }

  /** What may follow a value. */
  predicate Ends(rest: string) { rest == "" || rest[0] in {',', ']', '}'} }

  lemma {:induction false} SameRun(p: char -> bool, a: string, b: string, r: string, t: string)
    requires a + r == b + t
    requires (forall i :: 0 <= i < |a| ==> p(a[i])) && (forall i :: 0 <= i < |b| ==> p(b[i]))
    requires (r == "" || !p(r[0])) && (t == "" || !p(t[0]))
    ensures a == b && r == t
  {
    RunStart(p, a, r);
    RunStart(p, b, t);
    if a == "" {
      assert a + r == r && b + t == t;
    } else {
      assert (a + r)[0] == a[0] && (b + t)[0] == b[0];
      assert (a + r)[1..] == a[1..] + r && (b + t)[1..] == b[1..] + t;
      SameRun(p, a[1..], b[1..], r, t);
      assert a == [a[0]] + a[1..] && b == [b[0]] + b[1..];
    }
  }

  lemma RunStart(p: char -> bool, a: string, r: string)
    requires forall i :: 0 <= i < |a| ==> p(a[i])
    requires r == "" || !p(r[0])
    ensures a == "" <==> a + r == "" || !p((a + r)[0])
  {
    if a == "" { assert a + r == r; }
  }

  lemma SameFront(a: string, b: string, r: string, t: string)
    requires a + r == b + t && |a| == |b|
    ensures a == b && r == t
  {
    assert a == (a + r)[..|a|] && b == (b + t)[..|b|];
    assert r == (a + r)[|a|..] && t == (b + t)[|b|..];
  }

  // ---- Strings -------------------------------------------------------------------------------

  lemma EscapeIsPrefixFree(c: char, d: char, r: string, t: string)
    requires Ast.Escape(c) + r == Ast.Escape(d) + t
    ensures c == d && r == t
  {
    var x, y := Ast.Escape(c), Ast.Escape(d);
    var u := x + r;
    assert u[0] == x[0] == y[0];
    if x[0] == '\\' {
      assert u[1] == x[1] == y[1];
      if x[1] == 'u' {
        assert u[4] == x[4] == y[4] && u[5] == x[5] == y[5];
      }
    }
    assert |x| == |y|;
    SameFront(x, y, r, t);
  }

  lemma {:induction false} EscapedIsPrefixFree(a: string, b: string, r: string, t: string)
    requires Ast.Escaped(a) + ("\"" + r) == Ast.Escaped(b) + ("\"" + t)
    ensures a == b && r == t
  {
    if a != "" && b != "" {
      var x, y := Ast.Escape(a[0]), Ast.Escape(b[0]);
      var r', t' := Ast.Escaped(a[1..]) + ("\"" + r), Ast.Escaped(b[1..]) + ("\"" + t);
      Text.Assoc(x, Ast.Escaped(a[1..]), "\"" + r);
      Text.Assoc(y, Ast.Escaped(b[1..]), "\"" + t);
      EscapeIsPrefixFree(a[0], b[0], r', t');
      EscapedIsPrefixFree(a[1..], b[1..], r, t);
      assert a == [a[0]] + a[1..] && b == [b[0]] + b[1..];
    } else {
      EscapedStart(a, "\"" + r);
      EscapedStart(b, "\"" + t);
      assert a == "" && b == "";
      assert ("\"" + r)[1..] == r && ("\"" + t)[1..] == t;
    }
  }

  lemma EscapedStart(a: string, rest: string)
    ensures a != "" ==> (Ast.Escaped(a) + rest)[0] != '"'
    ensures a == "" ==> Ast.Escaped(a) + rest == rest
  {
    if a != "" { assert (Ast.Escaped(a) + rest)[0] == Ast.Escape(a[0])[0]; }
  }

  lemma QuoteIsPrefixFree(a: string, b: string, r: string, t: string)
    requires Ast.Quote(a) + r == Ast.Quote(b) + t
    ensures a == b && r == t
  {
    QuoteThen(a, r);
    QuoteThen(b, t);
    var x, y := Ast.Escaped(a) + ("\"" + r), Ast.Escaped(b) + ("\"" + t);
    SameFront("\"", "\"", x, y);
    EscapedIsPrefixFree(a, b, r, t);
  }

  lemma QuoteThen(a: string, r: string)
    ensures Ast.Quote(a) + r == "\"" + (Ast.Escaped(a) + ("\"" + r))
  {
    Text.Assoc("\"" + Ast.Escaped(a), "\"", r);
    Text.Assoc("\"", Ast.Escaped(a), "\"" + r);
  }

  // ---- Numbers ----------------------------------------------------------------------------------

  lemma {:induction false} StripsToDigits(frac: string)
    requires Text.AllDigits(frac)
    ensures Text.AllDigits(Strip(frac))
  {
    if frac != "" { StripsToDigits(frac[..|frac| - 1]); }
  }

  lemma NumberChars(d: Decimal)
    requires Text.AllDigits(d.frac)
    ensures DecimalText(d) != "" && forall i :: 0 <= i < |DecimalText(d)| ==> NumberChar(DecimalText(d)[i])
    ensures Text.IsDigit(DecimalText(d)[0]) || DecimalText(d)[0] == '-'
  {
  }

  lemma NatTextInjective(a: nat, b: nat)
    requires Text.NatText(a) == Text.NatText(b)
    ensures a == b
  {
    Text.NatTextReads(a);
    Text.NatTextReads(b);
  }

  lemma ExponentTextInjective(a: Option<int>, b: Option<int>)
    requires ExponentText(a) == ExponentText(b)
    ensures a == b
  {
    match (a, b)
    case (Some(m), Some(n)) =>
      SameFront("e", "e", Ast.IntText(m), Ast.IntText(n));
      IntTextInjective(m, n);
    case _ =>
  }

  lemma IntTextInjective(m: int, n: int)
    requires Ast.IntText(m) == Ast.IntText(n)
    ensures m == n
  {
    IntSign(m);
    IntSign(n);
    if m < 0 {
      SameFront("-", "-", Text.NatText(-m), Text.NatText(-n));
      NatTextInjective(-m, -n);
    } else {
      NatTextInjective(m, n);
    }
  }

  lemma IntSign(n: int)
    ensures Ast.IntText(n)[0] == '-' <==> n < 0
  {
  }

  /** A decimal's text, sign first, each part before all that follows it. */
  lemma DecimalPieces(d: Decimal)
    ensures var tail := (if d.frac == "" then "" else "." + d.frac) + ExponentText(d.exp);
            DecimalText(d) == (if d.neg then "-" else "") + (Text.NatText(d.whole) + tail)
  {
    var sign, whole := if d.neg then "-" else "", Text.NatText(d.whole);
    var frac := if d.frac == "" then "" else "." + d.frac;
    Text.Assoc(sign + whole, frac, ExponentText(d.exp));
    Text.Assoc(sign, whole, frac + ExponentText(d.exp));
  }

  lemma DecimalTextInjective(a: Decimal, b: Decimal)
    requires Text.AllDigits(a.frac) && Text.AllDigits(b.frac)
    requires DecimalText(a) == DecimalText(b)
    ensures a == b
  {
    DecimalPieces(a);
    DecimalPieces(b);
    var x := (if a.frac == "" then "" else "." + a.frac) + ExponentText(a.exp);
    var y := (if b.frac == "" then "" else "." + b.frac) + ExponentText(b.exp);
    var m, n := Text.NatText(a.whole) + x, Text.NatText(b.whole) + y;
    assert m[0] == Text.NatText(a.whole)[0] && n[0] == Text.NatText(b.whole)[0];
    assert "-" + m != n && m != "-" + n by { assert ("-" + m)[0] == '-' && ("-" + n)[0] == '-'; }
    assert "" + m == m && "" + n == n;
    assert a.neg == b.neg;
    if a.neg { SameFront("-", "-", m, n); }
    assert x == "" || x[0] in {'.', 'e'};
    assert y == "" || y[0] in {'.', 'e'};
    SameRun(c => Text.IsDigit(c), Text.NatText(a.whole), Text.NatText(b.whole), x, y);
    NatTextInjective(a.whole, b.whole);
    TailInjective(a, b);
  }

  lemma TailInjective(a: Decimal, b: Decimal)
    requires Text.AllDigits(a.frac) && Text.AllDigits(b.frac)
    requires (if a.frac == "" then "" else "." + a.frac) + ExponentText(a.exp) ==
             (if b.frac == "" then "" else "." + b.frac) + ExponentText(b.exp)
    ensures a.frac == b.frac && a.exp == b.exp
  {
    var x := (if a.frac == "" then "" else "." + a.frac) + ExponentText(a.exp);
    var y := (if b.frac == "" then "" else "." + b.frac) + ExponentText(b.exp);
    assert a.frac != "" ==> x[0] == '.';
    assert b.frac != "" ==> y[0] == '.';
    assert a.frac == "" ==> x == ExponentText(a.exp);
    assert b.frac == "" ==> y == ExponentText(b.exp);
    if a.frac != "" && b.frac != "" {
      Text.Assoc(".", a.frac, ExponentText(a.exp));
      Text.Assoc(".", b.frac, ExponentText(b.exp));
      SameFront(".", ".", a.frac + ExponentText(a.exp), b.frac + ExponentText(b.exp));
      SameRun(c => Text.IsDigit(c), a.frac, b.frac, ExponentText(a.exp), ExponentText(b.exp));
    }
    ExponentTextInjective(a.exp, b.exp);
  }

  // ---- Injectivity ------------------------------------------------------------------------------

  /** The first character says what kind of value it is. */
  lemma FirstChar(doc: Doc, rest: string)
    requires Proper(doc)
    ensures var s := Canon(doc) + rest;
            s != "" && s[0] !in {',', ']', '}'} &&
            match doc
            case DNull => s[0] == 'n'
            case DBool(b) => s[0] == if b then 't' else 'f'
            case DNumber(_) => Text.IsDigit(s[0]) || s[0] == '-'
            case DString(_) => s[0] == '"'
            case DArray(_) => s[0] == '['
            case DObject(_) => s[0] == '{'
  {
    match doc
    case DNumber(num) =>
      NormalIsDigits(num);
      NumberChars(Normal(num));
    case _ =>
  }

  lemma NormalIsDigits(num: Number)
    requires num.Double? ==> Text.AllDigits(num.d.frac)
    ensures Text.AllDigits(Normal(num).frac)
  {
    match num
    case Double(d) => StripsToDigits(d.frac);
    case Whole(_) =>
  }

  lemma NumbersApart(x: Number, y: Number, r: string, t: string)
    requires Proper(DNumber(x)) && Proper(DNumber(y)) && Ends(r) && Ends(t)
    requires NumberText(x) + r == NumberText(y) + t
    ensures Normal(x) == Normal(y) && r == t
  {
    NormalIsDigits(x);
    NormalIsDigits(y);
    NumberChars(Normal(x));
    NumberChars(Normal(y));
    SameRun(c => NumberChar(c), NumberText(x), NumberText(y), r, t);
    DecimalTextInjective(Normal(x), Normal(y));
  }

  /** Where two texts agree, so do the values they begin with and what is left. */
  lemma {:induction false} Apart(a: Doc, b: Doc, r: string, t: string)
    requires Proper(a) && Proper(b) && Ends(r) && Ends(t)
    requires Canon(a) + r == Canon(b) + t
    ensures Same(a, b) && r == t
    decreases Levels(a), 0
  {
    FirstChar(a, r);
    FirstChar(b, t);
    match (a, b)
    case (DNull, DNull) => SameFront("null", "null", r, t);
    case (DBool(x), DBool(y)) => SameFront(Canon(a), Canon(b), r, t);
    case (DNumber(x), DNumber(y)) => NumbersApart(x, y, r, t);
    case (DString(x), DString(y)) => QuoteIsPrefixFree(x, y, r, t);
    case (DArray(xs), DArray(ys)) =>
      Inside("[", CanonItems(xs, true), "]", r);
      Inside("[", CanonItems(ys, true), "]", t);
      SameFront("[", "[", CanonItems(xs, true) + ("]" + r), CanonItems(ys, true) + ("]" + t));
      ItemsApart(xs, ys, true, r, t);
    case (DObject(xs), DObject(ys)) =>
      var u, v := EntriesInOrder(xs), EntriesInOrder(ys);
      Inside("{", CanonEntries(u, true), "}", r);
      Inside("{", CanonEntries(v, true), "}", t);
      SameFront("{", "{", CanonEntries(u, true) + ("}" + r), CanonEntries(v, true) + ("}" + t));
      SameMost(u, xs);
      SortedIsProper(xs);
      SortedIsProper(ys);
      EntriesApart(u, v, true, r, t);
      SameSorted(xs, ys);
  }

  lemma Inside(open: string, body: string, close: string, rest: string)
    ensures (open + (body + close)) + rest == open + (body + (close + rest))
  {
    Text.Assoc(open, body + close, rest);
    Text.Assoc(body, close, rest);
  }

  /** What follows an item is a comma or the end of the list. */
  lemma ItemsThen(items: seq<Doc>, rest: string)
    ensures Ends(CanonItems(items, false) + ("]" + rest))
    ensures CanonItems(items, false) + ("]" + rest) != ""
    ensures (CanonItems(items, false) + ("]" + rest))[0] == if items == [] then ']' else ','
  {
  }

  ghost predicate AllSame(xs: seq<Doc>, ys: seq<Doc>) {
    |xs| == |ys| && forall i :: 0 <= i < |xs| ==> Same(xs[i], ys[i])
  }

  lemma AllSameFrom(xs: seq<Doc>, ys: seq<Doc>)
    requires xs != [] && ys != [] && Same(xs[0], ys[0]) && AllSame(xs[1..], ys[1..])
    ensures AllSame(xs, ys)
  {
    assert forall i :: 0 < i < |xs| ==> xs[i] == xs[1..][i - 1];
    assert forall i :: 0 < i < |ys| ==> ys[i] == ys[1..][i - 1];
  }

  lemma OneByOneFrom(xs: seq<Entry>, ys: seq<Entry>)
    requires xs != [] && ys != [] && xs[0].key == ys[0].key && Same(xs[0].value, ys[0].value)
    requires OneByOne(xs[1..], ys[1..])
    ensures OneByOne(xs, ys)
  {
    assert forall i :: 0 < i < |xs| ==> xs[i] == xs[1..][i - 1];
    assert forall i :: 0 < i < |ys| ==> ys[i] == ys[1..][i - 1];
  }

  lemma {:induction false} ItemsApart(xs: seq<Doc>, ys: seq<Doc>, first: bool, r: string, t: string)
    requires forall i :: 0 <= i < |xs| ==> Proper(xs[i])
    requires forall i :: 0 <= i < |ys| ==> Proper(ys[i])
    requires CanonItems(xs, first) + ("]" + r) == CanonItems(ys, first) + ("]" + t)
    ensures AllSame(xs, ys) && r == t
    decreases MostItems(xs), 2, |xs|
  {
    ItemsStart(xs, first, "]" + r);
    ItemsStart(ys, first, "]" + t);
    if xs == [] {
      assert ys == [] && "" + ("]" + r) == "]" + r && "" + ("]" + t) == "]" + t;
      SameFront("]", "]", r, t);
    } else {
      assert ys != [];
      FirstItemApart(xs, ys, first, r, t);
      FewerItems(xs);
      ItemsApart(xs[1..], ys[1..], false, r, t);
      AllSameFrom(xs, ys);
    }
  }

  lemma FirstItemApart(xs: seq<Doc>, ys: seq<Doc>, first: bool, r: string, t: string)
    requires xs != [] && ys != [] && Proper(xs[0]) && Proper(ys[0])
    requires CanonItems(xs, first) + ("]" + r) == CanonItems(ys, first) + ("]" + t)
    ensures Same(xs[0], ys[0])
    ensures CanonItems(xs[1..], false) + ("]" + r) == CanonItems(ys[1..], false) + ("]" + t)
    decreases MostItems(xs), 1
  {
    var r', t' := CanonItems(xs[1..], false) + ("]" + r), CanonItems(ys[1..], false) + ("]" + t);
    ItemsSplit(xs, first, "]" + r);
    ItemsSplit(ys, first, "]" + t);
    SameFront(Comma(first), Comma(first), Canon(xs[0]) + r', Canon(ys[0]) + t');
    ItemsThen(xs[1..], r);
    ItemsThen(ys[1..], t);
    Apart(xs[0], ys[0], r', t');
  }

  lemma ItemsSplit(items: seq<Doc>, first: bool, rest: string)
    requires items != []
    ensures CanonItems(items, first) + rest ==
            Comma(first) + (Canon(items[0]) + (CanonItems(items[1..], false) + rest))
  {
    Text.Assoc(Comma(first), Canon(items[0]) + CanonItems(items[1..], false), rest);
    Text.Assoc(Canon(items[0]), CanonItems(items[1..], false), rest);
  }

  /** Whether a list goes on shows in its first character. */
  lemma ItemsStart(items: seq<Doc>, first: bool, rest: string)
    requires (items != [] ==> Proper(items[0])) && rest != "" && rest[0] == ']'
    ensures var s := CanonItems(items, first) + rest; s != "" && (s[0] == ']' <==> items == [])
  {
    if items != [] {
      ItemsSplit(items, first, rest);
      var s := Canon(items[0]) + (CanonItems(items[1..], false) + rest);
      FirstChar(items[0], CanonItems(items[1..], false) + rest);
      assert first ==> Comma(first) + s == s;
    } else {
      assert CanonItems(items, first) + rest == rest;
    }
  }

  lemma {:induction false} EntriesApart(xs: seq<Entry>, ys: seq<Entry>, first: bool, r: string, t: string)
    requires forall i :: 0 <= i < |xs| ==> Proper(xs[i].value)
    requires forall i :: 0 <= i < |ys| ==> Proper(ys[i].value)
    requires CanonEntries(xs, first) + ("}" + r) == CanonEntries(ys, first) + ("}" + t)
    ensures OneByOne(xs, ys) && r == t
    decreases MostEntries(xs), 2, |xs|
  {
    EntriesStart(xs, first, "}" + r);
    EntriesStart(ys, first, "}" + t);
    if xs == [] {
      assert ys == [] && "" + ("}" + r) == "}" + r && "" + ("}" + t) == "}" + t;
      SameFront("}", "}", r, t);
    } else {
      assert ys != [];
      FirstEntryApart(xs, ys, first, r, t);
      FewerEntries(xs);
      EntriesApart(xs[1..], ys[1..], false, r, t);
      OneByOneFrom(xs, ys);
    }
  }

  lemma FirstEntryApart(xs: seq<Entry>, ys: seq<Entry>, first: bool, r: string, t: string)
    requires xs != [] && ys != [] && Proper(xs[0].value) && Proper(ys[0].value)
    requires CanonEntries(xs, first) + ("}" + r) == CanonEntries(ys, first) + ("}" + t)
    ensures xs[0].key == ys[0].key && Same(xs[0].value, ys[0].value)
    ensures CanonEntries(xs[1..], false) + ("}" + r) == CanonEntries(ys[1..], false) + ("}" + t)
    decreases MostEntries(xs), 1
  {
    var r', t' := CanonEntries(xs[1..], false) + ("}" + r), CanonEntries(ys[1..], false) + ("}" + t);
    EntriesSplit(xs, first, "}" + r);
    EntriesSplit(ys, first, "}" + t);
    var u, v := ":" + (Canon(xs[0].value) + r'), ":" + (Canon(ys[0].value) + t');
    SameFront(Comma(first), Comma(first), Ast.Quote(xs[0].key) + u, Ast.Quote(ys[0].key) + v);
    QuoteIsPrefixFree(xs[0].key, ys[0].key, u, v);
    SameFront(":", ":", Canon(xs[0].value) + r', Canon(ys[0].value) + t');
    EntriesThen(xs[1..], r);
    EntriesThen(ys[1..], t);
    Apart(xs[0].value, ys[0].value, r', t');
  }

  lemma EntriesSplit(entries: seq<Entry>, first: bool, rest: string)
    requires entries != []
    ensures CanonEntries(entries, first) + rest ==
            Comma(first) + (Ast.Quote(entries[0].key) +
              (":" + (Canon(entries[0].value) + (CanonEntries(entries[1..], false) + rest))))
  {
    var key, value, more := Ast.Quote(entries[0].key), Canon(entries[0].value), CanonEntries(entries[1..], false);
    Text.Assoc(Comma(first), CanonEntry(entries[0]) + more, rest);
    Text.Assoc(CanonEntry(entries[0]), more, rest);
    Text.Assoc(key, ":" + value, more + rest);
    Text.Assoc(":", value, more + rest);
  }

  lemma EntriesThen(entries: seq<Entry>, rest: string)
    ensures Ends(CanonEntries(entries, false) + ("}" + rest))
  {
  }

  lemma EntriesStart(entries: seq<Entry>, first: bool, rest: string)
    requires rest != "" && rest[0] == '}'
    ensures var s := CanonEntries(entries, first) + rest; s != "" && (s[0] == '}' <==> entries == [])
  {
    if entries != [] {
      EntriesSplit(entries, first, rest);
      var s := Ast.Quote(entries[0].key) +
        (":" + (Canon(entries[0].value) + (CanonEntries(entries[1..], false) + rest)));
      assert s[0] == '"';
      assert first ==> Comma(first) + s == s;
    } else {
      assert CanonEntries(entries, first) + rest == rest;
    }
  }

  /** Objects whose sorted fields agree one by one are the same object. */
  lemma SameSorted(xs: seq<Entry>, ys: seq<Entry>)
    requires DistinctKeys(xs) && DistinctKeys(ys)
    requires OneByOne(EntriesInOrder(xs), EntriesInOrder(ys))
    ensures Same(DObject(xs), DObject(ys))
  {
    forall i | 0 <= i < |xs| ensures Holds(ys, xs[i].key) {
      var j := Partner(xs, ys, i);
    }
    forall j | 0 <= j < |ys| ensures Holds(xs, ys[j].key) {
      var i := PartnerBack(xs, ys, j);
    }
    forall i, j | 0 <= i < |xs| && 0 <= j < |ys| && xs[i].key == ys[j].key
      ensures Same(xs[i].value, ys[j].value)
    {
      OnePartner(xs, ys, i, j);
    }
  }

  lemma OnePartner(xs: seq<Entry>, ys: seq<Entry>, i: nat, j: nat)
    requires DistinctKeys(ys) && OneByOne(EntriesInOrder(xs), EntriesInOrder(ys))
    requires i < |xs| && j < |ys| && xs[i].key == ys[j].key
    ensures Same(xs[i].value, ys[j].value)
  {
    var k := Partner(xs, ys, i);
    assert k == j;
  }

  ghost predicate OneByOne(u: seq<Entry>, v: seq<Entry>) {
    |u| == |v| && forall i :: 0 <= i < |u| ==> u[i].key == v[i].key && Same(u[i].value, v[i].value)
  }

  lemma Partner(xs: seq<Entry>, ys: seq<Entry>, i: nat) returns (j: nat)
    requires OneByOne(EntriesInOrder(xs), EntriesInOrder(ys)) && i < |xs|
    ensures j < |ys| && ys[j].key == xs[i].key && Same(xs[i].value, ys[j].value)
  {
    var u, v := EntriesInOrder(xs), EntriesInOrder(ys);
    Text.SameLength(u, xs);
    Text.SameLength(v, ys);
    assert xs[i] in u;
    var k :| 0 <= k < |u| && u[k] == xs[i];
    assert v[k] in ys;
    j :| 0 <= j < |ys| && ys[j] == v[k];
  }

  lemma PartnerBack(xs: seq<Entry>, ys: seq<Entry>, j: nat) returns (i: nat)
    requires OneByOne(EntriesInOrder(xs), EntriesInOrder(ys)) && j < |ys|
    ensures i < |xs| && xs[i].key == ys[j].key
  {
    var u, v := EntriesInOrder(xs), EntriesInOrder(ys);
    Text.SameLength(u, xs);
    Text.SameLength(v, ys);
    assert ys[j] in v;
    var k :| 0 <= k < |v| && v[k] == ys[j];
    assert u[k] in xs;
    i :| 0 <= i < |xs| && xs[i] == u[k];
  }

  /** Two documents with one canonical form are the same document. */
  lemma CanonicalIsInjective(a: Doc, b: Doc)
    requires Proper(a) && Proper(b) && Canon(a) == Canon(b)
    ensures Same(a, b)
  {
    assert Canon(a) + "" == Canon(b) + "";
    Apart(a, b, "", "");
  }

  // ---- Order of fields does not show -------------------------------------------------------

  lemma ByKeyIsWeakOrder()
    ensures Text.WeakOrder(ByKey)
  {
    Text.ByTextIsWeakOrder();
    forall x: Entry, y: Entry | ByKey(x, y) ensures !ByKey(y, x) {
      assert Text.ByText(x.key, y.key);
      assert !Text.ByText(y.key, x.key);
    }
    forall x: Entry, y: Entry, z: Entry | !ByKey(y, x) && !ByKey(z, y) ensures !ByKey(z, x) {
      assert !Text.ByText(y.key, x.key) && !Text.ByText(z.key, y.key);
      assert !Text.ByText(z.key, x.key);
    }
  }

  lemma {:induction false} InsertDistinct(x: Entry, s: seq<Entry>)
    requires DistinctKeys(s) && !Holds(s, x.key)
    ensures DistinctKeys(Text.Insert(ByKey, x, s))
    ensures forall k :: Holds(Text.Insert(ByKey, x, s), k) <==> k == x.key || Holds(s, k)
  {
    if s == [] || !ByKey(s[0], x) {
      assert Text.Insert(ByKey, x, s) == [x] + s;
      HoldsCons(x, s);
    } else {
      HoldsCons(s[0], s[1..]);
      assert [s[0]] + s[1..] == s;
      assert Holds(s, s[0].key);
      assert !Holds(s[1..], s[0].key);
      InsertDistinct(x, s[1..]);
      var t := Text.Insert(ByKey, x, s[1..]);
      HoldsCons(s[0], t);
      assert forall i :: 0 <= i < |t| ==> Holds(t, t[i].key);
    }
  }

  lemma HoldsCons(x: Entry, s: seq<Entry>)
    ensures forall k :: Holds([x] + s, k) <==> k == x.key || Holds(s, k)
  {
    forall k ensures Holds([x] + s, k) <==> k == x.key || Holds(s, k) {
      assert ([x] + s)[0] == x;
      if i :| 0 <= i < |s| && s[i].key == k { assert ([x] + s)[i + 1].key == k; }
    }
  }

  lemma {:induction false} SortDistinct(s: seq<Entry>)
    requires DistinctKeys(s)
    ensures DistinctKeys(EntriesInOrder(s))
    ensures forall k :: Holds(EntriesInOrder(s), k) <==> Holds(s, k)
  {
    if s != [] {
      SortDistinct(s[1..]);
      HoldsCons(s[0], s[1..]);
      assert [s[0]] + s[1..] == s;
      assert !Holds(s[1..], s[0].key);
      InsertDistinct(s[0], EntriesInOrder(s[1..]));
    }
  }

  function Keys(entries: seq<Entry>): (r: seq<string>)
    ensures |r| == |entries|
  {
    seq(|entries|, i requires 0 <= i < |entries| => entries[i].key)
  }

  lemma KeysAscend(entries: seq<Entry>)
    requires DistinctKeys(entries)
    ensures Text.Ascending(Text.ByText, Keys(EntriesInOrder(entries)))
    ensures forall k :: k in Keys(EntriesInOrder(entries)) <==> Holds(entries, k)
  {
    var u := EntriesInOrder(entries);
    ByKeyIsWeakOrder();
    Text.SortSorted(ByKey, entries);
    SortDistinct(entries);
    var ks := Keys(u);
    forall i, j | 0 <= i < j < |ks| ensures Text.ByText(ks[i], ks[j]) {
      assert !ByKey(u[j], u[i]) && u[i].key != u[j].key;
      Text.LessTotal(ks[i], ks[j]);
    }
    forall k ensures k in ks <==> Holds(u, k) {
      if i :| 0 <= i < |u| && u[i].key == k { assert ks[i] == k; }
    }
  }

  /** The sorted fields of the same object meet key by key. */
  lemma SortedTogether(xs: seq<Entry>, ys: seq<Entry>)
    requires DistinctKeys(xs) && DistinctKeys(ys) && Same(DObject(xs), DObject(ys))
    ensures OneByOne(EntriesInOrder(xs), EntriesInOrder(ys))
  {
    var u, v := EntriesInOrder(xs), EntriesInOrder(ys);
    KeysAscend(xs);
    KeysAscend(ys);
    Text.ByTextIsWeakOrder();
    assert forall k :: Holds(xs, k) <==> Holds(ys, k);
    Text.OneAscendingOrder(Text.ByText, Keys(u), Keys(v));
    Text.SameLength(u, xs);
    Text.SameLength(v, ys);
    forall i | 0 <= i < |u| ensures u[i].key == v[i].key && Same(u[i].value, v[i].value) {
      assert Keys(u)[i] == Keys(v)[i];
      assert u[i] in xs && v[i] in ys;
    }
  }

  lemma {:induction false} SameIsCanonical(a: Doc, b: Doc)
    requires Proper(a) && Proper(b) && Same(a, b)
    ensures Canon(a) == Canon(b)
    decreases Levels(a), 0
  {
    match (a, b)
    case (DArray(xs), DArray(ys)) => ItemsSame(xs, ys, true);
    case (DObject(xs), DObject(ys)) =>
      SortedTogether(xs, ys);
      SortedIsProper(xs);
      SortedIsProper(ys);
      SameMost(EntriesInOrder(xs), xs);
      EntriesSame(EntriesInOrder(xs), EntriesInOrder(ys), true);
    case _ =>
  }

  lemma FewerItems(items: seq<Doc>)
    requires items != []
    ensures MostItems(items[1..]) <= MostItems(items)
  {
  }

  lemma FewerEntries(entries: seq<Entry>)
    requires entries != []
    ensures MostEntries(entries[1..]) <= MostEntries(entries)
  {
  }

  lemma {:induction false} ItemsSame(xs: seq<Doc>, ys: seq<Doc>, first: bool)
    requires |xs| == |ys|
    requires forall i :: 0 <= i < |xs| ==> Proper(xs[i]) && Proper(ys[i]) && Same(xs[i], ys[i])
    ensures CanonItems(xs, first) == CanonItems(ys, first)
    decreases MostItems(xs), 1, |xs|
  {
    if xs != [] {
      SameIsCanonical(xs[0], ys[0]);
      FewerItems(xs);
      ItemsSame(xs[1..], ys[1..], false);
    }
  }

  lemma {:induction false} EntriesSame(xs: seq<Entry>, ys: seq<Entry>, first: bool)
    requires forall i :: 0 <= i < |xs| ==> Proper(xs[i].value)
    requires forall i :: 0 <= i < |ys| ==> Proper(ys[i].value)
    requires OneByOne(xs, ys)
    ensures CanonEntries(xs, first) == CanonEntries(ys, first)
    decreases MostEntries(xs), 1, |xs|
  {
    if xs != [] {
      SameIsCanonical(xs[0].value, ys[0].value);
      FewerEntries(xs);
      TailOneByOne(xs, ys);
      EntriesSame(xs[1..], ys[1..], false);
      assert CanonEntry(xs[0]) == CanonEntry(ys[0]);
    }
  }

  lemma TailOneByOne(xs: seq<Entry>, ys: seq<Entry>)
    requires OneByOne(xs, ys) && xs != []
    ensures OneByOne(xs[1..], ys[1..])
  {
  }

  /** Canonical forms are equal exactly for the same document. */
  lemma CanonicalTellsApart(a: Doc, b: Doc)
    requires Proper(a) && Proper(b)
    ensures Canon(a) == Canon(b) <==> Same(a, b)
  {
    if Canon(a) == Canon(b) { CanonicalIsInjective(a, b); }
    if Same(a, b) { SameIsCanonical(a, b); }
  }

  // ---- What a document means ---------------------------------------------------------------

  /** `x` times ten to the `k`. */
  function Shift(x: real, k: int): real
    decreases if k < 0 then -k else k
  {
    if k > 0 then Shift(10.0 * x, k - 1)
    else if k < 0 then Shift(x / 10.0, k + 1)
    else x
  }

  lemma ShiftOne(x: real, k: int)
    ensures Shift(10.0 * x, k) == Shift(x, k + 1)
  {
    assert (10.0 * x) / 10.0 == x;
  }

  function Digits(d: Decimal): nat
    requires Text.AllDigits(d.frac)
  {
    Text.NatOf(Text.NatText(d.whole) + d.frac)
  }

  function Power(exp: Option<int>): int { match exp case None => 0 case Some(e) => e }

  function Signed(neg: bool, digits: nat): real { if neg then -(digits as real) else digits as real }

  /** All the digits as one number, the point put back where it was. */
  function DecimalValue(d: Decimal): real
    requires Text.AllDigits(d.frac)
  {
    Shift(Signed(d.neg, Digits(d)), Power(d.exp) - |d.frac|)
  }

  function NumberValue(num: Number): real
    requires num.Double? ==> Text.AllDigits(num.d.frac)
  {
    match num
    case Whole(n) => n as real
    case Double(d) => DecimalValue(d)
  }

  lemma {:induction false} StripKeepsValue(d: Decimal)
    requires Text.AllDigits(d.frac)
    ensures Text.AllDigits(Strip(d.frac))
    ensures DecimalValue(d.(frac := Strip(d.frac))) == DecimalValue(d)
    decreases |d.frac|
  {
    if d.frac != "" && d.frac[|d.frac| - 1] == '0' {
      var less := d.(frac := d.frac[..|d.frac| - 1]);
      assert d.frac == less.frac + "0";
      DropZero(d, less);
      StripKeepsValue(less);
    }
  }

  lemma DigitsDrop(lead: string, frac: string)
    requires Text.AllDigits(lead) && Text.AllDigits(frac) && frac != "" && frac[|frac| - 1] == '0'
    ensures Text.NatOf(lead + frac) == 10 * Text.NatOf(lead + frac[..|frac| - 1])
  {
    var all := lead + frac;
    assert all[..|all| - 1] == lead + frac[..|frac| - 1];
  }

  lemma DropZero(d: Decimal, less: Decimal)
    requires Text.AllDigits(d.frac) && Text.AllDigits(less.frac)
    requires d == less.(frac := less.frac + "0")
    ensures DecimalValue(less) == DecimalValue(d)
  {
    DigitsDrop(Text.NatText(d.whole), d.frac);
    assert d.frac[..|d.frac| - 1] == less.frac;
    ShiftOne(Signed(less.neg, Digits(less)), Power(d.exp) - |d.frac|);
  }

  /** The canonical text of a number denotes that number. */
  lemma NormalKeepsValue(num: Number)
    requires num.Double? ==> Text.AllDigits(num.d.frac)
    ensures Text.AllDigits(Normal(num).frac) && DecimalValue(Normal(num)) == NumberValue(num)
  {
    match num
    case Whole(n) =>
      var d := Normal(num);
      assert Text.NatText(d.whole) + "" == Text.NatText(d.whole);
      Text.NatTextReads(d.whole);
    case Double(d) =>
      StripKeepsValue(d);
      var stripped := d.(frac := Strip(d.frac));
      if d.neg && !Normal(num).neg {
        assert Text.NatText(0) + "" == Text.NatText(0);
        Text.NatTextReads(0);
      }
  }

  /** The JSON value: objects as maps, numbers by what they denote. */
  function Meaning(doc: Doc): Value
    requires Proper(doc)
    decreases doc, 0
  {
    match doc
    case DNull => Null
    case DBool(b) => Bool(b)
    case DNumber(num) => Float(NumberValue(num))
    case DString(s) => Str(s)
    case DArray(items) => Arr(seq(|items|, i requires 0 <= i < |items| => Meaning(items[i])))
    case DObject(entries) => Obj(Fields(entries))
  }

  function Fields(entries: seq<Entry>): map<string, Value>
    requires forall i :: 0 <= i < |entries| ==> Proper(entries[i].value)
    decreases entries, 1
  {
    if entries == [] then map[]
    else Fields(entries[1..])[entries[0].key := Meaning(entries[0].value)]
  }

  lemma {:induction false} FieldHeld(entries: seq<Entry>, i: nat)
    requires (forall j :: 0 <= j < |entries| ==> Proper(entries[j].value)) && DistinctKeys(entries)
    requires i < |entries|
    ensures entries[i].key in Fields(entries) && Fields(entries)[entries[i].key] == Meaning(entries[i].value)
  {
    if i > 0 {
      assert entries[1..][i - 1] == entries[i];
      FieldHeld(entries[1..], i - 1);
    }
  }

  lemma {:induction false} OnlyFields(entries: seq<Entry>, k: string) returns (i: nat)
    requires (forall j :: 0 <= j < |entries| ==> Proper(entries[j].value)) && k in Fields(entries)
    ensures i < |entries| && entries[i].key == k
  {
    i := 0;
    if entries[0].key != k {
      i := OnlyFields(entries[1..], k);
      i := i + 1;
    }
  }

  lemma {:induction false} SameMeansSame(a: Doc, b: Doc)
    requires Proper(a) && Proper(b) && Same(a, b)
    ensures Meaning(a) == Meaning(b)
    decreases a
  {
    match (a, b)
    case (DNumber(x), DNumber(y)) =>
      NormalKeepsValue(x);
      NormalKeepsValue(y);
    case (DArray(xs), DArray(ys)) =>
      forall i | 0 <= i < |xs| ensures Meaning(xs[i]) == Meaning(ys[i]) { SameMeansSame(xs[i], ys[i]); }
    case (DObject(xs), DObject(ys)) =>
      forall i, j | 0 <= i < |xs| && 0 <= j < |ys| && xs[i].key == ys[j].key
        ensures Meaning(xs[i].value) == Meaning(ys[j].value)
      {
        SameMeansSame(xs[i].value, ys[j].value);
      }
      SameFields(xs, ys);
    case _ =>
  }

  lemma SameFields(xs: seq<Entry>, ys: seq<Entry>)
    requires Proper(DObject(xs)) && Proper(DObject(ys))
    requires forall i :: 0 <= i < |xs| ==> Holds(ys, xs[i].key)
    requires forall j :: 0 <= j < |ys| ==> Holds(xs, ys[j].key)
    requires forall i, j :: 0 <= i < |xs| && 0 <= j < |ys| && xs[i].key == ys[j].key ==>
      Meaning(xs[i].value) == Meaning(ys[j].value)
    ensures Fields(xs) == Fields(ys)
  {
    var m, n := Fields(xs), Fields(ys);
    forall k | k in m ensures k in n && m[k] == n[k] {
      var i := OnlyFields(xs, k);
      assert Holds(ys, xs[i].key);
      var j :| 0 <= j < |ys| && ys[j].key == k;
      FieldHeld(xs, i);
      FieldHeld(ys, j);
    }
    forall k | k in n ensures k in m {
      var j := OnlyFields(ys, k);
      assert Holds(xs, ys[j].key);
      var i :| 0 <= i < |xs| && xs[i].key == k;
      FieldHeld(xs, i);
    }
  }

  /** One canonical form, one JSON value. */
  lemma CanonicalMeansOneValue(a: Doc, b: Doc)
    requires Proper(a) && Proper(b) && Canon(a) == Canon(b)
    ensures Meaning(a) == Meaning(b)
  {
    CanonicalIsInjective(a, b);
    SameMeansSame(a, b);
  }

  // ---- Exactly when a value has one form -----------------------------------------------------

  lemma {:induction false} ShiftInjective(x: real, y: real, k: int)
    requires Shift(x, k) == Shift(y, k)
    ensures x == y
    decreases if k < 0 then -k else k
  {
    if k > 0 { ShiftInjective(10.0 * x, 10.0 * y, k - 1); }
    if k < 0 { ShiftInjective(x / 10.0, y / 10.0, k + 1); }
  }

  lemma LastDigit(lead: string, frac: string)
    requires Text.AllDigits(lead) && Text.AllDigits(frac) && frac != ""
    ensures Text.AllDigits(lead + frac)
    ensures Text.NatOf(lead + frac) == 10 * Text.NatOf(lead + frac[..|frac| - 1]) + Text.DigitOf(frac[|frac| - 1])
  {
    var all := lead + frac;
    assert all[..|all| - 1] == lead + frac[..|frac| - 1];
  }

  lemma OneDigitOff(x: nat, d: nat, y: nat, e: nat)
    requires d < 10 && e < 10 && 10 * x + d == 10 * y + e
    ensures x == y && d == e
  {
  }

  /** Equal digits after equally many places are one number before the point and one after. */
  lemma {:induction false} SameDigits(w: nat, f: string, v: nat, g: string)
    requires Text.AllDigits(f) && Text.AllDigits(g) && |f| == |g|
    requires Text.NatOf(Text.NatText(w) + f) == Text.NatOf(Text.NatText(v) + g)
    ensures w == v && f == g
    decreases |f|
  {
    if f == "" {
      assert Text.NatText(w) + f == Text.NatText(w) && Text.NatText(v) + g == Text.NatText(v);
      Text.NatTextReads(w);
      Text.NatTextReads(v);
    } else {
      var n := |f| - 1;
      LastDigit(Text.NatText(w), f);
      LastDigit(Text.NatText(v), g);
      OneDigitOff(Text.NatOf(Text.NatText(w) + f[..n]), Text.DigitOf(f[n]), Text.NatOf(Text.NatText(v) + g[..n]),
        Text.DigitOf(g[n]));
      SameDigits(w, f[..n], v, g[..n]);
      assert f == f[..n] + [f[n]] && g == g[..n] + [g[n]];
    }
  }

  /** As the canonical form leaves a number: no zero at the end, and no sign on zero. */
  predicate Plain(d: Decimal) {
    && Text.AllDigits(d.frac) && (d.frac != "" ==> d.frac[|d.frac| - 1] != '0')
    && (d.whole == 0 && d.frac == "" ==> !d.neg)
  }

  lemma {:induction false} StripEnds(frac: string)
    ensures Strip(frac) == "" || Strip(frac)[|Strip(frac)| - 1] != '0'
  {
    if frac != "" && frac[|frac| - 1] == '0' { StripEnds(frac[..|frac| - 1]); }
  }

  lemma NormalIsPlain(num: Number)
    requires num.Double? ==> Text.AllDigits(num.d.frac)
    ensures Plain(Normal(num))
  {
    NormalKeepsValue(num);
    if num.Double? { StripEnds(num.d.frac); }
  }

  lemma ZeroIsPlain(d: Decimal)
    requires Plain(d) && Digits(d) == 0
    ensures !d.neg
  {
    if d.frac != "" {
      LastDigit(Text.NatText(d.whole), d.frac);
      assert Text.DigitOf(d.frac[|d.frac| - 1]) != 0;
    } else {
      assert Text.NatText(d.whole) + "" == Text.NatText(d.whole);
      Text.NatTextReads(d.whole);
    }
  }

  lemma SamePlaces(a: Decimal, b: Decimal)
    requires Text.AllDigits(a.frac) && Text.AllDigits(b.frac) && |a.frac| == |b.frac|
    requires Power(a.exp) == Power(b.exp) && DecimalValue(a) == DecimalValue(b)
    ensures a.whole == b.whole && a.frac == b.frac && Digits(a) == Digits(b)
    ensures a.neg == b.neg || Digits(a) == 0
  {
    ShiftInjective(Signed(a.neg, Digits(a)), Signed(b.neg, Digits(b)), Power(a.exp) - |a.frac|);
    assert Digits(a) as real == Digits(b) as real;
    SameDigits(a.whole, a.frac, b.whole, b.frac);
  }

  /** Of two numbers that are one value, the one with more places ends in a zero. */
  lemma {:induction false} FewerPlaces(a: Decimal, b: Decimal)
    requires Text.AllDigits(a.frac) && Text.AllDigits(b.frac) && |a.frac| <= |b.frac|
    requires Power(a.exp) == Power(b.exp) && DecimalValue(a) == DecimalValue(b)
    ensures |a.frac| < |b.frac| ==> b.frac[|b.frac| - 1] == '0'
    decreases |b.frac| - |a.frac|
  {
    if |a.frac| < |b.frac| {
      var more := a.(frac := a.frac + "0");
      DropZero(more, a);
      FewerPlaces(more, b);
      if |more.frac| == |b.frac| { SamePlaces(more, b); }
    }
  }

  lemma PlainIsOne(a: Decimal, b: Decimal)
    requires Plain(a) && Plain(b) && a.exp == b.exp && DecimalValue(a) == DecimalValue(b)
    ensures a == b
  {
    if |a.frac| <= |b.frac| { FewerPlaces(a, b); } else { FewerPlaces(b, a); }
    SamePlaces(a, b);
    if Digits(a) == 0 {
      ZeroIsPlain(a);
      ZeroIsPlain(b);
    }
  }

  /** Numbers of one value have one text exactly if they are written with the same
      power of ten, where whole numbers are written with none. */
  lemma OneTextExactlyIfOneExponent(x: Number, y: Number)
    requires Proper(DNumber(x)) && Proper(DNumber(y)) && NumberValue(x) == NumberValue(y)
    ensures NumberText(x) == NumberText(y) <==> Normal(x).exp == Normal(y).exp
  {
    if Normal(x).exp == Normal(y).exp { NumbersMatch(x, y); }
    if NumberText(x) == NumberText(y) {
      NormalKeepsValue(x);
      NormalKeepsValue(y);
      DecimalTextInjective(Normal(x), Normal(y));
    }
  }

  /** Each number is written with the power of ten that `spelt` gives its value:
      none anywhere, say, or the one the shortest digits of a double call for. */
  ghost predicate SpeltBy(doc: Doc, spelt: real -> Option<int>)
    requires Proper(doc)
  {
    match doc
    case DNumber(num) => Normal(num).exp == spelt(NumberValue(num))
    case DArray(items) => forall i :: 0 <= i < |items| ==> SpeltBy(items[i], spelt)
    case DObject(entries) => forall i :: 0 <= i < |entries| ==> SpeltBy(entries[i].value, spelt)
    case _ => true
  }

  lemma NumbersMatch(x: Number, y: Number)
    requires Proper(DNumber(x)) && Proper(DNumber(y))
    requires NumberValue(x) == NumberValue(y) && Normal(x).exp == Normal(y).exp
    ensures Normal(x) == Normal(y)
  {
    NormalKeepsValue(x);
    NormalKeepsValue(y);
    NormalIsPlain(x);
    NormalIsPlain(y);
    PlainIsOne(Normal(x), Normal(y));
  }

  lemma {:induction false} MeaningIsSame(a: Doc, b: Doc, spelt: real -> Option<int>)
    requires Proper(a) && Proper(b) && SpeltBy(a, spelt) && SpeltBy(b, spelt)
    requires Meaning(a) == Meaning(b)
    ensures Same(a, b)
    decreases a
  {
    match (a, b)
    case (DNumber(x), DNumber(y)) =>
      NumbersMatch(x, y);
    case (DArray(xs), DArray(ys)) =>
      assert |xs| == |Meaning(a).items| == |ys|;
      forall i | 0 <= i < |xs| ensures Same(xs[i], ys[i]) {
        assert Meaning(a).items[i] == Meaning(b).items[i];
        MeaningIsSame(xs[i], ys[i], spelt);
      }
    case (DObject(xs), DObject(ys)) =>
      FieldsMatch(xs, ys);
      FieldsMatch(ys, xs);
      forall i, j | 0 <= i < |xs| && 0 <= j < |ys| && xs[i].key == ys[j].key
        ensures Same(xs[i].value, ys[j].value)
      {
        FieldHeld(xs, i);
        FieldHeld(ys, j);
        MeaningIsSame(xs[i].value, ys[j].value, spelt);
      }
    case _ =>
  }

  lemma FieldsMatch(xs: seq<Entry>, ys: seq<Entry>)
    requires Proper(DObject(xs)) && Proper(DObject(ys)) && Fields(xs) == Fields(ys)
    ensures forall i :: 0 <= i < |xs| ==> Holds(ys, xs[i].key)
  {
    forall i | 0 <= i < |xs| ensures Holds(ys, xs[i].key) {
      FieldHeld(xs, i);
      var j := OnlyFields(ys, xs[i].key);
    }
  }

  /** Canonical forms are equal exactly for equal values, among documents that write
      equal numbers with equal powers of ten. */
  lemma CanonicalIsValue(a: Doc, b: Doc, spelt: real -> Option<int>)
    requires Proper(a) && Proper(b) && SpeltBy(a, spelt) && SpeltBy(b, spelt)
    ensures Canon(a) == Canon(b) <==> Meaning(a) == Meaning(b)
  {
    CanonicalTellsApart(a, b);
    if Meaning(a) == Meaning(b) { MeaningIsSame(a, b, spelt); }
    if Same(a, b) { SameMeansSame(a, b); }
  }

  function TimesTenTo(m: nat, k: nat): nat
    decreases k
  {
    if k == 0 then m else TimesTenTo(10 * m, k - 1)
  }

  lemma {:induction false} ShiftWhole(m: nat, k: nat)
    ensures Shift(m as real, k) == TimesTenTo(m, k) as real
    decreases k
  {
    if k > 0 {
      assert 10.0 * (m as real) == (10 * m) as real;
      ShiftWhole(10 * m, k - 1);
    }
  }

  /** A whole number that is also held as a double written with a power of ten has two forms. */
  lemma ScaledNumbersHaveTwoForms(m: nat, k: nat)
    ensures var n, d := Whole(TimesTenTo(m, k)), Double(Decimal(false, m, "", Some(k)));
            NumberValue(n) == NumberValue(d) && NumberText(n) != NumberText(d)
  {
    var n, d := Whole(TimesTenTo(m, k)), Double(Decimal(false, m, "", Some(k)));
    assert Text.NatText(m) + "" == Text.NatText(m);
    Text.NatTextReads(m);
    ShiftWhole(m, k);
    OneTextExactlyIfOneExponent(n, d);
  }
}
