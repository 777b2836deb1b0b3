/** name-map: how often a name occurs, and under which directories. */
module NameMap {
  import opened Wrappers
  import opened Json
  import opened Bridging
  import opened Corpus
  import opened Digests
  import opened Index
  import opened Looking
  import opened Matching
  import opened Ordered
  import opened Refresh
  import opened Sqlite
  import opened Walk
  import Text
  import Utf8

  // ---- The scopes of a path -----------------------------------------------------------

  function Misshapen(rel: string): string { rel + " has an empty path component" }

  function Nested(prefix: string, part: string): string { if prefix == "" then part else prefix + "/" + part }

  function Onto(done: seq<string>, more: Result<seq<string>, string>): Result<seq<string>, string> {
    match more
    case Ok(scopes) => Ok(done + scopes)
    case Err(why) => Err(why)
  }

  function ScopesUnder(rel: string, prefix: string, parts: seq<string>): Result<seq<string>, string>
    decreases |parts|
  {
    if parts == [] then Ok([])
    else if parts[0] == "" then Err(Misshapen(rel))
    else Onto([Nested(prefix, parts[0])], ScopesUnder(rel, Nested(prefix, parts[0]), parts[1..]))
  }

  /** The whole tree, each directory on the way, and the file. */
  function ScopesOf(rel: string): Result<seq<string>, string> {
    Onto([""], ScopesUnder(rel, "", Text.Split(rel, '/')))
  }

  function Lead(prefix: string): string { if prefix == "" then "" else prefix + "/" }

  lemma OntoTwice(a: seq<string>, b: seq<string>, more: Result<seq<string>, string>)
    ensures Onto(a, Onto(b, more)) == Onto(a + b, more)
  {
    if more.Ok? { Text.Assoc(a, b, more.value); }
  }

  lemma LeadJoins(prefix: string, parts: seq<string>)
    requires parts != [] && parts[0] != ""
    ensures Lead(prefix) + Text.Join(parts, "/") ==
            if |parts| == 1 then Nested(prefix, parts[0])
            else Lead(Nested(prefix, parts[0])) + Text.Join(parts[1..], "/")
    ensures Nested(prefix, parts[0]) == Lead(prefix) + parts[0] != ""
  {
    Text.Assoc(Lead(prefix), parts[0] + "/", Text.Join(parts[1..], "/"));
    Text.Assoc(Lead(prefix), parts[0], "/");
  }

  lemma OneScope(rel: string, prefix: string, parts: seq<string>)
    requires parts != [] && parts[0] != "" && rel == Lead(prefix) + Text.Join(parts, "/")
    ensures var scope, end := Nested(prefix, parts[0]), |Lead(prefix)| + |parts[0]|;
            && end <= |rel| && rel[..end] == scope && |Lead(scope)| == end + 1
            && (|parts| > 1 ==> rel == Lead(scope) + Text.Join(parts[1..], "/"))
  {
    LeadJoins(prefix, parts);
  }

  lemma TailFrom<T>(s: seq<T>, i: nat)
    requires i < |s|
    ensures s[i..] != [] && s[i..][0] == s[i] && s[i..][1..] == s[i + 1..]
  {
  }

  /** Once `out` is taken, the scopes are those and then the ones under `prefix`. */
  ghost predicate ScopesGoOn(rel: string, out: seq<string>, prefix: string, parts: seq<string>) {
    && (parts == [] || rel == Lead(prefix) + Text.Join(parts, "/"))
    && ScopesOf(rel) == Onto(out, ScopesUnder(rel, prefix, parts))
  }

  lemma ScopesBegin(rel: string)
    ensures ScopesGoOn(rel, [""], "", Text.Split(rel, '/'))
  {
    Text.JoinSplit(rel, '/');
  }

  lemma ScopesEnd(rel: string, out: seq<string>, prefix: string, parts: seq<string>)
    requires ScopesGoOn(rel, out, prefix, parts)
    ensures parts == [] ==> ScopesOf(rel) == Ok(out)
    ensures parts != [] && parts[0] == "" ==> ScopesOf(rel) == Err(Misshapen(rel))
  {
    assert out + [] == out;
  }

  lemma ScopeTaken(rel: string, out: seq<string>, prefix: string, parts: seq<string>)
    requires parts != [] && parts[0] != "" && ScopesGoOn(rel, out, prefix, parts)
    ensures var scope, end := Nested(prefix, parts[0]), |Lead(prefix)| + |parts[0]|;
            && end <= |rel| && rel[..end] == scope && |Lead(scope)| == end + 1
            && ScopesGoOn(rel, out + [scope], scope, parts[1..])
  {
    OneScope(rel, prefix, parts);
    OntoTwice(out, [Nested(prefix, parts[0])], ScopesUnder(rel, Nested(prefix, parts[0]), parts[1..]));
  }

  /** The scopes as they are taken: slices of the path, each a component longer. */
  method Scopes(rel: string) returns (r: Result<seq<string>, string>)
    ensures r == ScopesOf(rel)
  {
    var out, end := [""], 0;
    var parts := Text.Split(rel, '/');
    ghost var prefix := "";
    ScopesBegin(rel);
    assert parts[0..] == parts;
    for i := 0 to |parts|
      invariant end == |Lead(prefix)| && ScopesGoOn(rel, out, prefix, parts[i..])
    {
      var part := parts[i];
      TailFrom(parts, i);
      ScopesEnd(rel, out, prefix, parts[i..]);
      if part == "" { return Err(Misshapen(rel)); }
      ScopeTaken(rel, out, prefix, parts[i..]);
      prefix := Nested(prefix, part);
      end := end + |part|;
      out := out + [rel[..end]];
      end := end + 1;
    }
    ScopesEnd(rel, out, prefix, []);
    r := Ok(out);
  }

  /** A front of the path that ends where a component does. */
  predicate Bounds(rel: string, scope: string) {
    |scope| <= |rel| && rel[..|scope|] == scope && (|scope| == |rel| || rel[|scope|] == '/')
  }

  ghost predicate Shapely(parts: seq<string>) {
    forall i :: 0 <= i < |parts| ==> parts[i] != "" && Text.Free(parts[i], '/')
  }

  lemma {:induction false} ScopesUnderBound(rel: string, prefix: string, parts: seq<string>, s: string)
    requires parts != [] && Shapely(parts) && rel == Lead(prefix) + Text.Join(parts, "/")
    ensures ScopesUnder(rel, prefix, parts).Ok?
    ensures s in ScopesUnder(rel, prefix, parts).value <==> |Lead(prefix)| < |s| && Bounds(rel, s)
    decreases |parts|
  {
    var scope := Nested(prefix, parts[0]);
    LeadJoins(prefix, parts);
    WithinPart(rel, prefix, parts, s);
    if |parts| == 1 {
      assert ScopesUnder(rel, scope, parts[1..]) == Ok([]);
    } else {
      ScopesUnderBound(rel, scope, parts[1..], s);
      NextPart(rel, scope, parts[1..], s);
    }
  }

  /** No scope ends inside a component. */
  lemma WithinPart(rel: string, prefix: string, parts: seq<string>, s: string)
    requires parts != [] && Shapely(parts) && rel == Lead(prefix) + Text.Join(parts, "/")
    ensures var scope := Lead(prefix) + parts[0];
            && Bounds(rel, scope)
            && (|Lead(prefix)| < |s| <= |scope| && Bounds(rel, s) ==> s == scope)
  {
    var lead, p := Lead(prefix), parts[0];
    assert rel[..|lead + p|] == lead + p;
    assert forall k :: 0 <= k < |p| ==> rel[|lead| + k] == p[k] && p[k] in p;
  }

  /** Nor just past the separator. */
  lemma NextPart(rel: string, scope: string, parts: seq<string>, s: string)
    requires parts != [] && Shapely(parts) && scope != "" && rel == Lead(scope) + Text.Join(parts, "/")
    ensures |s| == |scope| + 1 ==> !Bounds(rel, s)
  {
    assert rel[|scope| + 1] == Text.Join(parts, "/")[0] == parts[0][0];
    assert parts[0][0] in parts[0] && Text.Free(parts[0], '/');
  }

  /** A path with no empty component has exactly the scopes it lies in: everything, each
      directory above it, and itself. Any other path is refused. */
  lemma ScopesHoldThePath(rel: string, s: string)
    ensures ScopesOf(rel).Ok? <==> Shapely(Text.Split(rel, '/'))
    ensures ScopesOf(rel).Ok? ==> (s in ScopesOf(rel).value <==> s == "" || Bounds(rel, s))
  {
    var parts := Text.Split(rel, '/');
    Text.JoinSplit(rel, '/');
    RefusedExactly(rel, "", parts);
    if Shapely(parts) { ScopesUnderBound(rel, "", parts, s); }
  }

  lemma {:induction false} RefusedExactly(rel: string, prefix: string, parts: seq<string>)
    requires forall i :: 0 <= i < |parts| ==> Text.Free(parts[i], '/')
    ensures ScopesUnder(rel, prefix, parts).Ok? <==> Shapely(parts)
    decreases |parts|
  {
    if parts != [] && parts[0] != "" {
      RefusedExactly(rel, Nested(prefix, parts[0]), parts[1..]);
      assert Shapely(parts) <==> Shapely(parts[1..]) by {
        assert forall i :: 0 < i < |parts| ==> parts[i] == parts[1..][i - 1];
      }
    }
  }

  lemma {:induction false} ScopesLengthen(rel: string, prefix: string, parts: seq<string>)
    requires ScopesUnder(rel, prefix, parts).Ok?
    ensures forall s :: s in ScopesUnder(rel, prefix, parts).value ==> |prefix| < |s|
    ensures Text.Unrepeated(ScopesUnder(rel, prefix, parts).value)
    decreases |parts|
  {
    if parts != [] { ScopesLengthen(rel, Nested(prefix, parts[0]), parts[1..]); }
  }

  lemma ScopesDiffer(rel: string)
    requires ScopesOf(rel).Ok?
    ensures Text.Unrepeated(ScopesOf(rel).value)
  {
    ScopesLengthen(rel, "", Text.Split(rel, '/'));
  }

  // ---- Merging what files hold --------------------------------------------------------

  /** Of one name in one scope: how often it was seen, in which files, and where first. */
  datatype Seen = Seen(count: nat, files: Table<string, ()>, first: Option<(string, nat)>)

  type Sightings = Table<(string, string), Seen>

  const UNSEEN := Seen(0, [], None)

  function Noted(had: Option<Seen>, rel: string, count: nat, line: nat): Seen {
    var s := if had.Some? then had.value else UNSEEN;
    Seen(s.count + count, Put(Text.ByText, s.files, rel, ()), if s.first.None? then Some((rel, line)) else s.first)
  }

  function Note(seen: Sightings, key: (string, string), rel: string, count: nat, line: nat): Sightings {
    Put(ByPair, seen, key, Noted(At(seen, key), rel, count, line))
  }

  function NoteAll(seen: Sightings, name: string, scopes: seq<string>, rel: string, count: nat, line: nat): Sightings
    decreases |scopes|
  {
    if scopes == [] then seen
    else NoteAll(Note(seen, (name, scopes[0]), rel, count, line), name, scopes[1..], rel, count, line)
  }

  function Number(facts: Value, of: string): nat {
    match facts.Get(of)
    case Some(Int(n)) => if 0 <= n < U64 then n else 0
    case _ => 0
  }

  predicate Sighting(f: Fragment) { "name" in f.coord && "file" in f.coord }

  function NoteOne(seen: Sightings, f: Fragment, scopes: seq<string>): Sightings
    requires Sighting(f)
  {
    NoteAll(seen, f.coord["name"], scopes, f.coord["file"], Number(f.facts, "count"), Number(f.facts, "line"))
  }

  function MergeFrom(seen: Sightings, fragments: seq<Fragment>): Result<Sightings, string>
    decreases |fragments|
  {
    if fragments == [] then Ok(seen)
    else if !Sighting(fragments[0]) then MergeFrom(seen, fragments[1..])
    else
      match ScopesOf(fragments[0].coord["file"])
      case Err(why) => Err(why)
      case Ok(scopes) => MergeFrom(NoteOne(seen, fragments[0], scopes), fragments[1..])
  }

  /** The merge as it runs: the scopes of a file are taken once for all its names. */
  method Merged(fragments: seq<Fragment>) returns (r: Result<Sightings, string>)
    ensures r == MergeFrom([], fragments)
  {
    var seen: Sightings := [];
    var walked: Option<(string, seq<string>)> := None;
    for i := 0 to |fragments|
      invariant walked.Some? ==> ScopesOf(walked.value.0) == Ok(walked.value.1)
      invariant MergeFrom([], fragments) == MergeFrom(seen, fragments[i..])
    {
      var f := fragments[i];
      assert fragments[i..][0] == f && fragments[i..][1..] == fragments[i + 1..];
      if Sighting(f) {
        var rel := f.coord["file"];
        if walked.None? || walked.value.0 != rel {
          var taken := Scopes(rel);
          if taken.Err? { return Err(taken.error); }
          walked := Some((rel, taken.value));
        }
        seen := EnterAll(seen, f, walked.value.1);
      }
    }
    r := Ok(seen);
  }

  method EnterAll(seen: Sightings, f: Fragment, scopes: seq<string>) returns (after: Sightings)
    requires Sighting(f)
    ensures after == NoteOne(seen, f, scopes)
  {
    var name, rel, count, line := f.coord["name"], f.coord["file"], Number(f.facts, "count"), Number(f.facts, "line");
    after := seen;
    for j := 0 to |scopes|
      invariant NoteAll(seen, name, scopes, rel, count, line) == NoteAll(after, name, scopes[j..], rel, count, line)
    {
      assert scopes[j..][0] == scopes[j] && scopes[j..][1..] == scopes[j + 1..];
      after := Note(after, (name, scopes[j]), rel, count, line);
    }
  }

  const LISTED: nat := 20

  function Texts(names: seq<string>): seq<Value> { seq(|names|, i requires 0 <= i < |names| => Str(names[i])) }

  function FrontOf(names: seq<string>): seq<string> { if |names| > LISTED then names[..LISTED] else names }

  function FactsOf(s: Seen): Value {
    var files := Keys(s.files);
    Obj(map[
      "occurrences" := Int(s.count),
      "file_count" := Int(|files|),
      "files" := Arr(Texts(FrontOf(files))),
      "first" := match s.first case Some(at) => Str(at.0 + ":" + Text.NatText(at.1)) case None => Null])
  }

  function CandidateOf(e: ((string, string), Seen)): Candidate {
    Candidate(map["name" := e.0.0, "scope" := e.0.1], FactsOf(e.1), e.0.0 + "@" + e.0.1)
  }

  function CandidatesOf(seen: Sightings): seq<Candidate> {
    if seen == [] then [] else [CandidateOf(seen[0])] + CandidatesOf(seen[1..])
  }

  function Rolled(fragments: seq<Fragment>): Result<seq<Candidate>, string> {
    match MergeFrom([], fragments)
    case Ok(seen) => Ok(CandidatesOf(seen))
    case Err(why) => Err(why)
  }

  // ---- What a merge holds, without merging ----------------------------------------------

  /** A fragment of the name, from a file in the scope. */
  predicate SightedAs(f: Fragment, key: (string, string)) {
    && Sighting(f) && f.coord["name"] == key.0
    && ScopesOf(f.coord["file"]).Ok? && key.1 in ScopesOf(f.coord["file"]).value
  }

  function SightingsOf(fragments: seq<Fragment>, key: (string, string)): (r: seq<Fragment>)
    ensures forall i :: 0 <= i < |r| ==> SightedAs(r[i], key)
  {
    if fragments == [] then []
    else (if SightedAs(fragments[0], key) then [fragments[0]] else []) + SightingsOf(fragments[1..], key)
  }

  function NotedFrom(had: Option<Seen>, sightings: seq<Fragment>): Option<Seen>
    requires forall i :: 0 <= i < |sightings| ==> Sighting(sightings[i])
    decreases |sightings|
  {
    if sightings == [] then had
    else
      var f := sightings[0];
      assert Sighting(f);
      NotedFrom(Some(Noted(had, f.coord["file"], Number(f.facts, "count"), Number(f.facts, "line"))), sightings[1..])
  }

  lemma {:induction false} NoteAllAt(seen: Sightings, name: string, scopes: seq<string>, rel: string, count: nat,
                                     line: nat, key: (string, string))
    requires Ascends(ByPair, seen) && Text.Unrepeated(scopes)
    ensures Ascends(ByPair, NoteAll(seen, name, scopes, rel, count, line))
    ensures At(NoteAll(seen, name, scopes, rel, count, line), key) ==
            if key.0 == name && key.1 in scopes then Some(Noted(At(seen, key), rel, count, line)) else At(seen, key)
    decreases |scopes|
  {
    if scopes != [] {
      var at := (name, scopes[0]);
      var v := Noted(At(seen, at), rel, count, line);
      PairOrders();
      PutAscends(ByPair, seen, at, v);
      PutAt(ByPair, seen, at, v, key);
      assert scopes == [scopes[0]] + scopes[1..];
      NoteAllAt(Note(seen, at, rel, count, line), name, scopes[1..], rel, count, line, key);
    }
  }

  lemma {:induction false} MergeAt(seen: Sightings, fragments: seq<Fragment>, key: (string, string))
    requires Ascends(ByPair, seen) && MergeFrom(seen, fragments).Ok?
    ensures Ascends(ByPair, MergeFrom(seen, fragments).value)
    ensures At(MergeFrom(seen, fragments).value, key) == NotedFrom(At(seen, key), SightingsOf(fragments, key))
    decreases |fragments|
  {
    if fragments != [] {
      var f, rest := fragments[0], SightingsOf(fragments[1..], key);
      if Sighting(f) {
        var scopes, rel := ScopesOf(f.coord["file"]).value, f.coord["file"];
        ScopesDiffer(rel);
        NoteAllAt(seen, f.coord["name"], scopes, rel, Number(f.facts, "count"), Number(f.facts, "line"), key);
        MergeAt(NoteOne(seen, f, scopes), fragments[1..], key);
        assert ([f] + rest)[1..] == rest;
      } else {
        MergeAt(seen, fragments[1..], key);
      }
      assert [] + rest == rest;
    }
  }

  function Total(sightings: seq<Fragment>): nat {
    if sightings == [] then 0 else Number(sightings[0].facts, "count") + Total(sightings[1..])
  }

  ghost predicate InFile(sightings: seq<Fragment>, rel: string) {
    exists i :: 0 <= i < |sightings| && Sighting(sightings[i]) && sightings[i].coord["file"] == rel
  }

  /** The counts added up, the files once each and in order, and the first of all. */
  ghost predicate Sums(s: Seen, had: Seen, sightings: seq<Fragment>)
    requires forall i :: 0 <= i < |sightings| ==> Sighting(sightings[i])
  {
    && s.count == had.count + Total(sightings)
    && Ascends(Text.ByText, s.files)
    && (forall rel :: At(s.files, rel).Some? <==> At(had.files, rel).Some? || InFile(sightings, rel))
    && if had.first.Some? || sightings == [] then s.first == had.first
       else Sighting(sightings[0])
            && s.first == Some((sightings[0].coord["file"], Number(sightings[0].facts, "line")))
  }

  lemma {:induction false} NotedSums(had: Option<Seen>, sightings: seq<Fragment>)
    requires forall i :: 0 <= i < |sightings| ==> Sighting(sightings[i])
    requires had.Some? ==> Ascends(Text.ByText, had.value.files)
    ensures NotedFrom(had, sightings) == None <==> had == None && sightings == []
    ensures NotedFrom(had, sightings).Some? ==>
              Sums(NotedFrom(had, sightings).value, if had.Some? then had.value else UNSEEN, sightings)
    decreases |sightings|
  {
    if sightings != [] {
      var f, s := sightings[0], if had.Some? then had.value else UNSEEN;
      assert Sighting(f);
      var rel := f.coord["file"];
      var next := Noted(had, rel, Number(f.facts, "count"), Number(f.facts, "line"));
      TextOrders();
      PutAscends(Text.ByText, s.files, rel, ());
      forall x ensures At(next.files, x).Some? <==> At(s.files, x).Some? || x == rel {
        PutAt(Text.ByText, s.files, rel, (), x);
      }
      NotedSums(Some(next), sightings[1..]);
      forall x ensures InFile(sightings, x) <==> x == rel || InFile(sightings[1..], x) { FirstOrRest(sightings, x); }
    }
  }

  lemma FirstOrRest(sightings: seq<Fragment>, rel: string)
    requires sightings != [] && Sighting(sightings[0])
    ensures InFile(sightings, rel) <==> rel == sightings[0].coord["file"] || InFile(sightings[1..], rel)
  {
    if i :| 0 <= i < |sightings[1..]| && Sighting(sightings[1..][i]) && sightings[1..][i].coord["file"] == rel {
      assert sightings[i + 1] == sightings[1..][i];
    }
    if i :| 0 <= i < |sightings| && Sighting(sightings[i]) && sightings[i].coord["file"] == rel {
      assert i == 0 || sightings[1..][i - 1] == sightings[i];
    }
  }

  /** Merging is refused exactly for a file whose path is misshapen. */
  lemma {:induction false} MergeRefuses(seen: Sightings, fragments: seq<Fragment>)
    ensures MergeFrom(seen, fragments).Ok? <==>
            forall f :: f in fragments && Sighting(f) ==> ScopesOf(f.coord["file"]).Ok?
    decreases |fragments|
  {
    if fragments != [] {
      var f := fragments[0];
      assert fragments == [f] + fragments[1..];
      if !Sighting(f) {
        MergeRefuses(seen, fragments[1..]);
      } else if ScopesOf(f.coord["file"]).Ok? {
        MergeRefuses(NoteOne(seen, f, ScopesOf(f.coord["file"]).value), fragments[1..]);
      }
    }
  }

  /** By name and then by scope. */
  predicate InKeyOrder(a: Candidate, b: Candidate) {
    && "name" in a.coord && "scope" in a.coord && "name" in b.coord && "scope" in b.coord
    && ByPair((a.coord["name"], a.coord["scope"]), (b.coord["name"], b.coord["scope"]))
  }

  function CoordOf(key: (string, string)): Coord { map["name" := key.0, "scope" := key.1] }

  /** The files of some sightings, in order and once each. */
  ghost predicate FilesOf(names: seq<string>, sightings: seq<Fragment>) {
    Text.Ascending(Text.ByText, names) && forall x :: x in names <==> InFile(sightings, x)
  }

  /** What a candidate says of the sightings of a name in a scope. */
  ghost predicate SumsUp(c: Candidate, key: (string, string), sightings: seq<Fragment>) {
    && c.coord == CoordOf(key) && c.id == key.0 + "@" + key.1
    && c.facts.Get("occurrences") == Some(Int(Total(sightings)))
    && sightings != [] && Sighting(sightings[0])
    && c.facts.Get("first")
       == Some(Str(sightings[0].coord["file"] + ":" + Text.NatText(Number(sightings[0].facts, "line"))))
    && exists names :: FilesOf(names, sightings) && c.facts.Get("file_count") == Some(Int(|names|))
                       && c.facts.Get("files") == Some(Arr(Texts(FrontOf(names))))
  }

  lemma SumsTell(key: (string, string), s: Seen, sightings: seq<Fragment>)
    requires (forall i :: 0 <= i < |sightings| ==> Sighting(sightings[i])) && sightings != []
    requires Sums(s, UNSEEN, sightings)
    ensures SumsUp(CandidateOf((key, s)), key, sightings)
  {
    FilesAreKeys(s, sightings);
    FactsAre(s);
    assert s.first == Some((sightings[0].coord["file"], Number(sightings[0].facts, "line")));
    assert FilesOf(Keys(s.files), sightings);
  }

  lemma FilesAreKeys(s: Seen, sightings: seq<Fragment>)
    requires (forall i :: 0 <= i < |sightings| ==> Sighting(sightings[i])) && Sums(s, UNSEEN, sightings)
    ensures FilesOf(Keys(s.files), sightings)
  {
    forall x ensures x in Keys(s.files) <==> InFile(sightings, x) { KeysFound(s.files, x); }
  }

  lemma FactsAre(s: Seen)
    ensures FactsOf(s).Get("occurrences") == Some(Int(s.count))
    ensures FactsOf(s).Get("file_count") == Some(Int(|Keys(s.files)|))
    ensures FactsOf(s).Get("files") == Some(Arr(Texts(FrontOf(Keys(s.files)))))
    ensures s.first.Some? ==>
              FactsOf(s).Get("first") == Some(Str(s.first.value.0 + ":" + Text.NatText(s.first.value.1)))
  {
  }

  lemma {:induction false} CandidatesAre(seen: Sightings)
    ensures |CandidatesOf(seen)| == |seen|
    ensures forall i :: 0 <= i < |seen| ==> CandidatesOf(seen)[i] == CandidateOf(seen[i])
  {
    if seen != [] { CandidatesAre(seen[1..]); }
  }

  /** A candidate is of the entry for its key. */
  lemma CandidateAt(seen: Sightings, key: (string, string), c: Candidate)
    requires Ascends(ByPair, seen)
    ensures c in CandidatesOf(seen) && c.coord == CoordOf(key) <==>
            At(seen, key).Some? && c == CandidateOf((key, At(seen, key).value))
  {
    CandidatesAre(seen);
    PairOrders();
    if c in CandidatesOf(seen) && c.coord == CoordOf(key) {
      var i :| 0 <= i < |seen| && CandidatesOf(seen)[i] == c;
      assert CandidateOf(seen[i]).coord["name"] == key.0 && CandidateOf(seen[i]).coord["scope"] == key.1;
      AtHolds(ByPair, seen, key, seen[i].1);
    }
    if At(seen, key).Some? {
      AtHolds(ByPair, seen, key, At(seen, key).value);
      var i :| 0 <= i < |seen| && seen[i] == (key, At(seen, key).value);
      assert CandidatesOf(seen)[i] == CandidateOf(seen[i]);
    }
  }

  /** What is rolled up: in order, each name in each scope some file of its lies in, with
      its counts added up, those files listed, and the first place it was seen. */
  lemma RolledIsGrouped(fragments: seq<Fragment>, key: (string, string))
    requires Rolled(fragments).Ok?
    ensures var out, sightings := Rolled(fragments).value, SightingsOf(fragments, key);
            && Text.Ascending(InKeyOrder, out)
            && (forall c :: c in out && c.coord == CoordOf(key) ==> SumsUp(c, key, sightings))
            && (sightings != [] ==> exists c :: c in out && c.coord == CoordOf(key))
  {
    var seen, sightings := MergeFrom([], fragments).value, SightingsOf(fragments, key);
    MergeAt([], fragments, key);
    NotedSums(None, sightings);
    CandidatesAre(seen);
    forall i, j | 0 <= i < j < |seen| ensures InKeyOrder(CandidatesOf(seen)[i], CandidatesOf(seen)[j]) {
      assert ByPair(seen[i].0, seen[j].0);
    }
    forall c | c in CandidatesOf(seen) && c.coord == CoordOf(key) ensures SumsUp(c, key, sightings) {
      CandidateAt(seen, key, c);
      SumsTell(key, At(seen, key).value, sightings);
    }
    if sightings != [] { CandidateAt(seen, key, CandidateOf((key, At(seen, key).value))); }
  }

  /** Nothing else is rolled up. */
  lemma RolledIsOfKeys(fragments: seq<Fragment>, c: Candidate)
    requires Rolled(fragments).Ok? && c in Rolled(fragments).value
    ensures exists key :: c.coord == CoordOf(key)
  {
    var seen := MergeFrom([], fragments).value;
    CandidatesAre(seen);
    var i :| 0 <= i < |seen| && CandidatesOf(seen)[i] == c;
    assert c.coord == CoordOf(seen[i].0);
  }

  // ---- What is read of a file -------------------------------------------------------------

  function Pieces(line: string, inWord: char -> bool): (r: seq<string>)
    ensures r != []
  {
    if line == "" then [""]
    else
      var r := Pieces(line[1..], inWord);
      if inWord(line[0]) then [[line[0]] + r[0]] + r[1..] else [""] + r
  }

  function Idents(pieces: seq<string>): seq<string> {
    if pieces == [] then []
    else (if pieces[0] != "" && !Text.IsDigit(pieces[0][0]) then [pieces[0]] else []) + Idents(pieces[1..])
  }

  /** `str::lines`: a line ends at a newline, and at a return before it. */
  function Lines(pieces: seq<string>): seq<string> {
    if pieces == [] then []
    else if |pieces| == 1 then if pieces[0] == "" then [] else pieces
    else
      var n := |pieces[0]|;
      [if n > 0 && pieces[0][n - 1] == '\r' then pieces[0][..n - 1] else pieces[0]] + Lines(pieces[1..])
  }

  function LinesOf(src: string): seq<string> { Lines(Text.Split(src, '\n')) }

  /** Each use of a name, with its line, in the order they are read. */
  type Uses = seq<(string, nat)>

  function UsesIn(words: seq<string>, line: nat): Uses {
    if words == [] then [] else [(words[0], line)] + UsesIn(words[1..], line)
  }

  function UsesFrom(lines: seq<string>, line: nat, inWord: char -> bool): Uses
    decreases |lines|
  {
    if lines == [] then []
    else UsesIn(Idents(Pieces(lines[0], inWord)), line) + UsesFrom(lines[1..], line + 1, inWord)
  }

  /** How often each name is used, and the line of its first use. */
  type Names = Table<string, (nat, nat)>

  function WithUse(here: Names, use: (string, nat)): Names {
    var (count, line) := if At(here, use.0).Some? then At(here, use.0).value else (0, use.1);
    Put(Text.ByText, here, use.0, (count + 1, line))
  }

  function WithUses(here: Names, uses: Uses): Names
    decreases |uses|
  {
    if uses == [] then here else WithUses(WithUse(here, uses[0]), uses[1..])
  }

  function NameFragment(rel: string, name: string, count: nat, line: nat): Fragment {
    Fragment(map["name" := name, "file" := rel], Obj(map["count" := Int(count), "line" := Int(line)]), rel + "#" + name)
  }

  function FragmentsIn(rel: string, here: Names): seq<Fragment> {
    if here == [] then []
    else
      [NameFragment(rel, here[0].0, here[0].1.0, here[0].1.1)] + FragmentsIn(rel, here[1..])
  }

  /** Of a file that is text, the names it holds; of any other, nothing. */
  function Collected(rel: string, src: Option<string>, inWord: char -> bool): seq<Fragment> {
    match src
    case None => []
    case Some(text) => FragmentsIn(rel, WithUses([], UsesFrom(LinesOf(text), 1, inWord)))
  }

  method Collect(rel: string, src: Option<string>, inWord: char -> bool) returns (out: seq<Fragment>)
    ensures out == Collected(rel, src, inWord)
  {
    if src.None? { return []; }
    var lines := LinesOf(src.value);
    var here: Names := [];
    for i := 0 to |lines|
      invariant WithUses([], UsesFrom(lines, 1, inWord)) == WithUses(here, UsesFrom(lines[i..], i + 1, inWord))
    {
      var words := Idents(Pieces(lines[i], inWord));
      assert lines[i..][0] == lines[i] && lines[i..][1..] == lines[i + 1..];
      CountedSplits(here, UsesIn(words, i + 1), UsesFrom(lines[i + 1..], i + 2, inWord));
      here := CountLine(here, words, i + 1);
    }
    assert lines[|lines|..] == [];
    out := FragmentsIn(rel, here);
  }

  method CountLine(had: Names, words: seq<string>, line: nat) returns (here: Names)
    ensures here == WithUses(had, UsesIn(words, line))
  {
    here := had;
    for j := 0 to |words|
      invariant WithUses(had, UsesIn(words, line)) == WithUses(here, UsesIn(words[j..], line))
    {
      assert words[j..][0] == words[j] && words[j..][1..] == words[j + 1..];
      OneUse(here, words[j], line, UsesIn(words[j + 1..], line));
      here := WithUse(here, (words[j], line));
    }
  }

  lemma OneUse(here: Names, word: string, line: nat, rest: Uses)
    ensures WithUses(here, [(word, line)] + rest) == WithUses(WithUse(here, (word, line)), rest)
  {
    assert ([(word, line)] + rest)[1..] == rest;
  }

  lemma {:induction false} CountedSplits(here: Names, a: Uses, b: Uses)
    ensures WithUses(here, a + b) == WithUses(WithUses(here, a), b)
    decreases |a|
  {
    if a == [] {
      assert a + b == b;
    } else {
      assert (a + b)[1..] == a[1..] + b;
      CountedSplits(WithUse(here, a[0]), a[1..], b);
    }
  }

  /** The lines a name is used on, once for each use. */
  function LinesUsing(uses: Uses, name: string): seq<nat> {
    if uses == [] then [] else (if uses[0].0 == name then [uses[0].1] else []) + LinesUsing(uses[1..], name)
  }

  /** In order, each name used, with how many uses it has and the line of the first. */
  lemma {:induction false} CountedIs(here: Names, uses: Uses, name: string)
    requires Ascends(Text.ByText, here)
    ensures Ascends(Text.ByText, WithUses(here, uses))
    ensures At(WithUses(here, uses), name) ==
            var lines := LinesUsing(uses, name);
            if lines == [] then At(here, name)
            else if At(here, name).None? then Some((|lines|, lines[0]))
            else Some((At(here, name).value.0 + |lines|, At(here, name).value.1))
    decreases |uses|
  {
    if uses != [] {
      var rest := LinesUsing(uses[1..], name);
      CountedOne(here, uses[0], name);
      CountedIs(WithUse(here, uses[0]), uses[1..], name);
      assert |[uses[0].1] + rest| == 1 + |rest| && ([uses[0].1] + rest)[0] == uses[0].1 && [] + rest == rest;
    }
  }

  lemma CountedOne(here: Names, use: (string, nat), name: string)
    requires Ascends(Text.ByText, here)
    ensures Ascends(Text.ByText, WithUse(here, use))
    ensures At(WithUse(here, use), name) ==
            if name != use.0 then At(here, name)
            else if At(here, name).None? then Some((1, use.1))
            else Some((At(here, name).value.0 + 1, At(here, name).value.1))
  {
    var (count, line) := if At(here, use.0).Some? then At(here, use.0).value else (0, use.1);
    TextOrders();
    PutAscends(Text.ByText, here, use.0, (count + 1, line));
    PutAt(Text.ByText, here, use.0, (count + 1, line), name);
  }

  // ---- The recipe, and that it may be narrowed ------------------------------------------------

  predicate Every(rel: string) { true }

  /** `inWord` says which characters names are made of. */
  function RecipeOf(version: string, inWord: char -> bool): Recipe {
    Recipe("name-map", version, ["name", "scope"], ["name"], ["name"], Every,
           (rel: string, bytes: Bytes) => Ok(Collected(rel, Utf8.Strict(bytes), inWord)), Fold(Rolled))
  }

  /** The names asked for. */
  function Asking(want: Want): ((string, string)) -> bool { (key: (string, string)) => ("name", key.0) in want }

  lemma TouchIsName(recipe: Recipe, want: Want, f: Fragment, key: (string, string))
    requires recipe.narrowsOn == ["name"] && SightedAs(f, key)
    ensures Touches(f.coord, Narrowable(recipe, want)) <==> Asking(want)(key)
  {
    var narrowed, pair := Narrowable(recipe, want), ("name", key.0);
    NarrowableHolds(recipe, want, pair);
    if i :| 0 <= i < |narrowed| && Hits(f.coord, narrowed[i]) {
      NarrowableHolds(recipe, want, narrowed[i]);
      assert narrowed[i] == pair;
    }
    if pair in want { HitIsTouch(f.coord, narrowed, pair); }
  }

  lemma {:induction false} TouchedSightings(recipe: Recipe, want: Want, fragments: seq<Fragment>, key: (string, string))
    requires recipe.narrowsOn == ["name"]
    ensures SightingsOf(Touched(fragments, Narrowable(recipe, want)), key) ==
            if Asking(want)(key) then SightingsOf(fragments, key) else []
  {
    if fragments != [] {
      var f, rest := fragments[0], Touched(fragments[1..], Narrowable(recipe, want));
      TouchedSightings(recipe, want, fragments[1..], key);
      if SightedAs(f, key) { TouchIsName(recipe, want, f, key); }
      assert ([f] + rest)[1..] == rest && [] + rest == rest;
      assert [] + SightingsOf(rest, key) == SightingsOf(rest, key);
    }
  }

  lemma {:induction false} TouchedAmong(fragments: seq<Fragment>, want: Want)
    ensures forall f :: f in Touched(fragments, want) ==> f in fragments
  {
    if fragments != [] { TouchedAmong(fragments[1..], want); }
  }

  /** Merging the fragments of the names asked for is merging all, the other names left out. */
  lemma TouchedMerge(recipe: Recipe, want: Want, all: seq<Fragment>)
    requires recipe.narrowsOn == ["name"] && MergeFrom([], all).Ok?
    ensures MergeFrom([], Touched(all, Narrowable(recipe, want))) == Ok(Only(MergeFrom([], all).value, Asking(want)))
  {
    var some, whole := Touched(all, Narrowable(recipe, want)), MergeFrom([], all).value;
    TouchedAmong(all, Narrowable(recipe, want));
    MergeRefuses([], all);
    MergeRefuses([], some);
    var part := MergeFrom([], some).value;
    forall key ensures At(part, key) == At(Only(whole, Asking(want)), key) {
      MergeAt([], some, key);
      MergeAt([], all, key);
      TouchedSightings(recipe, want, all, key);
      OnlyAt(whole, Asking(want), key);
    }
    MergeAt([], some, ("", ""));
    MergeAt([], all, ("", ""));
    OnlyAscends(ByPair, whole, Asking(want));
    PairOrders();
    OneTable(ByPair, part, Only(whole, Asking(want)));
  }

  lemma NamedIsAsked(e: ((string, string), Seen), want: Want)
    requires exists i :: 0 <= i < |want| && want[i].0 == "name"
    ensures IsEligible(CandidateOf(e), want, ["name"]) <==> Asking(want)(e.0)
  {
    var c := CandidateOf(e);
    EligibleMayBeNamed(c, want, ["name"]);
    var k :| 0 <= k < |want| && want[k].0 == "name";
    assert want[k].0 in ["name"];
    if i :| 0 <= i < |want| && want[i].0 in ["name"] && Hits(c.coord, want[i]) { assert want[i] == ("name", e.0.0); }
    if i :| 0 <= i < |want| && want[i] == ("name", e.0.0) { assert want[i].0 in ["name"] && Hits(c.coord, want[i]); }
  }

  /** The candidates that may be named are those of the names asked for. */
  lemma {:induction false} EligibleIsAsked(seen: Sightings, want: Want)
    requires exists i :: 0 <= i < |want| && want[i].0 == "name"
    ensures Eligible(CandidatesOf(seen), want, ["name"]) == CandidatesOf(Only(seen, Asking(want)))
  {
    if seen != [] {
      var rest := Only(seen[1..], Asking(want));
      EligibleIsAsked(seen[1..], want);
      NamedIsAsked(seen[0], want);
      EligibleCons(CandidateOf(seen[0]), CandidatesOf(seen[1..]), want, ["name"]);
      assert ([seen[0]] + rest)[1..] == rest && [] + rest == rest;
    }
  }

  lemma {:induction false} OnlyTwice(seen: Sightings, want: Want)
    ensures Only(Only(seen, Asking(want)), Asking(want)) == Only(seen, Asking(want))
  {
    if seen != [] {
      var rest := Only(seen[1..], Asking(want));
      OnlyTwice(seen[1..], want);
      assert ([seen[0]] + rest)[1..] == rest && [] + rest == rest;
    }
  }

  /** Where no path is misshapen, folding the fragments asked for gives the candidates
      that may be named of folding all, in the same order. */
  lemma FoldNarrows(recipe: Recipe, want: Want, all: seq<Fragment>)
    requires recipe.narrowsOn == ["name"] && Narrowable(recipe, want) != [] && MergeFrom([], all).Ok?
    ensures Rolled(all).Ok? && Rolled(Touched(all, Narrowable(recipe, want))).Ok?
    ensures Eligible(Rolled(Touched(all, Narrowable(recipe, want))).value, want, ["name"])
            == Eligible(Rolled(all).value, want, ["name"])
  {
    var narrowed, whole := Narrowable(recipe, want), MergeFrom([], all).value;
    assert narrowed[0] in narrowed;
    NarrowableHolds(recipe, want, narrowed[0]);
    TouchedMerge(recipe, want, all);
    EligibleIsAsked(whole, want);
    EligibleIsAsked(Only(whole, Asking(want)), want);
    OnlyTwice(whole, want);
  }

  /** Every file a fragment names has scopes. */
  ghost predicate Placeable(fragments: seq<Fragment>) {
    forall f :: f in fragments && Sighting(f) ==> ScopesOf(f.coord["file"]).Ok?
  }

  lemma FoldIsSafe(recipe: Recipe, want: Want, all: seq<Fragment>)
    requires recipe.narrowsOn == ["name"] && recipe.identity == ["name"] && recipe.merge == Fold(Rolled)
    requires Placeable(all)
    ensures SafeOn(recipe, want, all)
  {
    MergeRefuses([], all);
    var some := Asked(recipe, want, all);
    if Narrowable(recipe, want) != [] { FoldNarrows(recipe, want, all); }
    SameEligibleAgrees(recipe, want, Rolled(some).value, Rolled(all).value);
  }

  // ---- On the corpus of a tree ------------------------------------------------------------------

  lemma {:induction false} FragmentsInFile(rel: string, here: Names)
    ensures forall f :: f in FragmentsIn(rel, here) ==> Sighting(f) && f.coord["file"] == rel
  {
    if here != [] { FragmentsInFile(rel, here[1..]); }
  }

  lemma FoundHasScopes(tree: seq<Entry>, f: Found)
    requires Proper(tree) && f in Files(tree, "")
    ensures ScopesOf(f.rel).Ok?
  {
    var names := FoundLies(tree, "", f);
    LyingIsPlain(tree, names, f.stored);
    assert "" + Text.Join(names, "/") == Text.Join(names, "/");
    forall p | p in names ensures Text.Free(p, '/') { assert Plain(p); }
    Text.SplitJoin(names, '/');
    forall i | 0 <= i < |names| ensures names[i] != "" && Text.Free(names[i], '/') {
      assert names[i] in names && Plain(names[i]);
    }
    ScopesHoldThePath(f.rel, "");
  }

  ghost predicate IsNameMap(m: Means) {
    exists version, inWord :: m.recipe == RecipeOf(version, inWord)
  }

  lemma {:induction false} CorpusIsPlaceable(m: Means, found: seq<Found>, root: string)
    requires IsNameMap(m) && forall f :: f in found ==> ScopesOf(f.rel).Ok?
    ensures Placeable(CorpusFrom(m, found, root))
  {
    if found != [] {
      var f := found[0];
      assert f in found;
      CorpusIsPlaceable(m, found[1..], root);
      var version, inWord :| m.recipe == RecipeOf(version, inWord);
      if Yields(m, f) && Utf8.Strict(f.stored.content.value).Some? {
        var text := Utf8.Strict(f.stored.content.value).value;
        FragmentsInFile(f.rel, WithUses([], UsesFrom(LinesOf(text), 1, inWord)));
      }
    }
  }

  /** However a position narrows it, name-map answers from a tree as it would from the
      whole of it. */
  lemma NarrowedNameMapIsWhole(m: Means, tree: seq<Entry>, root: string, want: Want)
    requires IsNameMap(m) && Proper(tree)
    ensures SafeOn(m.recipe, want, CorpusOf(m, tree, root))
  {
    forall f | f in Files(tree, "") ensures ScopesOf(f.rel).Ok? { FoundHasScopes(tree, f); }
    CorpusIsPlaceable(m, Files(tree, ""), root);
    FoldIsSafe(m.recipe, want, CorpusOf(m, tree, root));
  }

  // ---- Exactly what it misses ----------------------------------------------------------------------

  predicate HoldsName(inWord: char -> bool, text: string) { UsesFrom(LinesOf(text), 1, inWord) != [] }

  /** Something is collected of exactly the texts that hold a name. */
  lemma CollectedIfNamed(rel: string, src: Option<string>, inWord: char -> bool)
    ensures Collected(rel, src, inWord) != [] <==> src.Some? && HoldsName(inWord, src.value)
  {
    if src.Some? && HoldsName(inWord, src.value) {
      var uses := UsesFrom(LinesOf(src.value), 1, inWord);
      CountedIs([], uses, uses[0].0);
      assert LinesUsing(uses, uses[0].0) != [];
    }
  }

  /** name-map with the digest there is. */
  ghost predicate IsShipped(m: Means, inWord: char -> bool, hash: string -> string) {
    exists version :: m.recipe == RecipeOf(version, inWord) && m.digest == LossyDigest(hash)
  }

  /** Bytes that are no text and a text that holds a name, read with loss as one text. */
  predicate Blurred(inWord: char -> bool, x: Bytes, y: Bytes) {
    && Utf8.Lossy(x) == Utf8.Lossy(y) && Utf8.Strict(x).None? && Utf8.Strict(y).Some?
    && HoldsName(inWord, Utf8.Lossy(y))
  }

  lemma ReadByText(m: Means, inWord: char -> bool, hash: string -> string, rel: string, x: Bytes, y: Bytes)
    requires IsShipped(m, inWord, hash)
    ensures Utf8.Lossy(x) == Utf8.Lossy(y) ==>
              (ReadAlike(m, rel, x, y) <==> !Blurred(inWord, x, y) && !Blurred(inWord, y, x))
    ensures m.digest(x) == hash(Utf8.Lossy(x)) && m.digest(y) == hash(Utf8.Lossy(y))
  {
    Utf8.TextIsKept(x);
    Utf8.TextIsKept(y);
    CollectedIfNamed(rel, Utf8.Strict(x), inWord);
    CollectedIfNamed(rel, Utf8.Strict(y), inWord);
  }

  /** No path has been, at one time, bytes that are no text and, at another, a text that
      holds a name, of one lossy reading. */
  ghost predicate NeverBlurred(inWord: char -> bool, history: seq<seq<Entry>>) {
    forall rel, x, y :: Lain(history, rel, x) && Lain(history, rel, y) ==> !Blurred(inWord, x, y)
  }

  /** With a hash that tells texts apart, digests tell what name-map is to read exactly if
      no path was ever blurred. */
  lemma NameMapIsToldExactly(m: Means, inWord: char -> bool, hash: string -> string, history: seq<seq<Entry>>)
    requires IsShipped(m, inWord, hash) && forall s, t :: hash(s) == hash(t) ==> s == t
    ensures DigestsTell(m, history) <==> NeverBlurred(inWord, history)
  {
    forall rel, x, y | Lain(history, rel, x) && Lain(history, rel, y)
      ensures ReadAlike(m, rel, x, y) <==>
        !(Utf8.Lossy(x) == Utf8.Lossy(y) && (Blurred(inWord, x, y) || Blurred(inWord, y, x)))
    {
      ReadByText(m, inWord, hash, rel, x, y);
    }
    if DigestsTell(m, history) {
      forall rel, x, y | Lain(history, rel, x) && Lain(history, rel, y) ensures !Blurred(inWord, x, y) {
        assert ReadAlike(m, rel, x, y);
      }
    }
  }

  /** Whatever the hash, an edit that makes a blurred file whole is missed: the refresh
      comes through holding no name of a file that has some. */
  lemma WholeAgainIsMissed(m: Means, inWord: char -> bool, hash: string -> string, names: seq<string>,
                           x: Bytes, y: Bytes, p: Stamp, q: Stamp)
    requires IsShipped(m, inWord, hash) && Walkable(names) && Blurred(inWord, x, y) && p != q
    ensures var (before, after) := (TreeOf(names, Stored(Some(x), Some(p))), TreeOf(names, Stored(Some(y), Some(q))));
            var w, of := Live(m, Edited(before, after)), GenerationOf(m.recipe);
            var key, (r, t) := Key(of, Text.Join(names, "/")),
                               Walked(m.(spent := Patient), w.shelf, of, after, NoFault);
            && StampsTell(w.history) && w.history[|w.history| - 1] == after
            && r.Ok? && key in t.files && t.files[key].rows == map[] && !Mirrors(m, t, of, after)
            && CorpusOf(m, after, "") != []
  {
    var rel := Text.Join(names, "/");
    var f, g := Found(rel, Stored(Some(x), Some(p))), Found(rel, Stored(Some(y), Some(q)));
    ReadByText(m, inWord, hash, rel, x, y);
    EditIsMissed(m, names, x, y, p, q);
    EditedLives(m, TreeOf(names, f.stored), TreeOf(names, g.stored));
    CollectedIfNamed(rel, Utf8.Strict(x), inWord);
    CollectedIfNamed(rel, Utf8.Strict(y), inWord);
    Utf8.TextIsKept(y);
    TreeIsLone(names, y, q);
    LoneCorpus(m, TreeOf(names, g.stored), g);
  }

  lemma LoneCorpus(m: Means, tree: seq<Entry>, f: Found)
    requires LoneFile(tree, f) && Yields(m, f)
    ensures CorpusOf(m, tree, "") == m.recipe.collect(f.rel, f.stored.content.value).value
  {
    assert [f][1..] == [];
    assert CorpusFrom(m, [f], "")
      == m.recipe.collect(f.rel, f.stored.content.value).value + CorpusFrom(m, [f][1..], "");
  }

  /** A text with a stray byte at its end, and what it is read as: no text and a text,
      blurred if the text holds a name. */
  lemma StrayByteBlurs(inWord: char -> bool, s: string)
    requires HoldsName(inWord, s + [Utf8.REPLACEMENT])
    ensures Blurred(inWord, Utf8.Encoded(s) + [0xFF], Utf8.Encoded(s + [Utf8.REPLACEMENT]))
  {
    Utf8.StrayIsReplaced(s);
    Utf8.WrittenIsRead(s + [Utf8.REPLACEMENT]);
    Utf8.TextIsKept(Utf8.Encoded(s + [Utf8.REPLACEMENT]));
  }

  /** So name-map does not keep up with every edit, whatever the hash. */
  lemma NameMapFallsBehind(m: Means, inWord: char -> bool, hash: string -> string, c: char)
    requires IsShipped(m, inWord, hash) && inWord(c) && !Text.IsDigit(c) && c != '\n'
    ensures !AlwaysKeepsUp(m)
  {
    OneWord(inWord, c);
    StrayByteBlurs(inWord, [c]);
    OneLetterWalks();
    BlurredIsMissed(m, inWord, hash, ["a"], Utf8.Encoded([c]) + [0xFF], Utf8.Encoded([c] + [Utf8.REPLACEMENT]));
  }

  lemma OneLetterWalks()
    ensures Walkable(["a"])
  {
    assert Plain("a") && !Skipped("a");
  }

  lemma BlurredIsMissed(m: Means, inWord: char -> bool, hash: string -> string, names: seq<string>, x: Bytes, y: Bytes)
    requires IsShipped(m, inWord, hash) && Walkable(names) && Blurred(inWord, x, y)
    ensures !AlwaysKeepsUp(m)
  {
    ReadByText(m, inWord, hash, Text.Join(names, "/"), x, y);
    KeepsUpExactlyIfReadAlike(m);
  }

  lemma OneWord(inWord: char -> bool, c: char)
    requires inWord(c) && !Text.IsDigit(c) && c != '\n'
    ensures HoldsName(inWord, [c] + [Utf8.REPLACEMENT])
  {
    var text := [c] + [Utf8.REPLACEMENT];
    Text.SplitOne(text, '\n');
    assert LinesOf(text) == [text];
    var pieces := Pieces(text, inWord);
    assert pieces == [[c] + Pieces(text[1..], inWord)[0]] + Pieces(text[1..], inWord)[1..];
    assert pieces[0] != "" && pieces[0][0] == c;
    assert Idents(pieces) == [pieces[0]] + Idents(pieces[1..]);
  }

  // ---- What it counts --------------------------------------------------------------------------------

  /** How often a name is used in a text. */
  function UsesOf(src: Option<string>, inWord: char -> bool, name: string): nat {
    match src
    case None => 0
    case Some(text) => |LinesUsing(UsesFrom(LinesOf(text), 1, inWord), name)|
  }

  /** How often a name is used in the readable files under a root that lie in a scope. */
  function UsesUnder(inWord: char -> bool, found: seq<Found>, root: string,
                     key: (string, string)): nat
  {
    if found == [] then 0
    else
      var f := found[0];
      (if f.stored.content.Some? && Under(f.rel, root) && (key.1 == "" || Bounds(f.rel, key.1))
       then UsesOf(Utf8.Strict(f.stored.content.value), inWord, key.0) else 0)
      + UsesUnder(inWord, found[1..], root, key)
  }

  lemma {:induction false} SightingsSplit(a: seq<Fragment>, b: seq<Fragment>, key: (string, string))
    ensures SightingsOf(a + b, key) == SightingsOf(a, key) + SightingsOf(b, key)
  {
    if a == [] {
      assert a + b == b;
    } else {
      assert (a + b)[1..] == a[1..] + b;
      SightingsSplit(a[1..], b, key);
    }
  }

  lemma {:induction false} TotalSplits(a: seq<Fragment>, b: seq<Fragment>)
    ensures Total(a + b) == Total(a) + Total(b)
  {
    if a == [] {
      assert a + b == b;
    } else {
      assert (a + b)[1..] == a[1..] + b;
      TotalSplits(a[1..], b);
    }
  }

  /** A file has at most one fragment of a name, and it holds the name's count. */
  lemma {:induction false} OneFragment(rel: string, here: Names, key: (string, string))
    requires Ascends(Text.ByText, here) && ScopesOf(rel).Ok?
    requires forall i :: 0 <= i < |here| ==> here[i].1.0 < U64
    ensures Total(SightingsOf(FragmentsIn(rel, here), key)) ==
            if key.1 in ScopesOf(rel).value && At(here, key.0).Some? then At(here, key.0).value.0 else 0
  {
    if here != [] {
      var (name, (count, line)) := here[0];
      AscendsTail(Text.ByText, here);
      OneFragment(rel, here[1..], key);
      FirstCounts(NameFragment(rel, name, count, line), FragmentsIn(rel, here[1..]), key);
      assert here[0].1.0 < U64;
      NameIsSighted(rel, name, count, line, key);
      if name == key.0 {
        forall e | e in here[1..] ensures e.0 != key.0 { Text.LessIrreflexive(key.0); }
        NotThere(here[1..], key.0);
      }
    }
  }

  lemma NameIsSighted(rel: string, name: string, count: nat, line: nat, key: (string, string))
    requires ScopesOf(rel).Ok?
    ensures var f := NameFragment(rel, name, count, line);
            && (SightedAs(f, key) <==> name == key.0 && key.1 in ScopesOf(rel).value)
            && Number(f.facts, "count") == if count < U64 then count else 0
  {
  }

  lemma FirstCounts(f: Fragment, rest: seq<Fragment>, key: (string, string))
    ensures Total(SightingsOf([f] + rest, key)) ==
            (if SightedAs(f, key) then Number(f.facts, "count") else 0) + Total(SightingsOf(rest, key))
  {
    var sightings := SightingsOf(rest, key);
    assert ([f] + rest)[1..] == rest && ([f] + sightings)[1..] == sightings && [] + sightings == sightings;
  }

  /** No name is used more often in one file than a machine word can say. */
  ghost predicate Countable(inWord: char -> bool, found: seq<Found>) {
    forall i, name :: 0 <= i < |found| && found[i].stored.content.Some? ==>
      UsesOf(Utf8.Strict(found[i].stored.content.value), inWord, name) < U64
  }

  lemma FileCounts(rel: string, src: Option<string>, inWord: char -> bool, key: (string, string))
    requires ScopesOf(rel).Ok? && forall name :: UsesOf(src, inWord, name) < U64
    ensures Total(SightingsOf(Collected(rel, src, inWord), key)) ==
            if key.1 in ScopesOf(rel).value then UsesOf(src, inWord, key.0) else 0
  {
    if src.Some? {
      var uses := UsesFrom(LinesOf(src.value), 1, inWord);
      var here := WithUses([], uses);
      CountedIs([], uses, key.0);
      forall i | 0 <= i < |here| ensures here[i].1.0 < U64 {
        CountedIs([], uses, here[i].0);
        TextOrders();
        AtHolds(Text.ByText, here, here[i].0, here[i].1);
        assert here[i] in here && UsesOf(src, inWord, here[i].0) < U64;
      }
      OneFragment(rel, here, key);
    }
  }

  lemma {:induction false} CorpusCounts(m: Means, version: string, inWord: char -> bool,
                                        found: seq<Found>, root: string, key: (string, string))
    requires m.recipe == RecipeOf(version, inWord) && Countable(inWord, found)
    requires forall f :: f in found ==> ScopesOf(f.rel).Ok?
    ensures Total(SightingsOf(CorpusFrom(m, found, root), key)) == UsesUnder(inWord, found, root, key)
  {
    if found != [] {
      var f, rest := found[0], CorpusFrom(m, found[1..], root);
      assert f in found;
      CorpusCounts(m, version, inWord, found[1..], root, key);
      if Yields(m, f) && Under(f.rel, root) {
        var src := Utf8.Strict(f.stored.content.value);
        SightingsSplit(Collected(f.rel, src, inWord), rest, key);
        TotalSplits(SightingsOf(Collected(f.rel, src, inWord), key), SightingsOf(rest, key));
        assert found[0].stored.content.Some? && forall name :: UsesOf(src, inWord, name) < U64;
        FileCounts(f.rel, src, inWord, key);
        ScopesHoldThePath(f.rel, key.1);
      } else {
        assert [] + rest == rest;
      }
    }
  }

  /** Of a name in a scope name-map says how often the name is used in the files there,
      counting every use in every file and no other; what it says nothing of is not used. */
  lemma OccurrencesAreUses(m: Means, version: string, inWord: char -> bool,
                           tree: seq<Entry>, root: string, key: (string, string))
    requires m.recipe == RecipeOf(version, inWord) && Proper(tree) && Countable(inWord, Files(tree, ""))
    ensures var out := Rolled(CorpusOf(m, tree, root));
            var uses := UsesUnder(inWord, Files(tree, ""), root, key);
            && out.Ok?
            && (forall c :: c in out.value && c.coord == CoordOf(key) ==> c.facts.Get("occurrences") == Some(Int(uses)))
            && ((forall c :: c in out.value ==> c.coord != CoordOf(key)) ==> uses == 0)
  {
    forall f | f in Files(tree, "") ensures ScopesOf(f.rel).Ok? { FoundHasScopes(tree, f); }
    assert IsNameMap(m);
    CorpusIsPlaceable(m, Files(tree, ""), root);
    MergeRefuses([], CorpusOf(m, tree, root));
    RolledIsGrouped(CorpusOf(m, tree, root), key);
    CorpusCounts(m, version, inWord, Files(tree, ""), root, key);
  }

  method Probe(bridge: Bridge, m: Means, root: string, pos: Value, tree: seq<Entry>, fault: Fault, weigh: Report -> nat,
               ghost history: seq<seq<Entry>>)
    returns (r: Result<Report, Halt>)
    requires bridge.Valid() && Ready(m, history, bridge.walked, bridge.index.Contents(), tree) && Ascii(root)
    requires IsNameMap(m)
    modifies bridge, bridge.index
    ensures bridge.Valid() && Ready(m, history, bridge.walked, bridge.index.Contents(), tree)
    ensures match Wanted(pos, m.recipe.items)
            case Err(why) => r == Err(Refused(why))
            case Ok(want) =>
              match Refreshing(m, old(bridge.walked), old(bridge.index.Contents()), tree, fault).0
              case Err(halt) => r == Err(halt)
              case Ok(_) =>
                r == LookOn(m.recipe, root, want, Nth(pos), CorpusOf(m, tree, root), Peopled(m, tree, root), weigh)
  {
    r := Look(bridge, m, root, pos, tree, fault, weigh, history);
    var wanted := Wanted(pos, m.recipe.items);
    if wanted.Ok? { NarrowedNameMapIsWhole(m, tree, root, wanted.value); }
  }
}
