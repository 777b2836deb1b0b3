/** Rescanning a tree against what is held of it. */
module Corpus {
  import opened Wrappers
  import opened Index
  import opened Matching
  import opened Walk
  import Budgets
  import Utf8

  datatype Merge = Concat | Fold(fold: seq<Fragment> -> Result<seq<Candidate>, string>)

  /** A probe's way of reading a tree. */
  datatype Recipe = Recipe(
    name: string,
    version: string,
    items: seq<string>,
    narrowsOn: seq<string>,
    identity: seq<string>,
    eligible: string -> bool,
    collect: (string, Bytes) -> Result<seq<Fragment>, string>,
    merge: Merge)

  function GenerationOf(recipe: Recipe): Generation { Generation(recipe.name, recipe.version) }

  datatype Halt = Spent(spent: Budgets.Spent) | Faulted(trouble: Trouble) | Refused(why: Refusal) | Barren(root: string)
  {
    predicate Deterministic() { Refused? || Barren? }
  }

  datatype Fresh = Fresh(rel: string, hash: string, sort: string, stamp: Option<Stamp>, fragments: seq<Fragment>)

  datatype Rescan = Rescan(renewed: seq<Fresh>, restamped: seq<(string, Option<Stamp>)>, gone: set<string>)

  /** What a rescan is given besides the tree: the digest of file contents, and
      what the budget says at each checkpoint in turn. */
  datatype Means = Means(recipe: Recipe, digest: Bytes -> string, spent: nat -> Option<Budgets.Spent>)

  /** The digest there is: of the text the bytes are read as, what is no text replaced. */
  function LossyDigest(hash: string -> string): Bytes -> string { (bytes: Bytes) => hash(Utf8.Lossy(bytes)) }

  function Slashed(rel: string): string {
    if rel == "" then "" else [if rel[0] == '\\' then '/' else rel[0]] + Slashed(rel[1..])
  }

  // ---- One file -------------------------------------------------------------------------

  /** What becomes of a file: passed over, held as it is, held with a new stamp,
      read anew, or refused. */
  datatype Verdict = Passed | Same | Restamps | Reads(fragments: seq<Fragment>) | Refuses(why: string)

  function Judge(m: Means, known: map<string, Held>, f: Found): Verdict {
    if !m.recipe.eligible(f.rel) then Passed
    else
      var rel := Slashed(f.rel);
      if rel in known && known[rel].stamp.Some? && known[rel].stamp == f.stored.stamp then Same
      else if f.stored.content.None? then Passed
      else if rel in known && known[rel].hash == m.digest(f.stored.content.value) then Restamps
      else
        match m.recipe.collect(rel, f.stored.content.value)
        case Ok(fragments) => Reads(fragments)
        case Err(why) => Refuses(why)
  }

  datatype Scan = Scan(
    renewed: seq<Fresh>,
    restamped: seq<(string, Option<Stamp>)>,
    seen: set<string>,
    visited: nat,
    halted: Option<Halt>)

  const BEGUN := Scan([], [], {}, 0, None)

  function FreshOf(m: Means, f: Found, fragments: seq<Fragment>): Fresh
    requires f.stored.content.Some?
  {
    var rel := Slashed(f.rel);
    Fresh(rel, m.digest(f.stored.content.value), SortKey(rel), f.stored.stamp, fragments)
  }

  function Each(m: Means, known: map<string, Held>, s: Scan, f: Found): Scan {
    var rel := Slashed(f.rel);
    var t := s.(visited := s.visited + 1);
    if m.spent(s.visited).Some? then t.(halted := Some(Spent(m.spent(s.visited).value)))
    else
      match Judge(m, known, f)
      case Passed => t
      case Same => t.(seen := t.seen + {rel})
      case Restamps => t.(restamped := t.restamped + [(rel, f.stored.stamp)], seen := t.seen + {rel})
      case Reads(fragments) => t.(renewed := t.renewed + [FreshOf(m, f, fragments)], seen := t.seen + {rel})
      case Refuses(why) => t.(halted := Some(Refused(Told(why))))
  }

  /** The files in turn, until one halts the walk. */
  function ScanFrom(m: Means, known: map<string, Held>, s: Scan, found: seq<Found>): Scan
    decreases |found|
  {
    if found == [] || s.halted.Some? then s else ScanFrom(m, known, Each(m, known, s, found[0]), found[1..])
  }

  function Rescanned(m: Means, known: map<string, Held>, tree: seq<Entry>): Result<Rescan, Halt> {
    var s := ScanFrom(m, known, BEGUN, Files(tree, ""));
    match s.halted
    case Some(halt) => Err(halt)
    case None => Ok(Rescan(s.renewed, s.restamped, known.Keys - s.seen))
  }

  lemma {:induction false} ScanSplits(m: Means, known: map<string, Held>, s: Scan, a: seq<Found>, b: seq<Found>)
    ensures ScanFrom(m, known, s, a + b) == ScanFrom(m, known, ScanFrom(m, known, s, a), b)
    decreases |a|
  {
    if a == [] {
      assert a + b == b;
    } else if s.halted.None? {
      assert (a + b)[1..] == a[1..] + b;
      ScanSplits(m, known, Each(m, known, s, a[0]), a[1..], b);
    }
  }

  // ---- The walk as it runs -----------------------------------------------------------------

  class Scanner {
    const means: Means
    const known: map<string, Held>
    var renewed: seq<Fresh>
    var restamped: seq<(string, Option<Stamp>)>
    var seen: set<string>
    var visited: nat
    var halted: Option<Halt>

    ghost function State(): Scan
      reads this
    {
      Scan(renewed, restamped, seen, visited, halted)
    }

    constructor (means: Means, known: map<string, Held>)
      ensures this.means == means && this.known == known && State() == BEGUN
    {
      this.means, this.known := means, known;
      renewed, restamped, seen, visited, halted := [], [], {}, 0, None;
    }

    method One(f: Found)
      requires halted.None?
      modifies this
      ensures State() == Each(means, known, old(State()), f)
    {
      var now := means.spent(visited);
      visited := visited + 1;
      if now.Some? {
        halted := Some(Spent(now.value));
        return;
      }
      if !means.recipe.eligible(f.rel) { return; }
      var rel := Slashed(f.rel);
      if rel in known && known[rel].stamp.Some? && known[rel].stamp == f.stored.stamp {
        seen := seen + {rel};
        return;
      }
      if f.stored.content.None? { return; }
      var bytes := f.stored.content.value;
      var hash := means.digest(bytes);
      if rel in known && known[rel].hash == hash {
        restamped := restamped + [(rel, f.stored.stamp)];
        seen := seen + {rel};
        return;
      }
      match means.recipe.collect(rel, bytes) {
        case Err(why) => halted := Some(Refused(Told(why)));
        case Ok(fragments) =>
          renewed := renewed + [Fresh(rel, hash, SortKey(rel), f.stored.stamp, fragments)];
          seen := seen + {rel};
      }
    }

    /** Directories in order of name, each gone into where it stands. */
    method Descend(entries: seq<Entry>, base: string)
      requires halted.None?
      modifies this
      ensures State() == ScanFrom(means, known, old(State()), Files(entries, base))
      decreases Tallest(entries)
    {
      var sorted := InOrder(entries);
      ghost var before := State();
      for i := 0 to |sorted|
        invariant halted.None?
        invariant ScanFrom(means, known, before, Onward(sorted, base))
          == ScanFrom(means, known, State(), Onward(sorted[i..], base))
      {
        var e := sorted[i];
        ghost var here := State();
        assert sorted[i..][0] == e && sorted[i..][1..] == sorted[i + 1..];
        ScanSplits(means, known, here, Walk.One(e, base), Onward(sorted[i + 1..], base));
        if !Skipped(e.name) {
          match e.node {
            case Dir(under) => Descend(under, base + e.name + "/");
            case File(stored) =>
              One(Found(base + e.name, stored));
              ScanOne(means, known, here, Found(base + e.name, stored));
          }
        }
        if halted.Some? { return; }
      }
    }
  }

  lemma ScanOne(m: Means, known: map<string, Held>, s: Scan, f: Found)
    requires s.halted.None?
    ensures ScanFrom(m, known, s, [f]) == Each(m, known, s, f)
  {
    assert [f][1..] == [];
  }

  method RescanTree(m: Means, known: map<string, Held>, tree: seq<Entry>) returns (r: Result<Rescan, Halt>)
    ensures r == Rescanned(m, known, tree)
  {
    var scanner := new Scanner(m, known);
    scanner.Descend(tree, "");
    if scanner.halted.Some? { return Err(scanner.halted.value); }
    var gone := set rel | rel in known && rel !in scanner.seen;
    assert gone == known.Keys - scanner.seen;
    return Ok(Rescan(scanner.renewed, scanner.restamped, gone));
  }
}
