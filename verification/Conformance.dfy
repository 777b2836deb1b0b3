/** The tables answer as the simple index does, after any run of operations. */
module Conformance {
  import opened Wrappers
  import opened Index
  import opened Matching
  import opened Walk
  import opened Remembers
  import opened Sqlite

  /** Everything an index can be asked of a generation. */
  datatype Answers = Answers(
    built: Option<Built>,
    known: map<string, Held>,
    generations: map<Generation, Built>,
    rows: Option<Snapshot>,
    union: Option<Snapshot>)

  /** Files written under the keys of their paths, with one row for an ordinal, and
      sealed at whole seconds. */
  ghost predicate Fair(op: Op) {
    match op
    case Write(_, files) => WellKeyed(files)
    case Seal(_, at) => at % NANOS == 0
    case _ => true
  }

  ghost predicate AllFair(ops: seq<Op>) { forall i :: 0 <= i < |ops| ==> Fair(ops[i]) }

  lemma {:induction false} RunKeyed(ops: seq<Op>)
    requires AllFair(ops)
    ensures Keyed(RunOf(ops)) && Filed(RunOf(ops))
    decreases |ops|
  {
    if ops != [] {
      RunKeyed(ops[..|ops| - 1]);
      DoneKeyed(RunOf(ops[..|ops| - 1]), ops[|ops| - 1]);
    }
  }

  method OnRemembered(index: Remembered, op: Op)
    requires index.Valid() && Fair(op)
    modifies index
    ensures index.Valid() && index.Contents() == Done(old(index.Contents()), op)
  {
    match op {
      case Write(of, files) => index.Write(of, files);
      case Restamp(of, stamps) => index.Restamp(of, stamps);
      case Forget(of, gone) => index.Forget(of, gone);
      case Seal(of, at) => var r := index.Seal(of, at);
      case Discard(of) => index.Discard(of);
    }
  }

  method OnTables(index: SqliteIndex, op: Op)
    requires index.Valid() && Fair(op)
    modifies index
    ensures index.Valid() && index.Contents() == Done(old(index.Contents()), op)
  {
    match op {
      case Write(of, files) => var r := index.Write(of, files);
      case Restamp(of, stamps) => index.Restamp(of, stamps);
      case Forget(of, gone) => index.Forget(of, gone);
      case Seal(of, at) =>
        WholeSecondsSurvive(at);
        var r := index.Seal(of, at);
      case Discard(of) => index.Discard(of);
    }
  }

  method AskRemembered(index: Remembered, of: Generation, root: string, want: Want) returns (a: Answers)
    requires index.Valid()
    ensures RightFor(index.Contents(), of, root, want, a)
  {
    var built := index.Built(of);
    var known := index.Known(of);
    var generations := index.Generations();
    var rows := index.Rows(of, root);
    var union := index.Union(of, root, want);
    a := Answers(built, known, generations, rows, union);
  }

  method AskTables(index: SqliteIndex, of: Generation, root: string, want: Want) returns (a: Answers)
    requires index.Valid() && Ascii(root)
    ensures RightFor(index.Contents(), of, root, want, a)
  {
    var built := index.Built(of);
    var known := index.Known(of);
    var generations := index.Generations();
    var rows := index.Rows(of, root);
    var union := index.Union(of, root, want);
    a := Answers(built, known, generations, rows, union);
  }

  ghost predicate RightSnapshot(s: Shelf, of: Generation, root: string, want: Option<Want>, a: Option<Snapshot>) {
    match a
    case None => of !in s.written
    case Some(snapshot) =>
      && of in s.written && snapshot.sealedAt == s.written[of]
      && (Keyed(s) ==> Lists(s, of, root, want, snapshot.rows))
  }

  ghost predicate RightFor(s: Shelf, of: Generation, root: string, want: Want, a: Answers) {
    && a.built == BuiltOf(s, of) && a.known == KnownOf(s, of) && a.generations == ListedOf(s)
    && RightSnapshot(s, of, root, None, a.rows) && RightSnapshot(s, of, root, Some(want), a.union)
  }

  lemma OneRightSnapshot(s: Shelf, of: Generation, root: string, want: Option<Want>, a: Option<Snapshot>,
                         b: Option<Snapshot>)
    requires Keyed(s) && RightSnapshot(s, of, root, want, a) && RightSnapshot(s, of, root, want, b)
    ensures a == b
  {
    if a.Some? { OneListing(s, of, root, want, a.value.rows, b.value.rows); }
  }

  /** Whatever was written, restamped, forgotten, sealed and discarded, and whatever
      is asked, the two give the same answers, and the right ones. */
  method Compare(ops: seq<Op>, of: Generation, root: string, want: Want) returns (simple: Answers, tables: Answers)
    requires AllFair(ops) && Ascii(root)
    ensures simple == tables
    ensures RightFor(RunOf(ops), of, root, want, simple) && Keyed(RunOf(ops))
  {
    var left := new Remembered();
    var right := new SqliteIndex();
    for i := 0 to |ops|
      invariant fresh(left) && fresh(right)
      invariant left.Valid() && right.Valid()
      invariant left.Contents() == right.Contents() == RunOf(ops[..i])
    {
      OnRemembered(left, ops[i]);
      OnTables(right, ops[i]);
      assert ops[..i + 1][..i] == ops[..i];
    }
    assert ops[..|ops|] == ops;
    RunKeyed(ops);
    simple := AskRemembered(left, of, root, want);
    tables := AskTables(right, of, root, want);
    OneRightSnapshot(RunOf(ops), of, root, None, simple.rows, tables.rows);
    OneRightSnapshot(RunOf(ops), of, root, Some(want), simple.union, tables.union);
  }
}
