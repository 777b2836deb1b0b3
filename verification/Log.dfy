/** The journal every anchor shares: added to at its end, read by anchor. */
module Ledger {
  import opened Wrappers
  import opened Journal
  import Text

  type Key = string

  datatype Row = Row(key: Key, sequence: Seq, entry: Entry)

  /** What an append claims about the anchor's last entry. */
  datatype Expected = Any | Head(at: Seq)

  datatype StoreError = HeadMoved

  /** An anchor's entries from a sequence on. */
  function Since(rows: seq<Row>, key: Key, from: Seq): Log {
    if rows == [] then []
    else
      var row := rows[0];
      (if row.key == key && row.sequence >= from then [(row.sequence, row.entry)] else [])
      + Since(rows[1..], key, from)
  }

  lemma SinceGoesOn(rows: seq<Row>, i: nat, key: Key, from: Seq, done: Log)
    requires i < |rows|
    ensures done + Since(rows[i..], key, from) ==
            if rows[i].key == key && rows[i].sequence >= from
            then done + [(rows[i].sequence, rows[i].entry)] + Since(rows[i + 1..], key, from)
            else done + Since(rows[i + 1..], key, from)
  {
    assert rows[i..][0] == rows[i] && rows[i..][1..] == rows[i + 1..];
    Text.Assoc(done, [(rows[i].sequence, rows[i].entry)], Since(rows[i + 1..], key, from));
  }

  /** The greatest sequence of an anchor's entries, or 0. */
  function HeadOf(rows: seq<Row>, key: Key): Seq {
    if rows == [] then 0
    else
      var rest := HeadOf(rows[1..], key);
      if rows[0].key == key && rows[0].sequence > rest then rows[0].sequence else rest
  }

  function NextSeq(rows: seq<Row>): Seq { if rows == [] then 1 else rows[|rows| - 1].sequence + 1 }

  predicate Permits(rows: seq<Row>, key: Key, expected: Expected) {
    expected.Any? || expected.at == HeadOf(rows, key)
  }

  function Appended(rows: seq<Row>, key: Key, entry: Entry, expected: Expected): seq<Row> {
    if Permits(rows, key, expected) then rows + [Row(key, NextSeq(rows), entry)] else rows
  }

  class Store {
    var rows: seq<Row>

    constructor ()
      ensures rows == []
    {
      rows := [];
    }

    /** The row goes in only if the claim still holds. */
    method Append(key: Key, entry: Entry, expected: Expected) returns (r: Result<Seq, StoreError>)
      modifies this
      ensures rows == Appended(old(rows), key, entry, expected)
      ensures r == if Permits(old(rows), key, expected) then Ok(NextSeq(old(rows))) else Err(HeadMoved)
    {
      var head := HeadOf(rows, key);
      if expected.Head? && expected.at != head { return Err(HeadMoved); }
      var sequence := NextSeq(rows);
      rows := rows + [Row(key, sequence, entry)];
      return Ok(sequence);
    }

    method Entries(key: Key, from: Seq) returns (entries: Log)
      ensures entries == Since(rows, key, from)
    {
      entries := [];
      for i := 0 to |rows|
        invariant Since(rows, key, from) == entries + Since(rows[i..], key, from)
      {
        var row := rows[i];
        SinceGoesOn(rows, i, key, from, entries);
        if row.key == key && row.sequence >= from { entries := entries + [(row.sequence, row.entry)]; }
      }
    }
  }

  // ---- Sequences ---------------------------------------------------------------------

  /** Sequences count up from one, across all anchors. */
  ghost predicate Ordered(rows: seq<Row>) {
    && (forall i :: 0 <= i < |rows| ==> rows[i].sequence >= 1)
    && (forall i, j :: 0 <= i < j < |rows| ==> rows[i].sequence < rows[j].sequence)
  }

  lemma AppendedIsOrdered(rows: seq<Row>, key: Key, entry: Entry, expected: Expected)
    requires Ordered(rows)
    ensures Ordered(Appended(rows, key, entry, expected))
  {
  }

  lemma {:induction false} SinceSplits(a: seq<Row>, b: seq<Row>, key: Key, from: Seq)
    ensures Since(a + b, key, from) == Since(a, key, from) + Since(b, key, from)
  {
    if a == [] {
      assert a + b == b;
    } else {
      assert (a + b)[1..] == a[1..] + b;
      SinceSplits(a[1..], b, key, from);
    }
  }

  lemma {:induction false} SinceNone(rows: seq<Row>, key: Key, from: Seq)
    requires forall i :: 0 <= i < |rows| && rows[i].key == key ==> rows[i].sequence < from
    ensures Since(rows, key, from) == []
  {
    if rows != [] { SinceNone(rows[1..], key, from); }
  }

  lemma {:induction false} SinceAll(rows: seq<Row>, key: Key, from: Seq)
    requires forall i :: 0 <= i < |rows| && rows[i].key == key ==> rows[i].sequence >= from
    ensures Since(rows, key, from) == Since(rows, key, 0)
  {
    if rows != [] { SinceAll(rows[1..], key, from); }
  }

  /** The last entry of an anchor's log is its last row. */
  lemma {:induction false} LastRow(rows: seq<Row>, key: Key) returns (i: nat)
    requires Since(rows, key, 0) != []
    ensures i < |rows| && rows[i].key == key
    ensures var log := Since(rows, key, 0); log[|log| - 1] == (rows[i].sequence, rows[i].entry)
    ensures forall j :: i < j < |rows| ==> rows[j].key != key
  {
    var n := |rows| - 1;
    assert rows == rows[..n] + [rows[n]];
    SinceSplits(rows[..n], [rows[n]], key, 0);
    if rows[n].key == key {
      i := n;
    } else {
      i := LastRow(rows[..n], key);
    }
  }

  lemma {:induction false} HeadOfBounds(rows: seq<Row>, key: Key)
    ensures forall i :: 0 <= i < |rows| && rows[i].key == key ==> rows[i].sequence <= HeadOf(rows, key)
    ensures HeadOf(rows, key) == 0 ||
            exists i :: 0 <= i < |rows| && rows[i].key == key && rows[i].sequence == HeadOf(rows, key)
  {
    if rows != [] {
      HeadOfBounds(rows[1..], key);
      var rest := rows[1..];
      if i :| 0 <= i < |rest| && rest[i].key == key && rest[i].sequence == HeadOf(rest, key) {
        assert rows[i + 1] == rest[i];
      }
      forall i | 0 <= i < |rows| && rows[i].key == key ensures rows[i].sequence <= HeadOf(rows, key) {
        if i > 0 { assert rows[i] == rest[i - 1]; }
      }
    }
  }

  /** The head is the last entry's sequence. */
  lemma HeadIsLast(rows: seq<Row>, key: Key)
    requires Ordered(rows)
    ensures var log := Since(rows, key, 0);
            HeadOf(rows, key) == if log == [] then 0 else log[|log| - 1].0
  {
    HeadOfBounds(rows, key);
    if Since(rows, key, 0) == [] {
      if HeadOf(rows, key) != 0 {
        var j :| 0 <= j < |rows| && rows[j].key == key && rows[j].sequence == HeadOf(rows, key);
        LaterIsEmpty(rows, key, j);
      }
    } else {
      var i := LastRow(rows, key);
    }
  }

  lemma LogSplits(rows: seq<Row>, n: nat, key: Key)
    requires n <= |rows|
    ensures Since(rows, key, 0) == Since(rows[..n], key, 0) + Since(rows[n..], key, 0)
  {
    assert rows == rows[..n] + rows[n..];
    SinceSplits(rows[..n], rows[n..], key, 0);
  }

  lemma LaterIsGreater(rows: seq<Row>, n: nat, key: Key)
    requires Ordered(rows) && n <= |rows| && Since(rows[..n], key, 0) != [] && Since(rows[n..], key, 0) != []
    ensures var a, b := Since(rows[..n], key, 0), Since(rows[n..], key, 0);
            a[|a| - 1].0 < b[|b| - 1].0
  {
    var i := LastRow(rows[..n], key);
    var j := LastRow(rows[n..], key);
    assert rows[..n][i] == rows[i] && rows[n..][j] == rows[n + j];
  }

  /** Since a prefix that holds some entry of the anchor, the anchor's head has
      moved exactly if entries were appended to it. */
  lemma HeadMovesExactlyByAppending(rows: seq<Row>, n: nat, key: Key)
    requires Ordered(rows) && n <= |rows| && Since(rows[..n], key, 0) != []
    ensures var log := Since(rows[..n], key, 0);
            HeadOf(rows, key) == log[|log| - 1].0 <==> Since(rows, key, 0) == log
  {
    LogSplits(rows, n, key);
    HeadIsLast(rows, key);
    if Since(rows[n..], key, 0) != [] { LaterIsGreater(rows, n, key); }
  }

  lemma {:induction false} LaterIsEmpty(rows: seq<Row>, key: Key, j: nat)
    requires Since(rows, key, 0) == [] && j < |rows|
    ensures rows[j].key != key
  {
    if j > 0 { LaterIsEmpty(rows[1..], key, j - 1); }
  }
}

/** How an anchor stands: a checkpoint of the fold, caught up from the journal.
    A call takes the checkpoint, reads the journal and publishes the new
    checkpoint in three separate steps, and any number of calls, in any number of
    processes, interleave with each other and with every writer. */
module Checkpoint {
  import opened Wrappers
  import opened Journal
  import opened Ledger

  datatype Standing = Standing(anchor: AnchorState, logged: nat)

  function From(held: Option<Standing>): Seq {
    match held case Some(h) => h.anchor.head + 1 case None => 0
  }

  /** What was held, brought forward over newer entries. */
  function Continue(held: Option<Standing>, entries: Log): Option<Standing> {
    var (seed, logged) := match held
                          case Some(h) => (Some(h.anchor), h.logged)
                          case None => (None, 0);
    match Resume(seed, entries)
    case Some(anchor) => Some(Standing(anchor, logged + Sighted(seed, entries)))
    case None => None
  }

  /** How an anchor stands by the whole of its log. */
  function Whole(rows: seq<Row>, key: Key): Option<Standing> { Continue(None, Since(rows, key, 0)) }

  /** Nothing, or how the anchor stood at some earlier time. */
  ghost predicate StoodOnce(rows: seq<Row>, key: Key, held: Option<Standing>) {
    held.None? || exists n :: 0 <= n <= |rows| && held == Whole(rows[..n], key)
  }

  lemma WholeHead(rows: seq<Row>, key: Key)
    requires Whole(rows, key).Some?
    ensures var log := Since(rows, key, 0);
            log != [] && Whole(rows, key).value.anchor.head == log[|log| - 1].0
  {
    FoldHead(Since(rows, key, 0));
  }

  lemma NothingPast(rows: seq<Row>, n: nat, i: nat, key: Key)
    requires Ordered(rows) && i < n <= |rows| && forall j :: i < j < n ==> rows[j].key != key
    ensures Since(rows[..n], key, rows[i].sequence + 1) == []
  {
    SinceNone(rows[..n], key, rows[i].sequence + 1);
  }

  lemma AllPast(rows: seq<Row>, n: nat, i: nat, key: Key)
    requires Ordered(rows) && i < n <= |rows|
    ensures Since(rows[n..], key, rows[i].sequence + 1) == Since(rows[n..], key, 0)
  {
    SinceAll(rows[n..], key, rows[i].sequence + 1);
  }

  /** Reading past a prefix's last entry is reading what came after the prefix. */
  lemma ReadingOn(rows: seq<Row>, n: nat, key: Key)
    requires Ordered(rows) && n <= |rows| && Since(rows[..n], key, 0) != []
    ensures var log := Since(rows[..n], key, 0);
            Since(rows, key, log[|log| - 1].0 + 1) == Since(rows[n..], key, 0)
  {
    var i := LastRow(rows[..n], key);
    LastOfFront(rows, n, i, key);
    PastRow(rows, n, i, key);
  }

  lemma LastOfFront(rows: seq<Row>, n: nat, i: nat, key: Key)
    requires i < n <= |rows| && forall j :: i < j < n ==> rows[..n][j].key != key
    ensures rows[..n][i] == rows[i] && forall j :: i < j < n ==> rows[j].key != key
  {
    assert forall j :: 0 <= j < n ==> rows[..n][j] == rows[j];
  }

  lemma PastRow(rows: seq<Row>, n: nat, i: nat, key: Key)
    requires Ordered(rows) && i < n <= |rows| && forall j :: i < j < n ==> rows[j].key != key
    ensures Since(rows, key, rows[i].sequence + 1) == Since(rows[n..], key, 0)
  {
    NothingPast(rows, n, i, key);
    AllPast(rows, n, i, key);
    assert rows == rows[..n] + rows[n..];
    SinceSplits(rows[..n], rows[n..], key, rows[i].sequence + 1);
  }

  lemma ContinueComposes(a: Log, b: Log)
    requires Continue(None, a).Some?
    ensures Continue(Continue(None, a), b) == Continue(None, a + b)
  {
    ResumeComposes(None, a, b);
  }

  lemma CatchingUp(rows: seq<Row>, n: nat, key: Key, held: Standing)
    requires Ordered(rows) && n <= |rows| && Whole(rows[..n], key) == Some(held)
    ensures Since(rows, key, held.anchor.head + 1) == Since(rows[n..], key, 0)
  {
    WholeHead(rows[..n], key);
    ReadingOn(rows, n, key);
  }

  /** Catching up from any earlier checkpoint gives what folding everything gives. */
  lemma CatchingUpIsFolding(rows: seq<Row>, key: Key, held: Option<Standing>)
    requires Ordered(rows) && StoodOnce(rows, key, held)
    ensures Continue(held, Since(rows, key, From(held))) == Whole(rows, key)
  {
    if held.Some? {
      var n :| 0 <= n <= |rows| && held == Whole(rows[..n], key);
      CatchingUp(rows, n, key, held.value);
      LogSplits(rows, n, key);
      ContinueComposes(Since(rows[..n], key, 0), Since(rows[n..], key, 0));
    }
  }

  lemma StoodOnceStays(rows: seq<Row>, more: seq<Row>, key: Key, held: Option<Standing>)
    requires StoodOnce(rows, key, held)
    ensures StoodOnce(rows + more, key, held)
  {
    if held.Some? {
      var n :| 0 <= n <= |rows| && held == Whole(rows[..n], key);
      assert (rows + more)[..n] == rows[..n];
    }
  }

  lemma StandsNow(rows: seq<Row>, n: nat, key: Key)
    requires n <= |rows|
    ensures StoodOnce(rows, key, Whole(rows[..n], key))
  {
  }

  // ---- The log of anchors, one call at a time ------------------------------------------

  datatype Refusal = NoSuchAnchor | AnchorClosed | Store(error: StoreError)

  /** What a close seals of the state it judged. */
  function ContextOf(s: AnchorState): Context { Context(s.head, s.state, s.enteredAt) }

  /** What an author's close comes to, given how the anchor was seen to stand. */
  function Judged(stood: Option<Standing>): Result<AnchorState, Refusal> {
    match stood
    case None => Err(NoSuchAnchor)
    case Some(s) => if s.anchor.closed then Err(AnchorClosed) else Ok(s.anchor)
  }

  class AnchorLog {
    const journal: Store
    var checkpoint: map<Key, Standing>

    ghost predicate Valid()
      reads this, journal
    {
      Ordered(journal.rows) && forall key :: key in checkpoint ==> StoodOnce(journal.rows, key, Some(checkpoint[key]))
    }

    constructor (journal: Store)
      ensures this.journal == journal && checkpoint == map[]
    {
      this.journal := journal;
      checkpoint := map[];
    }

    method Take(key: Key) returns (held: Option<Standing>)
      ensures held == if key in checkpoint then Some(checkpoint[key]) else None
    {
      held := if key in checkpoint then Some(checkpoint[key]) else None;
    }

    /** Catches up, and overwrites whatever checkpoint is there now. */
    method Publish(key: Key, held: Option<Standing>, entries: Log) returns (stood: Option<Standing>)
      modifies this
      ensures stood == Continue(held, entries)
      ensures checkpoint == if stood.Some? then old(checkpoint)[key := stood.value] else old(checkpoint)
    {
      var seed, logged := None, 0;
      if held.Some? { seed, logged := Some(held.value.anchor), held.value.logged; }
      var anchor, count := Replay(seed, entries, logged);
      if anchor.None? { return None; }
      stood := Some(Standing(anchor.value, count));
      checkpoint := checkpoint[key := stood.value];
    }

    /** Uninterrupted, a call returns how the anchor stands, whatever the checkpoint. */
    method Stood(key: Key) returns (stood: Option<Standing>)
      requires Valid()
      modifies this
      ensures Valid()
      ensures stood == Whole(journal.rows, key)
      ensures stood.Some? ==> checkpoint == old(checkpoint)[key := stood.value]
      ensures stood.None? ==> checkpoint == old(checkpoint)
    {
      var held := Take(key);
      var entries := journal.Entries(key, From(held));
      stood := Publish(key, held, entries);
      CatchingUpIsFolding(journal.rows, key, held);
      assert journal.rows[..|journal.rows|] == journal.rows;
      StandsNow(journal.rows, |journal.rows|, key);
    }

    /** Uninterrupted, a close lands exactly on an open anchor, as its next entry. */
    method Close(key: Key, rationale: string, at: Time) returns (r: Result<(), Refusal>)
      requires Valid()
      modifies this, journal
      ensures match Judged(Whole(old(journal.rows), key))
              case Ok(s) =>
                && r == Ok(())
                && journal.rows == old(journal.rows) +
                  [Row(key, NextSeq(old(journal.rows)), Entry.Close(ContextOf(s), rationale, at))]
              case Err(refusal) => r == Err(refusal) && journal.rows == old(journal.rows)
    {
      var stood := Stood(key);
      match Judged(stood) {
        case Err(refusal) => return Err(refusal);
        case Ok(s) =>
          ghost var rows := journal.rows;
          assert rows[..|rows|] == rows;
          WholeHead(rows, key);
          HeadMovesExactlyByAppending(rows, |rows|, key);
          var landed := journal.Append(key, Entry.Close(ContextOf(s), rationale, at), Head(s.head));
          return Ok(());
      }
    }
  }

  // ---- Every interleaving ----------------------------------------------------------------

  /** One process's checkpoint for one anchor. */
  datatype Slot = Slot(process: nat, key: Key)

  /** How far a call has got. `seen` marks how long the journal was when the call
      read it; no step looks at it. */
  datatype Phase =
    | Took(slot: Slot, held: Option<Standing>)
    | Fetched(slot: Slot, held: Option<Standing>, entries: Log, seen: nat)
    | Answered(slot: Slot, stood: Option<Standing>, seen: nat)

  datatype World = World(rows: seq<Row>, checkpoint: map<Slot, Standing>, calls: map<nat, Phase>)

  datatype Event =
    | Append(key: Key, entry: Entry, expected: Expected)
    | Take(call: nat, slot: Slot)
    | Fetch(call: nat)
    | Publish(call: nat)
    | Close(call: nat, rationale: string, at: Time)
    | Drop(call: nat)
    | Restart(process: nat)

  const START := World([], map[], map[])

  /** Closes are appended by nobody but `close`. */
  predicate Enabled(w: World, e: Event) {
    match e
    case Append(_, entry, _) => !entry.Close?
    case Take(call, _) => call !in w.calls
    case Fetch(call) => call in w.calls && w.calls[call].Took?
    case Publish(call) => call in w.calls && w.calls[call].Fetched?
    case Close(call, _, _) => call in w.calls && w.calls[call].Answered? && Judged(w.calls[call].stood).Ok?
    case Drop(call) => call in w.calls
    case Restart(_) => true
  }

  function Next(w: World, e: Event): World
    requires Enabled(w, e)
  {
    match e
    case Append(key, entry, expected) => w.(rows := Appended(w.rows, key, entry, expected))
    case Take(call, slot) =>
      var held := if slot in w.checkpoint then Some(w.checkpoint[slot]) else None;
      w.(calls := w.calls[call := Took(slot, held)])
    case Fetch(call) =>
      var c := w.calls[call];
      w.(calls := w.calls[call := Fetched(c.slot, c.held, Since(w.rows, c.slot.key, From(c.held)), |w.rows|)])
    case Publish(call) =>
      var c := w.calls[call];
      var stood := Continue(c.held, c.entries);
      w.(checkpoint := if stood.Some? then w.checkpoint[c.slot := stood.value] else w.checkpoint,
         calls := w.calls[call := Answered(c.slot, stood, c.seen)])
    case Close(call, rationale, at) =>
      var c := w.calls[call];
      var s := c.stood.value.anchor;
      w.(rows := Appended(w.rows, c.slot.key, Entry.Close(ContextOf(s), rationale, at), Head(s.head)),
         calls := w.calls - {call})
    case Drop(call) => w.(calls := w.calls - {call})
    case Restart(process) =>
      w.(checkpoint := map slot | slot in w.checkpoint && slot.process != process :: w.checkpoint[slot])
  }

  /** A run; an event that cannot happen does not. */
  function Run(w: World, events: seq<Event>): World
    decreases |events|
  {
    if events == [] then w
    else Run(if Enabled(w, events[0]) then Next(w, events[0]) else w, events[1..])
  }

  /** Every cached checkpoint is how its anchor stood at some earlier time. */
  ghost predicate CachesHold(w: World) {
    forall slot :: slot in w.checkpoint ==> StoodOnce(w.rows, slot.key, Some(w.checkpoint[slot]))
  }

  /** What a call holds is sound; once it has read the journal, its answer is how
      the anchor stood when it did. */
  ghost predicate CallHolds(rows: seq<Row>, c: Phase) {
    match c
    case Took(slot, held) => StoodOnce(rows, slot.key, held)
    case Fetched(slot, held, entries, seen) =>
      seen <= |rows| && Continue(held, entries) == Whole(rows[..seen], slot.key)
    case Answered(slot, stood, seen) => seen <= |rows| && stood == Whole(rows[..seen], slot.key)
  }

  ghost predicate CallsHold(w: World) {
    forall call :: call in w.calls ==> CallHolds(w.rows, w.calls[call])
  }

  /** A row that closes an anchor found it open, as its entries so far fold, and
      sealed the fold's head, which is the entry just before, with its state. */
  ghost predicate LandsOnOpen(before: seq<Row>, row: Row)
    requires row.entry.Close?
  {
    match Fold(Since(before, row.key, 0))
    case None => false
    case Some(s) => !s.closed && row.entry.context == ContextOf(s) && s.head == HeadOf(before, row.key)
  }

  ghost predicate ClosesHold(rows: seq<Row>) {
    forall i :: 0 <= i < |rows| && rows[i].entry.Close? ==> LandsOnOpen(rows[..i], rows[i])
  }

  ghost predicate Sound(w: World) {
    Ordered(w.rows) && CachesHold(w) && CallsHold(w) && ClosesHold(w.rows)
  }

  lemma CallStays(rows: seq<Row>, more: seq<Row>, c: Phase)
    requires CallHolds(rows, c)
    ensures CallHolds(rows + more, c)
  {
    match c
    case Took(slot, held) => StoodOnceStays(rows, more, slot.key, held);
    case _ => assert (rows + more)[..c.seen] == rows[..c.seen];
  }

  /** New rows disturb no checkpoint and no call. */
  lemma RowsGrow(w: World, more: seq<Row>)
    requires CachesHold(w) && CallsHold(w)
    ensures CachesHold(w.(rows := w.rows + more)) && CallsHold(w.(rows := w.rows + more))
  {
    forall slot | slot in w.checkpoint ensures StoodOnce(w.rows + more, slot.key, Some(w.checkpoint[slot])) {
      StoodOnceStays(w.rows, more, slot.key, Some(w.checkpoint[slot]));
    }
    forall call | call in w.calls ensures CallHolds(w.rows + more, w.calls[call]) {
      CallStays(w.rows, more, w.calls[call]);
    }
  }

  lemma ClosesGrow(rows: seq<Row>, row: Row)
    requires ClosesHold(rows) && (row.entry.Close? ==> LandsOnOpen(rows, row))
    ensures ClosesHold(rows + [row])
  {
    forall i | 0 <= i < |rows| + 1 && (rows + [row])[i].entry.Close?
      ensures LandsOnOpen((rows + [row])[..i], (rows + [row])[i])
    {
      assert (rows + [row])[..i] == rows[..i];
      assert rows[..|rows|] == rows;
    }
  }

  /** A close that the journal lets in was judged on what the journal now holds. */
  lemma CloseIsJudgedOnNow(rows: seq<Row>, seen: nat, key: Key, s: AnchorState)
    requires Ordered(rows) && seen <= |rows|
    requires Whole(rows[..seen], key).Some? && s == Whole(rows[..seen], key).value.anchor
    ensures Permits(rows, key, Head(s.head)) <==> Since(rows, key, 0) == Since(rows[..seen], key, 0)
    ensures Permits(rows, key, Head(s.head)) ==> Fold(Since(rows, key, 0)) == Some(s)
  {
    WholeHead(rows[..seen], key);
    HeadMovesExactlyByAppending(rows, seen, key);
  }

  lemma NextCloses(w: World, call: nat, rationale: string, at: Time)
    requires Sound(w) && Enabled(w, Event.Close(call, rationale, at))
    ensures Sound(Next(w, Event.Close(call, rationale, at)))
  {
    var c := w.calls[call];
    var s := c.stood.value.anchor;
    var row := Row(c.slot.key, NextSeq(w.rows), Entry.Close(ContextOf(s), rationale, at));
    assert CallHolds(w.rows, c);
    CloseIsJudgedOnNow(w.rows, c.seen, c.slot.key, s);
    AppendedIsOrdered(w.rows, c.slot.key, row.entry, Head(s.head));
    RowsGrow(w, [row]);
    if Permits(w.rows, c.slot.key, Head(s.head)) { ClosesGrow(w.rows, row); }
  }

  lemma NextAppends(w: World, key: Key, entry: Entry, expected: Expected)
    requires Sound(w) && !entry.Close?
    ensures Sound(Next(w, Append(key, entry, expected)))
  {
    var row := Row(key, NextSeq(w.rows), entry);
    AppendedIsOrdered(w.rows, key, entry, expected);
    RowsGrow(w, [row]);
    ClosesGrow(w.rows, row);
  }

  lemma NextIsSound(w: World, e: Event)
    requires Sound(w) && Enabled(w, e)
    ensures Sound(Next(w, e))
  {
    match e
    case Append(key, entry, expected) => NextAppends(w, key, entry, expected);
    case Close(call, rationale, at) => NextCloses(w, call, rationale, at);
    case Fetch(call) =>
      var c := w.calls[call];
      assert CallHolds(w.rows, c);
      CatchingUpIsFolding(w.rows, c.slot.key, c.held);
      assert w.rows[..|w.rows|] == w.rows;
    case Publish(call) =>
      var c := w.calls[call];
      assert CallHolds(w.rows, c);
      StandsNow(w.rows, c.seen, c.slot.key);
    case _ =>
  }

  /** In every run every checkpoint, every call and every close is sound. */
  lemma {:induction false} RunIsSound(w: World, events: seq<Event>)
    requires Sound(w)
    ensures Sound(Run(w, events))
    decreases |events|
  {
    if events != [] {
      if Enabled(w, events[0]) { NextIsSound(w, events[0]); }
      RunIsSound(if Enabled(w, events[0]) then Next(w, events[0]) else w, events[1..]);
    }
  }

  lemma {:induction false} RowsOnlyGrow(w: World, events: seq<Event>)
    ensures w.rows <= Run(w, events).rows
    decreases |events|
  {
    if events != [] { RowsOnlyGrow(if Enabled(w, events[0]) then Next(w, events[0]) else w, events[1..]); }
  }

  lemma {:induction false} RunComposes(w: World, a: seq<Event>, b: seq<Event>)
    ensures Run(w, a + b) == Run(Run(w, a), b)
    decreases |a|
  {
    if a == [] {
      assert a + b == b;
    } else {
      assert (a + b)[1..] == a[1..] + b;
      RunComposes(if Enabled(w, a[0]) then Next(w, a[0]) else w, a[1..], b);
    }
  }

  /** Whether an event moves a call on past having read the journal. */
  predicate Keeps(e: Event, call: nat) {
    match e
    case Take(c, _) => c != call
    case Fetch(c) => c != call
    case Close(c, _, _) => c != call
    case Drop(c) => c != call
    case _ => true
  }

  /** Until a call ends, it remembers when it read. */
  lemma {:induction false} MarkStays(w: World, events: seq<Event>, call: nat)
    requires call in w.calls && !w.calls[call].Took?
    requires forall i :: 0 <= i < |events| ==> Keeps(events[i], call)
    ensures var v := Run(w, events);
            && call in v.calls && !v.calls[call].Took?
            && v.calls[call].seen == w.calls[call].seen && v.calls[call].slot == w.calls[call].slot
    decreases |events|
  {
    if events != [] {
      MarkStays(if Enabled(w, events[0]) then Next(w, events[0]) else w, events[1..], call);
    }
  }

  /** Whatever happens before a call reads the journal, and whatever happens after,
      what it returns is the fold, and the count of sightings, of the anchor's whole
      log as it was when the call read it. */
  lemma AnswersAreFoldsAtFetch(before: seq<Event>, after: seq<Event>, call: nat)
    requires var w := Run(START, before); Enabled(w, Fetch(call))
    requires forall i :: 0 <= i < |after| ==> Keeps(after[i], call)
    ensures var w := Run(START, before);
            var v := Run(START, before + [Fetch(call)] + after);
            && call in v.calls
            && (v.calls[call].Answered? ==>
                  v.calls[call].stood == Whole(w.rows, w.calls[call].slot.key))
  {
    var w := Run(START, before);
    var u := Next(w, Fetch(call));
    RunComposes(START, before, [Fetch(call)]);
    assert Run(w, [Fetch(call)]) == u by { assert [Fetch(call)][1..] == []; }
    RunComposes(START, before + [Fetch(call)], after);
    MarkStays(u, after, call);
    RowsOnlyGrow(u, after);
    RunIsSound(START, before + [Fetch(call)] + after);
    var v := Run(START, before + [Fetch(call)] + after);
    assert CallHolds(v.rows, v.calls[call]);
    assert v.rows[..|w.rows|] == w.rows;
  }

  /** In every run a cached checkpoint is the fold of some prefix of the journal. */
  lemma CachesArePrefixFolds(events: seq<Event>, slot: Slot)
    requires slot in Run(START, events).checkpoint
    ensures var w := Run(START, events);
            exists n :: 0 <= n <= |w.rows| && Some(w.checkpoint[slot]) == Whole(w.rows[..n], slot.key)
  {
    RunIsSound(START, events);
    var w := Run(START, events);
    assert StoodOnce(w.rows, slot.key, Some(w.checkpoint[slot]));
  }

  // ---- Closes ------------------------------------------------------------------------------

  /** In every run, an author's close is of an anchor that stood open, and its
      context names the entry just before it. */
  lemma ClosesLandOnOpen(events: seq<Event>, i: nat)
    requires i < |Run(START, events).rows| && Run(START, events).rows[i].entry.Close?
    ensures var rows := Run(START, events).rows;
            LandsOnOpen(rows[..i], rows[i])
  {
    RunIsSound(START, events);
  }

  ghost predicate OpensBetween(rows: seq<Row>, i: int, j: int, key: Key) {
    exists m :: 0 <= i < m < j <= |rows| && rows[m].key == key && rows[m].entry.Open?
  }

  ghost predicate ClosedNow(rows: seq<Row>, key: Key) {
    match Fold(Since(rows, key, 0)) case Some(s) => s.closed case None => false
  }

  lemma FoldSnoc(rows: seq<Row>, row: Row, key: Key)
    ensures Fold(Since(rows + [row], key, 0)) ==
            if row.key == key then Step(Fold(Since(rows, key, 0)), row.sequence, row.entry)
            else Fold(Since(rows, key, 0))
  {
    SinceSplits(rows, [row], key, 0);
    assert [row][1..] == [];
    if row.key == key {
      assert Since([row], key, 0) == [(row.sequence, row.entry)];
      assert [(row.sequence, row.entry)][1..] == [];
      ResumeComposes(None, Since(rows, key, 0), [(row.sequence, row.entry)]);
    } else {
      assert Since(rows, key, 0) + [] == Since(rows, key, 0);
    }
  }

  /** After a close, an anchor stays closed until it opens again. */
  lemma {:induction false} ClosedUntilOpened(rows: seq<Row>, i: nat, j: nat)
    requires i < j <= |rows| && rows[i].entry.Close? && LandsOnOpen(rows[..i], rows[i])
    ensures ClosedNow(rows[..j], rows[i].key) || OpensBetween(rows, i, j, rows[i].key)
    decreases j
  {
    var key := rows[i].key;
    assert rows[..j] == rows[..j - 1] + [rows[j - 1]];
    FoldSnoc(rows[..j - 1], rows[j - 1], key);
    if j > i + 1 {
      ClosedUntilOpened(rows, i, j - 1);
      if !ClosedNow(rows[..j - 1], key) {
        var m :| 0 <= i < m < j - 1 <= |rows| && rows[m].key == key && rows[m].entry.Open?;
        assert i < m < j;
      }
    }
  }

  /** In every run there is at most one author's close per generation: between any
      two of one anchor, the anchor opened. */
  lemma OneClosePerGeneration(events: seq<Event>, i: nat, j: nat)
    requires var rows := Run(START, events).rows;
             && i < j < |rows| && rows[i].entry.Close? && rows[j].entry.Close?
             && rows[i].key == rows[j].key
    ensures var rows := Run(START, events).rows; OpensBetween(rows, i, j, rows[i].key)
  {
    var rows := Run(START, events).rows;
    ClosesLandOnOpen(events, i);
    ClosesLandOnOpen(events, j);
    ClosedUntilOpened(rows, i, j);
  }

  lemma RunOne(events: seq<Event>, e: Event)
    requires Enabled(Run(START, events), e)
    ensures Run(START, events + [e]) == Next(Run(START, events), e)
  {
    RunComposes(START, events, [e]);
    assert [e][1..] == [];
  }

  /** The checkpoint of an anchor after a run, by how many sightings it counts. */
  function CountedBy(events: seq<Event>, slot: Slot): nat {
    var w := Run(START, events);
    if slot in w.checkpoint then w.checkpoint[slot].logged else 0
  }

  lemma TwoSightings(rows: seq<Row>, key: Key, e: Entry, f: Entry)
    requires rows == [Row(key, 1, e), Row(key, 2, f)] && e.Open? && f.Still?
    ensures Since(rows[..1], key, 0) == [(1, e)] && Since(rows, key, 0) == [(1, e), (2, f)]
    ensures Whole(rows[..1], key).Some? && Whole(rows[..1], key).value.logged == 1
    ensures Whole(rows, key).Some? && Whole(rows, key).value.logged == 2
  {
    assert rows == rows[..1] + [Row(key, 2, f)];
    assert rows[..1][1..] == [] && [Row(key, 2, f)][1..] == [];
    SinceSplits(rows[..1], [Row(key, 2, f)], key, 0);
    assert [(1, e)][1..] == [] && [(2, f)][1..] == [];
    ResumeComposes(None, [(1, e)], [(2, f)]);
  }

  /** A slow call may put an older checkpoint over a newer one. */
  lemma CheckpointsMayGoBack(e: Entry, f: Entry, slot: Slot)
    requires e.Open? && f.Still?
    ensures exists events :: CountedBy(events, slot) == 2 && CountedBy(events + [Publish(1)], slot) == 1
  {
    var key := slot.key;
    var s1 := [] + [Append(key, e, Any)];
    RunOne([], Append(key, e, Any));
    var s2 := s1 + [Take(1, slot)];
    RunOne(s1, Take(1, slot));
    var s3 := s2 + [Fetch(1)];
    RunOne(s2, Fetch(1));
    var s4 := s3 + [Append(key, f, Any)];
    RunOne(s3, Append(key, f, Any));
    var s5 := s4 + [Take(2, slot)];
    RunOne(s4, Take(2, slot));
    var s6 := s5 + [Fetch(2)];
    RunOne(s5, Fetch(2));
    var s7 := s6 + [Publish(2)];
    RunOne(s6, Publish(2));
    var rows := Run(START, s4).rows;
    assert rows[..1] == Run(START, s1).rows;
    TwoSightings(rows, key, e, f);
    RunOne(s7, Publish(1));
  }
}
