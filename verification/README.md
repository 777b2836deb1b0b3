# gmr, modelled

gmr watches facts about a repository. A probe surveys a tree of files into candidates; an
anchor names one of them by a coordinate, keeps a journal of how it stood each time it was
looked at, and moves by rules written in a small expression language. This project models
the parts of it that everything else rests on, and proves what they are for.

- **The expression language** (`Ast`, `Grammar`, `Parser`, `Printed`, `Parsed`, `Precedence`,
  `Evaluator`, `Laws`). A cursor climbs through operator levels; the grammar it follows is a set of functions on
  text. Of the nodes whose literals the grammar can write, exactly the printable ones survive
  printing and parsing, and how a row of operators groups is said apart from the grammar. The
  evaluator has values, absences and faults; what quantifiers mean, and how negation passes
  through them, is proved apart from how they are computed.
- **What is read off rules before they run** (`Reads`, `Contract`, `Literals`, `Delivery`). Reads of the
  observation, reads of other anchors and paths written are each proved to cover what
  evaluation does, with the expressions they miss shown by example or delimited exactly. A
  watch list is compiled to source text, and the text is proved to answer what was listed.
- **Content addresses** (`Addr`, `Canonical`). The canonical writer is proved injective, and
  independent of the order of fields, up to the depth at which it refuses. It is the code's
  own form: it sorts keys by code point and prints doubles through `ryu`, where RFC 8785
  sorts by UTF-16 units (section 3.2.3) and prints as ECMAScript does (section 3.2.2.3).
- **The journal and its checkpoints** (`Journal`, `Log`). The fold of a journal is proved equal
  to a closed form. A call takes a checkpoint, reads the journal and publishes a new
  checkpoint in separate steps; over every interleaving of such calls with writers, closes,
  drops and restarts, answers are the fold as of the call's read, and an author's close lands on
  an open anchor, at most once for each time it opens.
- **Budgets** (`Budget`). Flags on the heap are proved to carry cancellation down a tree of
  calls and never up, over every history of minting, narrowing, copying and cancelling.
- **The survey** (`Walk`, `Matching`, `Index`, `Remembered`, `Sqlite`, `Conformance`, `Corpus`, `Refresh`,
  `Digests`, `Bridge`, `Recipe`, `Visit`). The walk's order is the order of a sort key. Two
  indexes, one of maps and one of four flat tables with postings, are proved to hold and to
  answer the same after any run of operations. A rescan applied in three calls, any of which
  may fault, is proved to leave the index mirroring the tree, exactly if what was passed on a
  stamp or a digest is what would be made again; that every refresh does so is the same as
  contents of one digest being collected alike. A look on the rows a position asks for is
  proved to say what the whole corpus of the tree would, exactly where the recipe lets it,
  and this is followed through any life of the index.
- **name-map** (`NameMap`, `Ordered`, `Utf8`). The one probe that both folds its fragments and narrows:
  its scopes, its counting and its fold are proved to say how often each name is used under
  each directory, and its fold to be one that may be narrowed. Its digest is of lossy text and
  it collects strict text, and the edits that it misses for that are given exactly.

Methods follow the code step by step and are proved against functions; the lemmas about those
functions carry the properties. `Text`, `Json` and `Wrappers` hold what the rest shares.

## Notation

A text is a sequence of characters, compared by code point as Rust compares bytes of UTF-8.
JSON objects are maps, since two that hold the same fields are equal in whatever order they
were written; only the canonical writer sees that order.

Where the code and its own words disagree, the model follows the code. `Bridge::populated`
asks whether any file is held under the root, while the test double in `testkit.rs` asks for a
file with fragments; the bridge is modelled.

## Model

| member | source | states |
|---|---|---|
| Cursor.ParseSource | crates/gmr-expr/src/parse.rs:30-45 | a source parses to what the grammar gives it, or not at all; nothing but space may follow |
| Cursor.Parser.constructor | crates/gmr-expr/src/parse.rs:31-34 | a parser starts at the front of its text |
| Cursor.Parser.SkipSpace | crates/gmr-expr/src/parse.rs:91-95 | the cursor moves past the space before it and no further |
| Cursor.Parser.Token | crates/gmr-expr/src/parse.rs:97-115 | a token is eaten exactly where the text begins with it, a word only where no longer word begins; otherwise the cursor stays |
| Cursor.Parser.Operator | crates/gmr-expr/src/parse.rs:59-74 | the first operator of a level that the text begins with |
| Cursor.Parser.Expr | crates/gmr-expr/src/parse.rs:117-135 | the climbing loop groups the operators of a level to the left, tighter levels first |
| Cursor.Parser.Unary | crates/gmr-expr/src/parse.rs:137-148 | `not` and `-` bind to the operand that follows |
| Cursor.Parser.Atom | crates/gmr-expr/src/parse.rs:150-170 | what an operand is, by its first character |
| Cursor.Parser.ObjectLiteral | crates/gmr-expr/src/parse.rs:172-211 | fields in order, no key twice, a comma allowed before the end |
| Cursor.Parser.ArrayLiteral | crates/gmr-expr/src/parse.rs:213-235 | items in order, a comma allowed before the end |
| Cursor.Parser.StringLiteral | crates/gmr-expr/src/parse.rs:237-253 | everything up to the next quote, with no escapes |
| Cursor.Parser.Number | crates/gmr-expr/src/parse.rs:255-283 | digits, a point and a unit of time, the unit only where no word runs on |
| Cursor.Parser.Word | crates/gmr-expr/src/parse.rs:285-334 | a constant, a call, a quantifier or a named slot |
| Cursor.Parser.QuantifierBody | crates/gmr-expr/src/parse.rs:336-374 | a quantifier ranges over `anchors` and nothing else |
| Cursor.Parser.ChangedName | crates/gmr-expr/src/parse.rs:376-391 | `changed` takes one quoted name |
| Cursor.Parser.Steps | crates/gmr-expr/src/parse.rs:393-426 | fields and indices in turn until neither follows |
| Printed.RoundTrip | crates/gmr-expr/src/ast.rs:212-238 | parsing what a printable node prints as gives that node back, for every printable node |
| Printed.PathPrinted | crates/gmr-expr/src/ast.rs:40-56 | a path prints to text that is read back as that path, whatever may follow it |
| Parsed.ParsedIsWellFormed | crates/gmr-expr/src/parse.rs:30-426 | everything parsed has identifiers for fields, indices that fit a word, no key twice, no negative literal, and no text, key or `changed` name with a quote |
| Parsed.ReparsedIsSame | crates/gmr-expr/src/parse.rs:30-45 | printing what was parsed and parsing it again changes nothing where it is printable |
| Parsed.RoundTripsExactly | crates/gmr-expr/src/ast.rs:212-238 | of all nodes whose literals are null, boolean, whole or text, exactly the printable ones print to text that parses back to them |
| Parsed.ParsedWeighs | crates/gmr-expr/src/parse.rs:30-426 | the quotes in a source, less its backslashes, are no fewer than its parsed texts, `changed` names and keys that are no identifiers took to write |
| Precedence.RowsGroup | crates/gmr-expr/src/parse.rs:117-135 | operands in a row with any operators between them parse grouped: the last of the loosest operators is outermost, and so on either side of it |
| Evaluator.Evaluate | crates/gmr-expr/src/eval.rs:50-77 | the evaluator computes the three-valued meaning of every node |
| Evaluator.WalkSteps | crates/gmr-expr/src/eval.rs:162-195 | the walk stops at the first null, missing field or misfit, each with its own outcome |
| Evaluator.Quantify | crates/gmr-expr/src/eval.rs:79-103 | the counters end as the tally over all the anchors |
| Evaluator.BuildObject | crates/gmr-expr/src/eval.rs:129-143 | fields are evaluated in order; an absence is kept as null and a fault ends the object |
| Evaluator.BuildArray | crates/gmr-expr/src/eval.rs:117-127 | items are evaluated in order; an absence is kept as null and a fault ends the array |
| Laws.QuantifiersMean | crates/gmr-expr/src/eval.rs:79-103 | any, all and count speak of the anchors whose body answers; none answering is an absence, and the fault is that of the first anchor that spoils the count |
| Laws.QuantifierDuality | crates/gmr-expr/src/eval.rs:79-103 | not all is any not and not any is all not, faults and absences included |
| Laws.DeMorgan | crates/gmr-expr/src/eval.rs:233-246 | not both is either not and not either is neither, with short circuits, faults and absences |
| Laws.TwiceNegated | crates/gmr-expr/src/eval.rs:58-62 | negating twice changes nothing exactly where the operand is not a value other than a boolean |
| Laws.ComparisonsAgree | crates/gmr-expr/src/eval.rs:197-223 | where two values compare, the four comparisons follow from one of them, and equal values are neither less nor greater |
| Laws.AlikeIsNotEqual | crates/gmr-expr/src/eval.rs:214-222 | a whole number and a fraction of one size are each at most the other and are not equal |
| Reads.CollectObs | crates/gmr-expr/src/ast.rs:182-210 | the set grows by exactly the reads of the node |
| Reads.ReadsObsSound | crates/gmr-expr/src/ast.rs:176-210 | two object observations that agree along every listed path give one value, absence or fault |
| Reads.PathsListTheirReadsExactly | crates/gmr-expr/src/ast.rs:184-197 | a path lists its reads exactly if it is not the whole of `obs` |
| Reads.ChangedListsItsReadExactly | crates/gmr-expr/src/ast.rs:198-200 | a `changed` lists its read exactly if its name holds no dot |
| Reads.ReadsAnchorsSound | crates/gmr-expr/src/ast.rs:163-174 | an expression that is said not to reach the anchors learns only how many there are, where no quantifier has a `changed` in its body, or a quantifier whose own body reads state |
| Reads.QuantifiedChangedReachesUnseen | crates/gmr-expr/src/ast.rs:163-174 | every quantified `changed` tells anchors apart unseen |
| Reads.NestedQuantifierReachesUnseen | crates/gmr-expr/src/ast.rs:151-161 | any quantifier over a path of the state, in the body of any quantifier, tells anchors apart unseen |
| Contract.GatherReads | console/cli/src/contract.rs:7-17 | the reads of both sides of every rule, unless one does not parse |
| Contract.CoveredAgrees | crates/gmr-core/src/probe.rs:187-196 | a covered read depends only on the declared field that covers it |
| Contract.DeclaredFieldsDecide | console/cli/src/contract.rs:109-116 | where nothing is unmet, fields outside the declaration change no answer of any rule |
| Contract.Construct | console/cli/src/contract.rs:58-73 | the paths an object literal writes, and those under which it writes what is not known |
| Contract.GatherWrites | console/cli/src/contract.rs:48-56 | the writes of every rule, unless one does not parse |
| Contract.DoesReach | console/cli/src/contract.rs:26-41 | the loop over prefixes finds a path reached or sealed |
| Contract.WrittenIsReached | console/cli/src/contract.rs:58-73 | any dotted path present in what an object literal evaluates to is reached |
| Contract.UnwritableIsNeverWritten | console/cli/src/delivery.rs:57-66 | a path refused as unwritable is in no state that a rule constructs |
| Contract.ReachedExactlyIfNamed | console/cli/src/contract.rs:26-41 | a literal of one field that holds the state has all it writes reached exactly if its key is not empty and does not begin with a dot |
| Contract.UnnamedKeyIsMissed | console/cli/src/contract.rs:58-73 | whatever the state holds under a key that is empty or begins with a dot is written and not reached |
| Contract.KeepsAsParsed | crates/gmr-expr/src/parse.rs:172-211 | that literal is what its text parses to, for every key that can stand in quotes |
| Contract.BareStateWritesUnseen | console/cli/src/contract.rs:59-64 | a rule that moves to the whole of the state writes unseen: any path there is may be in what it evaluates to, and none is reached |
| Literals.OpenIsReachedExactly | console/cli/src/contract.rs:26-73 | an object literal, nested or not, whose values are the state or constants has all it writes reached, in every state, exactly if each field is reached and each field that holds the state is under a sealed prefix |
| Delivery.AxesParsed | console/cli/src/delivery.rs:35-47 | the text generated for a list of axes parses to their disjunction |
| Delivery.WatchAnswersItsAxes | console/cli/src/delivery.rs:19-55 | over settled axes a compiled watch never faults and is true exactly if a watched axis is set |
| Addr.Canonicalize | crates/gmr-core/src/addr.rs:136-140 | writing comes through exactly if no node lies under more than 1024 containers, and gives the canonical form |
| Addr.Canonicalizer.WriteValue | crates/gmr-core/src/addr.rs:173-186 | a value is appended whole or refused for its depth, and the depth is as before either way |
| Addr.Canonicalizer.WriteItems | crates/gmr-core/src/addr.rs:200-215 | items in order between brackets |
| Addr.Canonicalizer.WriteEntries | crates/gmr-core/src/addr.rs:217-238 | entries in order of key between braces |
| Addr.Canonicalizer.NumberString | crates/gmr-core/src/addr.rs:240-282 | a number's text without trailing zeros and without a sign on zero, its exponent untouched |
| Canonical.CanonicalIsInjective | crates/gmr-core/src/addr.rs:173-238 | documents with one canonical form are the same, objects in any order and numbers by their stripped text |
| Canonical.SameIsCanonical | crates/gmr-core/src/addr.rs:217-238 | the same document in any order of fields has one canonical form |
| Canonical.CanonicalTellsApart | crates/gmr-core/src/addr.rs:136-140 | canonical forms are equal exactly for the same document |
| Canonical.NormalKeepsValue | crates/gmr-core/src/addr.rs:254-276 | stripping a number's text keeps its value |
| Canonical.CanonicalMeansOneValue | crates/gmr-core/src/addr.rs:136-140 | documents with one canonical form are one JSON value |
| Canonical.OneTextExactlyIfOneExponent | crates/gmr-core/src/addr.rs:240-282 | numbers of one value have one text exactly if they are written with one power of ten, whole numbers being written with none |
| Canonical.CanonicalIsValue | crates/gmr-core/src/addr.rs:136-140 | among documents that write equal numbers with equal powers of ten, one canonical form is exactly one JSON value |
| Canonical.ScaledNumbersHaveTwoForms | crates/gmr-core/src/addr.rs:240-282 | a whole number that is also held as a double written with a power of ten has two forms, for every number and every such power |
| Journal.Replay | crates/gmr-core/src/journal.rs:291-378 | the loop over entries folds them and counts the sightings its callback is shown |
| Journal.ResumeComposes | crates/gmr-core/src/journal.rs:291-378 | folding may be broken off and resumed anywhere, state and count |
| Journal.FoldIsClosedForm | crates/gmr-core/src/journal.rs:280-378 | head, anchor, state, observation, sighting, the failures since with the last of them, the one entry of the last move, revisions since the last open and closedness are each named by the entries |
| Journal.AttemptsChangeOnlyHead | crates/gmr-core/src/journal.rs:344-358 | deleting every attempt changes only the head and the failures |
| Journal.ClosedStays | crates/gmr-core/src/journal.rs:364-374 | once closed, closed until it opens again |
| Ledger.Store.Append | crates/gmr-store/src/sqlite/journal.rs:97-136 | an entry goes in at the end exactly if the head expected is the anchor's head |
| Ledger.Store.Entries | crates/gmr-store/src/sqlite/journal.rs:53-75 | an anchor's entries from a sequence on, in order |
| Ledger.HeadMovesExactlyByAppending | crates/gmr-store/src/journal.rs:67-84 | since an earlier time an anchor's head differs exactly if entries were appended to it |
| Checkpoint.AnchorLog.Stood | crates/gmr-runtime/src/log.rs:38-66 | uninterrupted, a call returns the fold and the count of the whole log, from any sound checkpoint |
| Checkpoint.AnchorLog.Publish | crates/gmr-runtime/src/log.rs:48-65 | the entries read are folded on, and the checkpoint overwritten if the anchor ever opened |
| Checkpoint.AnchorLog.Close | crates/gmr-runtime/src/close.rs:17-51 | uninterrupted, a close lands exactly on an anchor that stands open, sealing its head, state and time entered |
| Checkpoint.CatchingUpIsFolding | crates/gmr-runtime/src/log.rs:38-66 | catching up from any earlier checkpoint is folding the whole log |
| Checkpoint.RunIsSound | crates/gmr-runtime/src/log.rs:38-66 | every interleaving of appends, takes, reads, publishes, closes, drops and restarts keeps checkpoints, calls and closes sound |
| Checkpoint.AnswersAreFoldsAtFetch | crates/gmr-runtime/src/log.rs:38-66 | whatever happens before and after, a call answers with the fold and count of the whole log as it was when the call read it |
| Checkpoint.CachesArePrefixFolds | crates/gmr-runtime/src/log.rs:20-23 | every cached checkpoint is the fold and count of some prefix of the log |
| Checkpoint.CheckpointsMayGoBack | crates/gmr-runtime/src/log.rs:60-64 | a slow call may put an older checkpoint over a newer one |
| Checkpoint.ClosesLandOnOpen | crates/gmr-runtime/src/close.rs:23-50 | in every run an author's close is of an anchor that stood open, and its context names the entry just before |
| Checkpoint.OneClosePerGeneration | crates/gmr-runtime/src/close.rs:29-50 | in every run an anchor opens between any two of its author's closes |
| Checkpoint.CloseIsJudgedOnNow | crates/gmr-runtime/src/close.rs:39-48 | a close is let in exactly if the log is still what it was judged on |
| Budgets.Budget.Checkpoint | crates/gmr-budget/src/lib.rs:79-95 | cancelled exactly if a flag held is raised, out of time only if none is |
| Budgets.Budget.NarrowedTo | crates/gmr-budget/src/lib.rs:66-73 | a flag of its own, the parent's flags, and the earlier deadline |
| Budgets.Budget.Cancel | crates/gmr-budget/src/lib.rs:75-77 | the flag is raised |
| Budgets.NoBudgetOutlastsItsLine | crates/gmr-budget/src/lib.rs:66-73 | no budget's deadline is after that of any budget above it |
| Budgets.NeverUp | crates/gmr-budget/src/lib.rs:66-73 | of two different budgets at most one hears the other's cancellation |
| Budgets.Play | crates/gmr-budget/src/lib.rs:62-95 | over every history of minting, narrowing, copying and cancelling, a checkpoint says cancelled exactly if the budget, a copy of it, or one above it was cancelled |
| Walk.SortKeyInjective | batteries/survey/src/walk.rs:37-39 | paths without the separator's key have different sort keys |
| Walk.FilesAscend | batteries/survey/src/walk.rs:41-71 | the walk hands files over in strictly ascending order of sort key |
| Walk.SortingIsWalking | batteries/survey/src/walk.rs:37-71 | however a tree's files are listed, sorting them by sort key gives the walk |
| Walk.FoundExactlyWhereLying | batteries/survey/src/walk.rs:48-71 | the walk finds exactly the files along names none of which is skipped |
| Index.DoneKeyed | batteries/survey/src/index.rs:155-185 | every operation keeps files under the sort keys of their paths and rows under their ordinals |
| Index.OneListing | batteries/survey/src/testkit.rs:40-53 | there is one listing of selected rows in order of place |
| Index.SortedIsListing | batteries/survey/src/testkit.rs:40-60 | rows read once each and sorted by place are the listing, where files are keyed by path |
| Remembers.Remembered.Write | batteries/survey/src/testkit.rs:97-112 | the generation is unsealed and each file replaced |
| Remembers.Remembered.Restamp | batteries/survey/src/testkit.rs:114-126 | known files take their new stamps, others nothing |
| Remembers.Remembered.Forget | batteries/survey/src/testkit.rs:128-134 | the files named are gone |
| Remembers.Remembered.Seal | batteries/survey/src/testkit.rs:136-145 | a generation written into is sealed, another refused |
| Remembers.Remembered.Discard | batteries/survey/src/testkit.rs:158-163 | the generation and its files are gone |
| Remembers.Remembered.Known | batteries/survey/src/testkit.rs:76-95 | hash and stamp of each file of the generation |
| Remembers.Remembered.Built | batteries/survey/src/testkit.rs:63-74 | how many files and rows, and when sealed |
| Remembers.Remembered.Generations | batteries/survey/src/testkit.rs:147-156 | every generation written into, with what was built |
| Remembers.Remembered.Rows | batteries/survey/src/testkit.rs:165-171 | the listing of the rows under a root |
| Remembers.Remembered.Union | batteries/survey/src/testkit.rs:173-189 | the listing of the rows under a root that carry a wanted pair |
| Sqlite.SqliteIndex.Write | batteries/survey/src/sqlite.rs:318-399 | all the files are replaced or, if one has two rows of one ordinal, nothing changes; postings stay the exact image of coordinates |
| Sqlite.PutFile | batteries/survey/src/sqlite.rs:360-394 | one file's postings, candidates and columns are replaced, refused exactly for two rows of one ordinal |
| Sqlite.PutRow | batteries/survey/src/sqlite.rs:377-392 | a candidate and a posting for each pair it carries, refused exactly where its cell is taken |
| Sqlite.SqliteIndex.Restamp | batteries/survey/src/sqlite.rs:401-425 | as the simple index, on the tables |
| Sqlite.SqliteIndex.Forget | batteries/survey/src/sqlite.rs:427-441 | postings, candidates and files of the paths go, and nothing else |
| Sqlite.SqliteIndex.Seal | batteries/survey/src/sqlite.rs:443-455 | a generation written into is sealed at the whole second |
| Sqlite.WholeSecondsSurvive | batteries/survey/src/sqlite.rs:225-230 | a sealing time is read back as it was exactly if it is a whole second |
| Sqlite.SqliteIndex.Discard | batteries/survey/src/sqlite.rs:485-498 | every row of the generation goes from all four tables |
| Sqlite.SqliteIndex.Known | batteries/survey/src/sqlite.rs:289-316 | hash and stamp of each file, read from its columns |
| Sqlite.SqliteIndex.Built | batteries/survey/src/sqlite.rs:269-287 | counts of files and candidates, and when sealed |
| Sqlite.SqliteIndex.Generations | batteries/survey/src/sqlite.rs:457-483 | every generation with what was built |
| Sqlite.SqliteIndex.Rows | batteries/survey/src/sqlite.rs:500-524 | the listing of the rows under a root |
| Sqlite.SqliteIndex.Union | batteries/survey/src/sqlite.rs:526-566 | one query for each pair, merged by place, gives exactly the rows that carry a wanted pair, in order and once each |
| Sqlite.MergeIn | batteries/survey/src/sqlite.rs:553-558 | a place already taken keeps what it has, and every new place is filled |
| Sqlite.OneRowForAPlace | batteries/survey/src/sqlite.rs:541-558 | merging by place gives one row for each place, so files that share a sort key lose rows |
| Sqlite.FilterIsUnderExactlyForAscii | batteries/survey/src/sqlite.rs:183-192 | the filter on paths is the one the index is to apply exactly for ASCII roots |
| Sqlite.BeneathPastAscii | batteries/survey/src/sqlite.rs:512-517 | bound to a length in bytes, the filter passes nothing under a root past ASCII |
| Conformance.Compare | batteries/survey/src/index.rs:155-185 | after any run of operations the four tables and the simple index give the same answers, and the right ones |
| Corpus.Scanner.One | batteries/survey/src/corpus.rs:75-112 | one file is passed, kept, restamped, read anew or refused, after the budget is asked |
| Corpus.Scanner.Descend | batteries/survey/src/walk.rs:48-71 | files are visited in the order of the walk until one halts it |
| Corpus.RescanTree | batteries/survey/src/corpus.rs:65-129 | what is fresh, restamped and gone, or why the walk halted |
| Refresh.MirrorsExactlyIfHeldIsMade | batteries/survey/src/bridge.rs:89-123 | after any refresh that came through, whatever its stamps and digests tell, the generation holds exactly what the probe makes of the tree if and only if every file passed on its stamp or its digest can be collected and what is held of it, under its new stamp, is what the probe makes of it |
| Refresh.MirrorsExactlyIfUnaltered | batteries/survey/src/bridge.rs:89-123 | where the contents a path has had are read alike if their digests are equal, that is if and only if every file passed on its stamp alone was unaltered |
| Refresh.EveryRefreshMirrors | batteries/survey/src/bridge.rs:89-123 | after any history of edits and of refreshes come through or faulted, over which stamps and digests tell a path's contents, a refresh that comes through mirrors the tree as it is |
| Refresh.WalkedIsGrounded | batteries/survey/src/bridge.rs:89-123 | whether it came through or faulted midway, a refresh leaves every row backed by contents and every stamp by a time |
| Refresh.RefreshIsRebuild | batteries/survey/src/bridge.rs:89-123 | a mirrored generation is what a rebuild from nothing gives, and the rebuild comes through |
| Refresh.OneMirror | batteries/survey/src/bridge.rs:89-123 | only one set of files mirrors a tree |
| Refresh.WalkedAgain | batteries/survey/src/bridge.rs:127-140 | what is remembered would be the same again: on a tree that stays still, after a walk that came through or was refused, a walk under any budget and any fault comes to the same and leaves the files as they were, unless it is halted in passing |
| Digests.KeepsUpExactlyIfReadAlike | batteries/survey/src/corpus.rs:87-101 | over every history in which stamps tell, every refresh that comes through mirrors the tree exactly if contents of one digest at an eligible path are collected alike |
| Digests.EditIsMissed | batteries/survey/src/corpus.rs:96-101 | any two contents of one digest that are not collected alike give a history of two refreshes, both come through, after which the index still holds what was made of the first |
| Digests.KeepsUpExactlyIfReadByText | batteries/survey/src/corpus.rs:96 | where the digest is of the lossy text and tells texts apart, that is exactly if contents of one lossy text are collected alike |
| Digests.RefreshesAtOnceGoWrong | batteries/survey/src/bridge.rs:89-123 | of two refreshes of one generation at once, over a touch and an edit, the restamp of the one lands over the write of the other, and the next refresh comes through on a tree it does not mirror, though stamps told contents all along |
| Bridging.Bridge.Walk | batteries/survey/src/bridge.rs:89-123 | known, rescan, write, restamp and forget, each fault leaving what went before it |
| Bridging.Bridge.Refresh | batteries/survey/src/bridge.rs:127-140 | a walk remembered is not done again; one that came through or was refused for a reason that is no passing one is remembered, and no other |
| Bridging.Bridge.Retain | batteries/survey/src/bridge.rs:76-85 | exactly the generations not kept are dropped |
| Bridging.Bridge.Populated | batteries/survey/src/bridge.rs:142-146 | whether some file is held under the root |
| Bridging.Bridge.Whole | batteries/survey/src/bridge.rs:148-152 | the fragments of the rows listed under the root |
| Bridging.Bridge.Touching | batteries/survey/src/bridge.rs:154-158 | the fragments of the rows listed that carry a wanted pair |
| Matching.ReportIsOnTheNthWinner | batteries/survey/src/matching.rs:95-168 | the report is on the nth, in corpus order, of the candidates that may be named and that none such outdoes; too few is refused, none is an answer |
| Matching.OutdoesIsAbove | batteries/survey/src/matching.rs:102-106 | the order of hit vectors is by the first wanted pair two candidates differ on |
| Matching.MatchedAndMissedPartition | batteries/survey/src/matching.rs:148-152 | matched and missed make up what was wanted, name by name |
| Matching.OnlyTheEligibleCount | batteries/survey/src/matching.rs:95-168 | reordering a corpus or adding candidates that are not eligible changes only which of the tied is reported |
| Matching.RearrangedAndExtended | batteries/survey/src/matching.rs:116-119 | a rearrangement extended by candidates that may not be named has the same eligible candidates |
| Matching.RollOfSame | batteries/survey/src/matching.rs:63-67 | the roll does not depend on the order of the tied |
| Matching.ReportsTellWinnersApart | batteries/survey/src/matching.rs:95-168 | whichever of the tied is asked for, the same is reported of two corpora exactly if their winners have the same coordinates and facts in order, and the same roll |
| Looking.NarrowedLookIsWhole | batteries/survey/src/recipe.rs:39-72 | for any recipe, whichever of the tied is asked for, a look on the fragments asked for is a look on all exactly if both are refused alike or neither is and their winners are alike |
| Looking.NarrowingIsExactlySafe | batteries/survey/src/recipe.rs:30-37 | a recipe that does not fold may be narrowed on every corpus exactly if every identity item wanted is narrowed on, or nothing is |
| Looking.UnsafeNarrowingMisses | batteries/survey/src/recipe.rs:49-53 | where an identity item wanted is not narrowed on, a corpus is missed that the whole would report |
| Looking.MirrorListsTheCorpus | batteries/survey/src/bridge.rs:148-152 | an index that mirrors a tree lists the rows of its files in the order of the walk |
| Looking.UnionIsTouched | batteries/survey/src/narrow.rs:7-9 | what the index answers for wanted pairs is its listing, those left out that carry none |
| Looking.RefreshedIsReady | batteries/survey/src/bridge.rs:127-140 | on a tree that stays still, a refresh or a walk remembered leaves a mirror of it |
| Looking.LiveIsReady | batteries/survey/src/bridge.rs:89-123 | after any life of the index a look may take for granted what it has to: rows and stamps are grounded and files keyed by path |
| Looking.Look | batteries/survey/src/recipe.rs:39-72 | a look says what is made of the part of the corpus of the tree as it is now that was asked for, and, where narrowing is safe on it, what the whole corpus says |
| Visits.Lived | batteries/survey/src/bridge.rs:89-123 | the tables, put through any edits, refreshes, faults and writes elsewhere, hold what the history says |
| Visits.Visit | batteries/survey/src/recipe.rs:39-72 | after any life of the index, every look at the tree as it then is answers from the corpus of that tree, unless its refresh did not come through |
| Visits.OnceThroughAlwaysThrough | batteries/survey/src/bridge.rs:127-140 | over a still tree a walk that came through is not done again, whatever would have faulted |
| NameMap.Scopes | packs/coding/extract/src/name.rs:23-39 | the slices taken of a path are its scopes, or the path is refused for an empty component |
| NameMap.ScopesHoldThePath | packs/coding/extract/src/name.rs:23-39 | a path with no empty component has exactly the scopes it lies in: everything, each directory above it, and itself; any other is refused |
| NameMap.Merged | packs/coding/extract/src/name.rs:69-90 | the loop, which takes the scopes of a file once, merges as each fragment by itself would be |
| NameMap.MergeRefuses | packs/coding/extract/src/name.rs:69-90 | merging is refused exactly for a fragment whose file has an empty component |
| NameMap.RolledIsGrouped | packs/coding/extract/src/name.rs:69-112 | candidates come in order of name and scope, one for each name in each scope a file of its lies in, saying the counts added up, how many files, the first twenty in order, and the first place seen |
| NameMap.RolledIsOfKeys | packs/coding/extract/src/name.rs:92-112 | nothing else is rolled up |
| NameMap.Collect | packs/coding/extract/src/name.rs:45-67 | the loop over lines and words counts every use |
| NameMap.CountedIs | packs/coding/extract/src/name.rs:45-67 | in order, each name used, with how many uses it has and the line of the first |
| NameMap.OccurrencesAreUses | packs/coding/extract/src/name.rs:69-112 | what is said of a name in a scope counts every use in the readable files there and no other; what is not spoken of is not used |
| NameMap.NameMapIsToldExactly | packs/coding/extract/src/name.rs:45-48 | over any history, digests of lossy text tell what name-map collects exactly if no path had contents that are no text and contents that are text of one lossy text, the latter with a name |
| NameMap.WholeAgainIsMissed | packs/coding/extract/src/name.rs:45-48 | when a file of the first such contents is edited to the second, it is only restamped: the refresh comes through, nothing is held of the file, and the corpus of the tree is not empty |
| NameMap.StrayByteBlurs | batteries/survey/src/corpus.rs:96 | any text cut off by a byte of no character, and that text with the replacement character written out, are two such contents wherever the latter has a name |
| NameMap.NameMapFallsBehind | packs/coding/extract/src/name.rs:45-48 | name-map does not keep up with every history, whatever it counts as a word, if a character other than a digit and the end of a line can begin one |
| Utf8.TextIsKept | batteries/survey/src/corpus.rs:96 | bytes that are text are the same text read lossily |
| Utf8.WrittenIsRead | packs/coding/extract/src/name.rs:46 | the bytes of a text are read strictly as that text |
| NameMap.FoldNarrows | packs/coding/extract/src/name.rs:123-133 | folding the fragments of the names asked for gives the candidates that may be named of folding all, in the same order |
| NameMap.NarrowedNameMapIsWhole | packs/coding/extract/src/name.rs:123-133 | on every tree and for every position, name-map may be narrowed |
| NameMap.Probe | packs/coding/extract/src/name.rs:114-121 | name-map answers what the whole corpus of the tree says, whatever it was narrowed to |

## Left out

- Floating point: numbers are exact reals, so rounding, overflow to infinity, non-finite results and the loss of integers past 2^53 in `as_f64` are not modelled; the text `ryu` gives a double stands for the double.
- Addr.Canonicalizer.NumberString: takes a double as the shortest decimal that reads back as it; that no two doubles share one, and that non-finite numbers are refused, is not modelled.
- Canonical.CanonicalIsValue: asks that documents write equal numbers with equal powers of ten, which Canonical.OneTextExactlyIfOneExponent shows is needed of any two numbers.
- Printed.RoundTrip: is stated over printable nodes; Parsed.RoundTripsExactly shows that it holds of no other, fractions and container literals aside, which are printed by a function given to the printer.
- Reads.ReadsObsSound: leaves out bare reads of `obs` and `changed` names with a dot, which Reads.PathsListTheirReadsExactly and Reads.ChangedListsItsReadExactly show to be exactly the leaves with reads not listed.
- Reads.ReadsAnchorsSound: leaves out, in the body of a quantifier, `changed` and quantifiers whose own bodies read state; Reads.QuantifiedChangedReachesUnseen and Reads.NestedQuantifierReachesUnseen show that these reach anchors unseen.
- Contract.WrittenIsReached: is for object literals, asking that no key at the top be empty or begin with a dot; Contract.ReachedExactlyIfNamed and Contract.BareStateWritesUnseen show what is missed otherwise.
- Literals.OpenIsReachedExactly: is for literals whose values are the state or constants; of other expressions, what they can evaluate to decides, which no look at the keys tells.
- Unicode classes of characters: identifiers, letters and space are the ASCII ones.
- SHA-256: a hash is a function of the text it is taken of, injective only where a lemma asks it; a generation is told apart by its probe and version rather than by their hash.
- Refresh.EveryRefreshMirrors: asks that a stamp tell a path's contents, readable or not (a file made unreadable under an unchanged stamp is kept, as Refresh.MirrorsExactlyIfUnaltered shows), and that a digest tell how contents a path has had are collected, which Digests.KeepsUpExactlyIfReadAlike shows is needed and which name-map does not give: NameMap.NameMapIsToldExactly and NameMap.WholeAgainIsMissed.
- Refresh.WalkedIsGrounded: has one refresh of a generation at a time; Digests.RefreshesAtOnceGoWrong gives the run of two that goes wrong. A file that changes between its stamp and its bytes being read is not modelled.
- Looking.LiveIsReady: asks that stamps and digests tell over the life of the index, as Refresh.EveryRefreshMirrors does; so do Looking.Look and Visits.Visit.
- Looking.Look: asks that each index call that reads after the refresh come through; a fault there is returned as it is. It holds for ASCII roots, as Sqlite.FilterIsUnderExactlyForAscii shows is needed.
- Looking.NarrowingIsExactlySafe: is for recipes that do not fold; for one that does, Looking.NarrowedLookIsWhole gives the condition on its fold, and NameMap.NarrowedNameMapIsWhole proves it of name-map.
- NameMap.OccurrencesAreUses: asks that no name be used 2^64 times in one file; which characters names are made of is a parameter.
- NameMap.Probe: asks that digests tell over the life of the index, which holds exactly under the condition of NameMap.NameMapIsToldExactly. The collectors of the packs' other probes are not modelled.
- Sqlite.SqliteIndex.Union: agrees with the simple index where files are keyed by their paths; Sqlite.OneRowForAPlace shows what is lost otherwise.
- Index.OneListing: the order in which generations are listed, by probe and version, is not modelled; they are given as a map.
- The JSON text of stored coordinates and facts, and the width of ordinals, counts and attempts: stored values are read back as they were, and numbers do not overflow.
- SQL: a statement is its effect on maps and sets, and a transaction is a local copy committed at its end; schema, indices, locks and query plans are not modelled.
- Matching.ReportIsOnTheNthWinner: takes the length of a written report as a parameter, and leaves out the schema name it carries.
- Clocks, the file system, locks and threads: times, trees, budgets' answers and faults are parameters, and a call interleaves with others only between the steps the code takes under a lock.
- Error messages, apart from the count of tied candidates.
- The hash chain over journal rows, fences, leases, the memory lens that seals contexts, and the runtime's open, observe, revise and scheduling.
- The watch lists read from notes (`from_scanned`), expression watches, and the shapes' defaults.
- Dot paths of states, digests of observations, provenance and the wire formats of entries.
