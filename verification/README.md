# agent-surface and cloud estimates, verified

This project models two parts of the repository in Dafny and proves properties of them.

**The comparison pipeline of `agent-surface`.** A configuration file is parsed by a hand-written JSONC parser, its
entries are extracted with secrets redacted, two sides are compared key by key, and each difference gets a direction, a
category and finally an exit code.

| file | what it holds |
|---|---|
| `Texts`, `Json`, `Pointers` | JavaScript strings as 16-bit code units, JSON values, RFC 6901 pointers and their resolution |
| `Grammar` | the language: RFC 8259 (sections 2 to 7) with `//` and `/* */` comments and one trailing comma, as concrete syntax trees and what they spell |
| `Reader`, `Language` | a functional reader, proved sound and complete for the grammar |
| `Denotation`, `Places`, `Repeats`, `Trivia` | the value, positions, pointers and repeated names of a syntax tree, and what holds of them |
| `Jsonc`, `JsoncTheorems`, `Utf8` | the parser as a class with a cursor, line, column, pointer map and duplicate list, proved against the reader and the denotation; its main theorems; the size of a text in bytes |
| `Sorting`, `Stable`, `Walks` | the orders JavaScript uses, stable sorting, walking a value step by step |
| `Canonical`, `RoundTrip` | the canonical printer, and that the parser inverts it |
| `Entries`, `Signatures`, `Diff`, `DiffTheorems`, `HookPairing` | entries and their order, the two signatures, the keyed diff with hook pairing, what its deltas mean, and which hooks are paired |
| `Redact`, `RedactionTheorems`, `Normalize` | redaction with its findings, what it leaves of a text, canonical permission rules |
| `Extraction`, `ExtractionTheorems`, `ItemPointers`, `Extractor`, `Conservation` | what each place of a document yields, the extractor class that computes it, and that nothing is lost or doubled up to the lists it returns |
| `LeafValues`, `LeafTheorems`, `McpTheorems`, `RuleTheorems`, `SnapshotTheorems` | the key and value that each place adds, and what two values must share to compare equal; MCP servers and permission rules; lines; from parsed documents to comparable snapshots |
| `Direction`, `DirectionTheorems`, `Reversal`, `Grants`, `Verdict` | the direction table, comparing the other way round, the table against a measure of what entries grant, categories, exit codes |

**The arithmetic of `kit-board/lib/cloud-estimate.ts`.** `Estimate` holds readings, proration and coverage,
`Calibrations` the calibration preview, `CloudEstimates` baselines, their median and the estimate itself.

Code that works by changing things step by step - the parser, the redacting walk, the extractor, grouping, hook pairing,
reading deduplication, baselines, intervals - is a class or a method with loops, each proved against a function; the
properties are proved of that function.

## How the results fit together

* The parser refines the reader, the reader decides the grammar, and the grammar is unambiguous; so a value is returned
  exactly for the texts of the language, and it is the grammar's value.
* The printer's texts are in the language and mean the printed value. So parsing undoes printing, printed texts are
  injective and prefix-free, and equality of the two signatures means equality of what a comparison sees of two groups.
* Every pointer the parser records is written once, at the place where its node's own text begins, and resolves to that
  node. So redaction findings can be traced to raw texts, digests identify them, extraction reads the raw text it means
  to read, and an entry's line is the line of the node it is about.
* Extraction is a visit of the document's places. Counting items along paths shows, up to the returned lists of entries
  and failures, that each element is recorded exactly once, with one credential entry more where redacting finds
  something. The same visit shows that entries can be printed, that a key fixes its kind, and that rule entries are
  functions of their key.
* Each place's entry is fixed by the raw document: its key, its value, and, through the digests, the raw texts that redaction
  hides. A key written once on either side is therefore reported as changed exactly when its values look different
  (`ValuesAreCompared`), environment values and helper commands included.
* What an entry grants can be counted (`Worth`). The direction table then says no more than which side grants more.
* Keys that fix their kind make a comparison reversible: read the other way round, it has the reversed deltas, and what
  widened narrows.

Constants such as `DEFAULT_MAX_DEPTH` are parameters, so every theorem is for all limits. The functions that are taken as
given are parameters too: the credential patterns (`Detector`), SHA-256 after UTF-8 encoding (`sha`, injective where a
theorem says so), JavaScript's `Number` on a pointer token (`Numeric`, of which only the reading of the indices of a document's arrays is assumed),
the sensitive environment names, and the order of ids that `localeCompare` gives.

## Where the code is narrower than its comments

* `canonicalize` assigns into `{}`, so a `__proto__` member is dropped. `ParsingUndoesPrinting` says exactly when a value
  comes back, and `ProtoChangeIsMissed` gives two entries that differ and yield no delta.
* An MCP `command` or `url` that is not a string is neither carried nor reported as incomplete.
  `McpEntryDecides` says exactly what an entry depends on; `IllTypedCommandIsMissed` gives the input that shows it.
* A comparison drops a member named `raw` from every object value, not only from the values that extraction builds. So a
  change of such a member of a sandbox, flag or unknown value alone gives no delta (`RawMemberIsMissed`).
* Hooks are paired by the key up to its last colon and the file, joined by a bar. A file name with a bar after a colon makes
  the joint ambiguous. `AkinAgreeIff` says exactly when two paired hooks agree in both parts, and `BarsPairAcrossFiles` gives
  two that do not; for all other file names `HooksPair` and `PairedHooksAgree` hold.
* A matcher that is there and no string hides its group: extraction records one failure at the matcher and nothing of the
  group's hook definitions. `HookDefinitionsAreConserved` says exactly when a definition is recorded;
  `UnusableMatcherHidesHooks` gives a document whose one hook is not.
* Only the first entry of a group is classified. For boolean flags reversal flips the direction exactly when the two first
  booleans differ, which they do whenever the flag occurs once per side (`ReversedComparison`);
  `RepeatedFlagWidensBothWays` gives groups for which both directions widen.

## Model

| member | source | states |
|---|---|---|
| Pointers.UnescapeEscape | agent-surface/src/jsonc.ts:51-53 | unescaping, in the order in which valueAt does it, undoes the escaping of every property name |
| Pointers.EscapeStep | agent-surface/src/jsonc.ts:50-53 | a tilde is escaped to `~0`, a slash to `~1`, and every other unit stays, one after the other |
| Pointers.PointersAreDistinct | agent-surface/src/jsonc.ts:264-392 | two paths into one value with the same pointer text are the same path |
| Pointers.ValueAt | agent-surface/src/entries.ts:114-134 | the walk over the tokens gives what the pointer resolves to, undefined cases included |
| Pointers.PointersResolve | agent-surface/src/entries.ts:114-134 | the pointer of any node resolves to that node, if Number reads the indices of the value's arrays |
| Pointers.MemberResolves | agent-surface/src/entries.ts:219-224 | the pointer of a member of an object node resolves to the member, and to nothing when it is missing |
| Pointers.ArraysAreRead | agent-surface/src/entries.ts:114-134 | a Number that reads decimals below 2^32 reads all indices of a value whose arrays are shorter than that, as JavaScript's are |
| Language.ReaderDecidesLanguage | agent-surface/src/jsonc.ts:226-503 | a text is read exactly when a valid document of the grammar within the depth limit spells it |
| Language.GrammarIsUnambiguous | agent-surface/src/jsonc.ts:226-503 | no two documents of the grammar spell the same text |
| Grammar.EscapesMean | agent-surface/src/jsonc.ts:414-455 | the two-character escapes by their letters, and four hex digits by their value |
| Jsonc.Parser.constructor | agent-surface/src/jsonc.ts:125-141 | a leading byte order mark is skipped without counting a column; nothing is noted yet |
| Jsonc.Parser.Advance | agent-surface/src/jsonc.ts:191-206 | one step keeps line and column equal to those of the consumed prefix, and never rests between a CR and its LF |
| Jsonc.Parser.AdvanceBy | agent-surface/src/jsonc.ts:294-298 | steps over a word without line breaks, keeping the position |
| Jsonc.Parser.SkipTrivia | agent-surface/src/jsonc.ts:226-256 | consumes exactly the gap that the grammar has there, or fails at the start of an unterminated comment |
| Jsonc.Parser.ParseValue | agent-surface/src/jsonc.ts:264-292 | parses exactly the tree that the reader reads, with its value, pointers and duplicates, or raises the reader's error there |
| Jsonc.Parser.ParseObject | agent-surface/src/jsonc.ts:306-355 | an object's members, first occurrences kept, repeated names recorded and their values parsed without pointers |
| Jsonc.Parser.ParseArray | agent-surface/src/jsonc.ts:357-383 | an array's items with their pointers, one trailing comma allowed, too deep an array refused |
| Jsonc.Parser.ParseString | agent-surface/src/jsonc.ts:385-412 | the characters that the grammar's string means, or the reader's error at its place |
| Jsonc.Parser.ParseEscape | agent-surface/src/jsonc.ts:414-455 | each escape's meaning, four hex digits included |
| Jsonc.Parser.ParseNumber | agent-surface/src/jsonc.ts:457-497 | consumes exactly an RFC 8259 number and returns its text |
| Jsonc.Parser.Run | agent-surface/src/jsonc.ts:143-174 | the result that the reader, the denotation and the notes define; errors, duplicates and values alike |
| Jsonc.ParseJsonc | agent-surface/src/jsonc.ts:97-119 | the size limit, then the parser's result |
| Utf8.SizeIsBytes | agent-surface/src/jsonc.ts:102-105 | the size that is compared with the limit is the number of bytes of the text's UTF-8 encoding |
| Utf8.EncodingIsDecodable | agent-surface/src/jsonc.ts:102-105 | the encoding by which bytes are counted gives back each code point |
| JsoncTheorems.ValueIffClean | agent-surface/src/jsonc.ts:143-174 | a value is returned exactly when there is nothing to report |
| JsoncTheorems.ParserDecidesLanguage | agent-surface/src/jsonc.ts:226-503 | within the size limit the value is v exactly when some document of the grammar within the depth limit, without repeated names, spells the text and means v |
| JsoncTheorems.SyntaxErrorIffUnspelled | agent-surface/src/jsonc.ts:158-173 | a syntax error is reported exactly when no document within the limits spells the text |
| JsoncTheorems.DuplicatesAreReported | agent-surface/src/jsonc.ts:306-355 | repeated names are never last-wins: no value, and the records are, as a list, those that the repeated occurrences owe, one each at every depth, with the first line not after the repeating one |
| Denotation.LinesGrow | agent-surface/src/jsonc.ts:330-345 | lines never decrease along the text |
| JsoncTheorems.PointersAreExact | agent-surface/src/jsonc.ts:264-392 | for every document, repeated names included, the recorded pointers are exactly those of the value's nodes, each with the position at which the text of that very node, not of an equal one, begins |
| JsoncTheorems.PointersAreWrittenOnce | agent-surface/src/jsonc.ts:264-392 | the pointer map is what the marks write, and no mark's pointer is there when it is written |
| JsoncTheorems.RecordedPointersResolve | agent-surface/src/entries.ts:114-134 | after a successful parse each node's pointer is recorded, resolves to it, and belongs to no other node |
| JsoncTheorems.TriviaChangesNothing | agent-surface/src/jsonc.ts:226-256 | a document without its blanks, comments and trailing commas parses to the same value, or is refused as well |
| JsoncTheorems.SameBareSameValue | agent-surface/src/jsonc.ts:226-256 | documents that differ in trivia alone have the same value |
| JsoncTheorems.PositionIsFold | agent-surface/src/jsonc.ts:190-206 | line and column are a fold over the prefix that counts CRLF, CR and LF once each and skips the mark |
| Places.NotesArePlaced | agent-surface/src/jsonc.ts:264-392 | each noted pointer was there before, with its position, or is a node's, at the position where that node's own text starts |
| Places.NodesAreNoted | agent-surface/src/jsonc.ts:264-392 | each node's pointer is noted |
| Places.SitesAreNodes | agent-surface/src/jsonc.ts:306-383 | the subtree at a path, of repeated members the first, exists exactly for the paths of nodes, its text stands at its site, and it means the node |
| Places.NodesAreMarkedOnce | agent-surface/src/jsonc.ts:264-392 | each node is marked once, at its site, and no other path is marked |
| Places.NodesArePlaced | agent-surface/src/jsonc.ts:264-392 | each node's pointer is noted with the position of its site |
| Places.NoneIsWrittenTwice | agent-surface/src/jsonc.ts:264-392 | no pointer is written that is there already |
| Repeats.DistinctIffNoRepeats | agent-surface/src/jsonc.ts:306-355 | there is nothing to record exactly when no object of the tree has a repeated name |
| Repeats.TreeRecordCount | agent-surface/src/jsonc.ts:306-355 | one record for each repeated occurrence, inside repeated names too |
| Repeats.TreeRecorded | agent-surface/src/jsonc.ts:330-345 | each repeated occurrence has the record it owes among the records: name, pointer, first line and its own line |
| Repeats.RecordsAreOwed | agent-surface/src/jsonc.ts:306-355 | the records added are, as a list, exactly the owed ones: those inside a repeated value, then its own |
| Repeats.OwedInOrder | agent-surface/src/jsonc.ts:330-345 | every owed record names a first line that is not after its own |
| Canonical.Canonicalize | agent-surface/src/canonical.ts:10-23 | the copy has every member but those named `__proto__`, at every depth |
| RoundTrip.ParsingUndoesPrinting | agent-surface/src/canonical.ts:10-28 | the canonical text parses to the value without its `__proto__` members exactly when that nests within the depth limit, so to the value itself exactly when it has none |
| RoundTrip.PrintingIsDecodable | agent-surface/src/canonical.ts:26-28 | of two printed values each followed by more text, equal concatenations have equal values and equal rests |
| RoundTrip.StringifyInjective | agent-surface/src/entries.ts:226-227 | compact JSON texts are equal only for equal values |
| RoundTrip.CanonicalJsonInjective | agent-surface/src/canonical.ts:26-28 | canonical texts are equal exactly when the values are, `__proto__` members aside |
| RoundTrip.CanonicalJsonPrefixFree | agent-surface/src/diff.ts:59-65 | no canonical text starts another |
| RoundTrip.ParsedIsPrintable | agent-surface/src/jsonc.ts:457-497 | every value that the parser returns can be printed |
| Sorting.EnumerationOrder | agent-surface/src/canonical.ts:15-18 | keys are enumerated with array indices first, by number, and the others in code-unit order |
| Sorting.LessAtDifference | agent-surface/src/entries.ts:137-147 | texts compare by the unit at the first place where they differ, a text before its continuations |
| Entries.EntryOrder | agent-surface/src/entries.ts:137-147 | the comparison is a strict order whose ties are equal key, file and pointer |
| Entries.SortSorts | agent-surface/src/entries.ts:150-152 | sorting gives an ordered arrangement of the same entries |
| Entries.SortedByKeyFilePointer | agent-surface/src/entries.ts:137-152 | sorted entries stand by key, then by file, then by pointer |
| Entries.KindNamesDiffer | agent-surface/src/types.ts:34-45 | no two kinds have one name |
| Signatures.SignatureDecides | agent-surface/src/diff.ts:54-56 | two groups have one signature exactly when their lists of visible semantic projections are equal |
| Signatures.ConcatDecodes | agent-surface/src/diff.ts:59-65 | joined canonical texts can be told apart again |
| Signatures.ValueSignatureDecides | agent-surface/src/diff.ts:59-65 | two groups have one value signature exactly when the multisets of their projections without file are equal |
| Diff.GroupByKey | agent-surface/src/diff.ts:40-51 | the keys are those of the entries, each with its entries in sorted order |
| Diff.RawDeltas | agent-surface/src/diff.ts:75-104 | the deltas of all keys of either side in order, hooks paired |
| Diff.CollectCandidates | agent-surface/src/diff.ts:107-122 | the added and removed hook deltas of each prefix and file, in order |
| Diff.ReplacePairs | agent-surface/src/diff.ts:123-140 | one replacement for each id with exactly one delta of each change, and which deltas it uses |
| Diff.PairHookCommandChanges | agent-surface/src/diff.ts:107-142 | the deltas that are not paired, then the replacements; HookPairing.PairsExactly and HookPairing.HooksPair say which those are |
| DiffTheorems.KeyDeltaIff | agent-surface/src/diff.ts:80-101 | a key has a delta exactly when the sides do not look the same under it; which change, and which entries it carries |
| DiffTheorems.KeyedDeltasFacts | agent-surface/src/diff.ts:75-101 | one delta for each key at most, precisely those that the keys of either side have |
| DiffTheorems.KeyTouchedIff | agent-surface/src/diff.ts:75-104 | after pairing, a key is touched exactly when the two sides' visible projections for it differ |
| DiffTheorems.DeltasAreDisjoint | agent-surface/src/diff.ts:106-142 | no two resulting deltas share a key, and no key is touched by two |
| DiffTheorems.TouchingIsOwner | agent-surface/src/diff.ts:123-141 | pairing uses each delta at most once: whatever touches its key is the one result it went into |
| DiffTheorems.ReplayRebuildsKeys | agent-surface/src/diff.ts:75-142 | removing base keys and adding head keys, delta by delta, turns base's keys into exactly head's |
| DiffTheorems.UnseenChangesGiveNoDeltas | agent-surface/src/entries.ts:624-652 | sides that differ only in line, commit and text as written have no deltas; nor has a side against itself |
| DiffTheorems.ProtoChangeIsMissed | agent-surface/src/canonical.ts:15-18 | two entries that differ inside `__proto__` alone give no delta |
| DiffTheorems.InputOrderIsIrrelevant | agent-surface/src/diff.ts:40-51 | without ties on key, file and pointer the result does not depend on the order of the entries |
| HookPairing.PairsExactly | agent-surface/src/diff.ts:107-142 | for all deltas: a removed and an added hook are merged exactly if they go together and no other goes with them; everything else stays, and nothing more results |
| HookPairing.AkinAgreeIff | agent-surface/src/diff.ts:117-120 | two hooks that go together have one key up to the last colon and one file exactly unless a bar within a file is taken for the joint |
| HookPairing.HooksPair | agent-surface/src/diff.ts:107-142 | of the hooks under one `p:` and file, if one alone went and one alone came they are one change; with any other counts each stays removed or added (file names without a bar after a colon) |
| HookPairing.PairedHooksAgree | agent-surface/src/diff.ts:107-142 | a change between keys `p:s` and `q:t` has p equal to q and one file (file names without a bar after a colon) |
| HookPairing.BarsPairAcrossFiles | agent-surface/src/diff.ts:117-120 | two hooks of different files and matchers that are paired |
| Redact.RedactString | agent-surface/src/redact.ts:86-106 | the patterns in order, then the rule for opaque values under sensitive keys; RedactionTheorems says what this makes of a text |
| Redact.QuietTextIsKept | agent-surface/src/redact.ts:86-106 | without a pattern name the text is unchanged |
| Redact.Redactor.Walk | agent-surface/src/redact.ts:144-168 | the copy of the tree, and the findings appended in document order with their pointers |
| Redact.RedactedNodes | agent-surface/src/redact.ts:150-168 | the copy has a node at the same paths, each the redacted node there under the name that holds it |
| Redact.RedactionKeepsShape | agent-surface/src/redact.ts:131-168 | same paths, same types, same members |
| Redact.FindingsAreExact | agent-surface/src/redact.ts:150-168 | exactly the strings with a pattern are found, each once, with its patterns |
| Redact.RedactionLosesNothing | agent-surface/src/entries.ts:266-274 | with an injective hash two values are equal exactly when their copies and their findings' digests are |
| RedactionTheorems.StringsRunThroughPatterns | agent-surface/src/redact.ts:86-106 | every string of the copy is the end of its run through the patterns, each replacing what it finds in the text before it, or the mark; and which names are reported |
| RedactionTheorems.LiteralIsReplaced | agent-surface/src/redact.ts:86-106 | the one pattern that a string has is replaced in the copy, unless a sensitive name hides the rest |
| RedactionTheorems.QuietStrings | agent-surface/src/redact.ts:98-104 | a string without patterns stays, or becomes `<redacted>` exactly if it is opaque and held by a sensitive name |
| RedactionTheorems.NothingIsLeft | agent-surface/src/redact.ts:131-168 | if replacements clear their own pattern and bring in no other, no string of the copy has any pattern |
| RedactionTheorems.HolderIsKey | agent-surface/src/redact.ts:153-165 | the name that decides is that of the last member on the path, through any arrays |
| Normalize.TrimIsTight | agent-surface/src/normalize.ts:44-44 | trimming leaves no white space at either end and nothing else to trim |
| Normalize.TrimKeepsInside | agent-surface/src/normalize.ts:44-44 | a text is its trimmed text between white space |
| Normalize.SpecsAreCanonical | agent-surface/src/normalize.ts:43-61 | normalizing gives a canonical spec, and canonical specs are exactly what it leaves alone |
| Normalize.WildcardSpellingsAgree | agent-surface/src/normalize.ts:48-60 | `<prefix>:*` and `<prefix> *` have one canonical form, for any prefix and any white space |
| Normalize.OuterSpaceIsIgnored | agent-surface/src/normalize.ts:43-47 | a spec, its trimmed text and the spec between any white space normalize alike |
| Normalize.ExactIsTrimmed | agent-surface/src/normalize.ts:54-56 | a spec without a trailing wildcard is only trimmed |
| Normalize.WildcardFollowsPrefix | agent-surface/src/normalize.ts:48-60 | `<prefix>:*` is the trimmed prefix, a space and a star, or all if the prefix is blank |
| Normalize.RuleSplits | agent-surface/src/normalize.ts:71-81 | a rule splits at its first parenthesis into the trimmed tool and the normal form of what is inside |
| Normalize.BareRule | agent-surface/src/normalize.ts:71-81 | a rule that does not open after something, or is not closed, is a bare trimmed tool |
| Normalize.RuleReadsBack | agent-surface/src/normalize.ts:71-81 | a rule built from a tool name and a canonical spec reads back as those parts |
| Normalize.RuleParts | agent-surface/src/normalize.ts:71-81 | a parsed rule is its tool and its canonical spec, or a bare trimmed text |
| Normalize.NormalizingIsIdempotent | agent-surface/src/normalize.ts:71-81 | a canonical rule parses to itself with the same tool, spec and wildcard |
| Normalize.RuleDeterminesParts | agent-surface/src/normalize.ts:71-81 | rules with one canonical rule have one tool, spec and wildcard |
| ExtractionTheorems.ItemsComeFromPlaces | agent-surface/src/entries.ts:279-589 | extraction yields precisely what the places it reaches yield themselves: nothing is lost, nothing invented |
| ExtractionTheorems.CountReached | agent-surface/src/entries.ts:279-589 | below a reached place only that place's items count |
| ExtractionTheorems.ElementsAreConserved | agent-surface/src/entries.ts:331-458 | of what the places of a document yield, exactly one item is at a reached element's path: its entry or its failure (credential entries are counted by ItemPointers.ElementsInDocument) |
| ExtractionTheorems.RulesAreReached | agent-surface/src/entries.ts:304-354 | every element of an allow, ask or deny array is such an element |
| ExtractionTheorems.DirectoriesAreReached | agent-surface/src/entries.ts:356-374 | so is every element of additionalDirectories |
| ExtractionTheorems.EnvNamesAreReached | agent-surface/src/entries.ts:442-458 | so is every env name |
| ExtractionTheorems.HookDefinitionsAreReached | agent-surface/src/entries.ts:376-413 | so is every definition of a hook array whose group has no matcher or a string for one |
| ExtractionTheorems.HookDefinitionsAreConserved | agent-surface/src/entries.ts:395-410 | a definition in a hook array yields exactly one entry or failure at its own path unless its group's matcher is there and no string; then none |
| ExtractionTheorems.BadGroupsFailOnce | agent-surface/src/entries.ts:395-402 | a group whose matcher is no string yields one failure, at the matcher, and nothing else |
| ExtractionTheorems.UnusableMatcherHidesHooks | agent-surface/src/entries.ts:395-402 | a document with a hook definition of which nothing is recorded |
| ItemPointers.ItemsFit | agent-surface/src/entries.ts:232-250 | entries stand at nodes, failures at nodes or at missing members of objects |
| ItemPointers.ElementsAreRecordedOnce | agent-surface/src/entries.ts:331-458 | of what the places of a document yield, exactly one entry or failure has the pointer text of a reached element |
| ItemPointers.ElementsInDocument | agent-surface/src/entries.ts:252-275 | over all that a document yields, a reached element's pointer has exactly one entry or failure, and one credential entry more exactly if it is a string in which redacting finds a pattern |
| ItemPointers.HookDefinitionsInDocument | agent-surface/src/entries.ts:376-413 | the same of hook definitions, with none if the group's matcher is there and no string |
| Conservation.RecordsAtNode | agent-surface/src/entries.ts:607-619 | the returned entries and failures with a document's file and a node's pointer are as many as the document's items at that node, so nothing is lost or doubled on the way |
| Conservation.ElementsInSnapshot | agent-surface/src/entries.ts:607-619 | of all that is returned, a reached element has exactly one entry or failure at its file and pointer, and one credential entry more exactly if redacting finds a pattern in it |
| Conservation.HookDefinitionsInSnapshot | agent-surface/src/entries.ts:376-413 | of all that is returned, a hook definition has exactly one entry or failure unless its group's matcher is there and no string; then none |
| Extractor.DocumentExtractor.RawString | agent-surface/src/entries.ts:171-174 | the raw string at a node's pointer, or null |
| Extractor.DocumentExtractor.DigestValue | agent-surface/src/entries.ts:177-187 | the digest of the raw string at a node's pointer |
| Extractor.DocumentExtractor.ExtractDigestMap | agent-surface/src/entries.ts:195-211 | a digest for every string member, a failure for every other, in sorted order |
| Extractor.DocumentExtractor.DigestRedacted | agent-surface/src/entries.ts:219-230 | a digest for exactly the named fields whose shown text differs from the raw one |
| Extractor.DocumentExtractor.AddEntry | agent-surface/src/entries.ts:232-245 | appends one entry with the pointer's line |
| Extractor.DocumentExtractor.Failed | agent-surface/src/entries.ts:247-250 | appends one incomplete record with the pointer's line |
| Extractor.DocumentExtractor.Run | agent-surface/src/entries.ts:252-275 | the log is exactly that of the document's items, credentials last |
| Extractor.DocumentExtractor.ExtractSettings | agent-surface/src/entries.ts:279-302 | logs what the settings root yields |
| Extractor.DocumentExtractor.ExtractPermissions | agent-surface/src/entries.ts:304-329 | logs what the permissions object yields |
| Extractor.DocumentExtractor.ExtractRuleList | agent-surface/src/entries.ts:331-354 | logs what a rule list yields |
| Extractor.DocumentExtractor.ExtractDirectories | agent-surface/src/entries.ts:356-374 | logs what the additional directories yield |
| Extractor.DocumentExtractor.ExtractHooks | agent-surface/src/entries.ts:376-413 | logs what the hooks object yields, group by group |
| Extractor.DocumentExtractor.ExtractHook | agent-surface/src/entries.ts:415-440 | logs what a hook definition yields; its key carries the digest of the raw text |
| Extractor.DocumentExtractor.ExtractEnv | agent-surface/src/entries.ts:442-458 | logs what the environment yields |
| Extractor.DocumentExtractor.ExtractSandbox | agent-surface/src/entries.ts:460-472 | logs what the sandbox settings yield |
| Extractor.DocumentExtractor.ExtractHelper | agent-surface/src/entries.ts:474-485 | logs what a helper yields, with a digest exactly when its text was redacted |
| Extractor.DocumentExtractor.ExtractPluginFlag | agent-surface/src/entries.ts:487-512 | logs what a flag yields: sorted names, or a failure for each element that is none |
| Extractor.DocumentExtractor.ExtractMcpFile | agent-surface/src/entries.ts:516-535 | logs what an MCP file yields |
| Extractor.DocumentExtractor.ExtractMcpServer | agent-surface/src/entries.ts:537-589 | logs what a server yields: failures of its fields in order, then its entry |
| Extractor.ExtractEntries | agent-surface/src/entries.ts:607-619 | the sorted entries of all documents, and their failures in document order |
| LeafValues.RuleIsAdded | agent-surface/src/entries.ts:331-354 | a rule's entry: `perm:`, its list and its canonical rule, and its parts; a failure for what is no rule |
| LeafValues.DirectoryIsAdded | agent-surface/src/entries.ts:356-374 | a directory's entry under its trimmed path, or a failure |
| LeafValues.ModeIsAdded | agent-surface/src/entries.ts:320-325 | a mode's entry under `mode:` and its name, so `mode:defaultMode`, or a failure |
| LeafValues.EnvIsAdded | agent-surface/src/entries.ts:442-458 | an environment value's entry: length and hash of the raw value, or a failure |
| LeafValues.SandboxIsAdded | agent-surface/src/entries.ts:460-472 | each sandbox member as shown |
| LeafValues.HelperIsAdded | agent-surface/src/entries.ts:474-485 | a helper's command as shown, with the hash of the raw one exactly if they differ, or a failure |
| LeafValues.FlagIsAdded | agent-surface/src/entries.ts:487-512 | a flag that is no list of names, as shown |
| LeafValues.NamesAreAdded | agent-surface/src/entries.ts:487-512 | a list of names: each once and in order, or a failure for each element that is none |
| LeafValues.UnknownIsAdded | agent-surface/src/entries.ts:298-301 | any other top-level name as unknown, under its pointer |
| LeafValues.UnknownPermissionIsAdded | agent-surface/src/entries.ts:326-328 | any other name among the permissions as unknown, under its pointer |
| LeafValues.SectionsFail | agent-surface/src/entries.ts:304-308 | permissions, hooks, env or sandbox that is no object is a failure |
| LeafValues.ListsFail | agent-surface/src/entries.ts:331-335 | a list of rules or directories, or an event's groups, that is no array is a failure |
| LeafValues.HookIsAdded | agent-surface/src/entries.ts:415-440 | a hook's key: event, matcher as shown, and the hash of its raw command or else its raw prompt; a failure without either |
| LeafValues.CredentialIsAdded | agent-surface/src/entries.ts:266-274 | where redacting finds something: the patterns and the hash of the raw text |
| LeafTheorems.EnvDecides | agent-surface/src/entries.ts:450-456 | two environment values look the same exactly when the texts are the same |
| LeafTheorems.ModeDecides | agent-surface/src/entries.ts:320-325 | two modes look the same exactly when the shown texts are the same |
| LeafTheorems.DirectoryDecides | agent-surface/src/entries.ts:356-374 | two directories look the same exactly when the trimmed paths are the same |
| LeafTheorems.HelperDecides | agent-surface/src/entries.ts:474-485 | two helpers look the same exactly when the raw commands are the same |
| LeafTheorems.HookDecides | agent-surface/src/entries.ts:415-440 | two hooks look the same exactly when event, matcher, type, raw command, raw prompt and timeout are the same |
| LeafTheorems.NamesDecide | agent-surface/src/entries.ts:487-512 | two lists of names look the same exactly when they have the same names |
| LeafTheorems.CredentialDecides | agent-surface/src/entries.ts:266-274 | two credentials look the same exactly when patterns and raw texts are the same |
| LeafTheorems.ShownIsSeen | agent-surface/src/entries.ts:638-652 | values without `raw` and `__proto__` members look the same exactly when they are the same |
| LeafTheorems.RawMemberIsMissed | agent-surface/src/entries.ts:638-652 | two entries that differ in a member named raw alone give no delta |
| LeafTheorems.SinglesCompared | agent-surface/src/diff.ts:80-101 | a key with one entry per side is changed exactly when the values look different, and moved exactly when only the files differ |
| LeafTheorems.ValuesAreCompared | agent-surface/src/diff.ts:75-104 | from the documents on: a key written once per side is reported as changed exactly when the two values look different |
| LeafTheorems.EnvChangesAreReported | agent-surface/src/entries.ts:442-458 | from the documents on: an environment value is reported as changed exactly when the texts differ |
| LeafTheorems.HelperChangesAreReported | agent-surface/src/entries.ts:474-485 | from the documents on: a helper is reported as changed exactly when the raw commands differ, even if they are shown the same |
| McpTheorems.McpEntryDecides | agent-surface/src/entries.ts:537-589 | two servers have equal values exactly when transport, type, extra members and the raw texts of the five fields are equal |
| McpTheorems.RawChangesShow | agent-surface/src/entries.ts:176-230 | for well-typed servers, equal semantic entries have equal raw command, args, url, env and headers |
| McpTheorems.IllTypedCommandIsMissed | agent-surface/src/entries.ts:576-583 | a command that is no string changes without any item changing, and without a failure |
| McpTheorems.ServersAreExtracted | agent-surface/src/entries.ts:531-589 | each server of an MCP file has its entry among the document's items |
| McpTheorems.ServerReads | agent-surface/src/entries.ts:537-589 | the members of a server's entry: transport, each field as shown if it has its type, a digest for each env and header value, and all other members |
| McpTheorems.ServerFailuresAre | agent-surface/src/entries.ts:537-575 | exactly the fields of a wrong type among args, env and headers are failures of a server |
| SnapshotTheorems.ParsedDocuments | agent-surface/src/jsonc.ts:97-119 | a parsed document has the pointers of all its nodes, and a printable value |
| SnapshotTheorems.EntriesHaveLines | agent-surface/src/entries.ts:166-168 | every extracted entry of parsed documents has its document's file and commit, a pointer to a node and the line recorded for that pointer |
| SnapshotTheorems.EntriesStandAtNodes | agent-surface/src/entries.ts:166-168 | from the texts on: every entry's line is the line on which the text of the very node it is about begins |
| SnapshotTheorems.FailuresHaveLines | agent-surface/src/entries.ts:247-250 | every failure is at a node and has the line recorded for it, or at a missing member of an object |
| SnapshotTheorems.EntriesArePrintable | agent-surface/src/diff.ts:54-65 | extracted entries of parsed documents can be printed, so that signatures decide equality |
| RuleTheorems.RuleKeysDiffer | agent-surface/src/entries.ts:347-349 | a permission key determines its list and its canonical rule |
| RuleTheorems.RuleKeysChangeByMultiplicity | agent-surface/src/diff.ts:90-99 | a permission key on both sides is changed exactly when it occurs a different number of times |
| RuleTheorems.ExtractedRuleEntries | agent-surface/src/entries.ts:331-354 | every entry under a permission key that extraction returns is a rule's |
| RuleTheorems.SnapshotRuleKeys | agent-surface/src/diff.ts:90-99 | the same from the documents on |
| Direction.ChangedMcpValues | agent-surface/src/direction.ts:348-364 | for either map, in strictly increasing order, exactly the sensitive names that were set or changed, and the other names whose digest differs |
| Direction.WideningHasCategory | agent-surface/src/diff.ts:145-172 | a classified delta has a category exactly when it widens |
| DirectionTheorems.DeltasReverse | agent-surface/src/diff.ts:75-142 | hooks aside, where a key has one kind, the deltas of the reversed comparison are the reversed deltas |
| DirectionTheorems.ReversalFlips | agent-surface/src/direction.ts:392-520 | for a delta with the entries its change calls for, reversal flips widens and narrows for permissions, directories, modes and flags; for a changed boolean flag exactly when the booleans differ (Grants.WayFollowsWorth says which way is which) |
| DirectionTheorems.ChangedFlagsDiffer | agent-surface/src/diff.ts:90-99 | a boolean flag that occurs once per side and changed has different booleans |
| Reversal.KeyNamesKind | agent-surface/src/types.ts:34-45 | no key has the prefixes of two kinds |
| Reversal.ExtractedKeys | agent-surface/src/entries.ts:232-245 | every extracted entry's key begins with the name of its kind |
| Reversal.ResultsAreSided | agent-surface/src/diff.ts:75-142 | every delta of a comparison, paired hooks included, has the entries that its change calls for |
| Reversal.ReversedComparison | agent-surface/src/direction.ts:392-520 | between extracted snapshots, every permission, directory, mode and flag delta comes back reversed from the reversed comparison, with its way flipped, unless it is a changed boolean flag with equal first booleans; that takes a flag set several times on a side |
| DirectionTheorems.RepeatedFlagWidensBothWays | agent-surface/src/diff.ts:83-84 | a flag that occurs several times on a side can widen in both directions |
| DirectionTheorems.TransportChangesWiden | agent-surface/src/direction.ts:471-482 | any change of a well-typed server's raw command, args or url is classified as a proven widening |
| Grants.WayFollowsWorth | agent-surface/src/direction.ts:392-520 | with a measure of what an entry grants, every delta that came, went, or is a changed mode or flag widens, narrows or is neutral exactly as the head grants more, less or the same, and has no direction exactly when a side has no measure; a changed flag that grants the same has one nevertheless |
| Grants.DirectionsFollowGrants | agent-surface/src/direction.ts:392-520 | the same from the documents on, where such an equal flag does not occur once per side |
| Grants.OtherWays | agent-surface/src/direction.ts:392-521 | the direction of everything else: moved, changed in place, hooks with another key, MCP servers, environment values, and what has no rule |
| Grants.UnresolvedRules | agent-surface/src/direction.ts:59-265 | the rules that decide nothing; every other claim is proven |
| Grants.CategoryByKind | agent-surface/src/diff.ts:145-172 | the category of a widening, by kind |
| Verdict.NamesResolve | agent-surface/src/verdict.ts:62-71 | known names resolve; named categories replace the default set, naming none keeps it |
| Verdict.NamedCategories | agent-surface/src/verdict.ts:62-71 | each documented name resolves to its own category alone, and no name to all but scoped-allow |
| Verdict.PartitionConserves | agent-surface/src/diff.ts:222-230 | every delta is in exactly one of the four lists, the undecided ones in the fourth |
| Verdict.PartitionByChange | agent-surface/src/diff.ts:222-230 | each list holds exactly the deltas of its change that are settled, or those that are not, in key order |
| Verdict.ComputeVerdict | agent-surface/src/verdict.ts:103-155 | exit code, expands and categories as documented, and when exactly each of the five labels is given, independent of the order of the deltas |
| Verdict.SeverityGrows | agent-surface/src/verdict.ts:131-153 | severity never drops when deltas, incomplete records or failing categories are added, or strict is set |
| Verdict.CleanIff | agent-surface/src/verdict.ts:145-153 | exit 0 exactly when nothing is incomplete, failing or undecided |
| Verdict.ExitCodes | agent-surface/src/verdict.ts:78-153 | when exactly each exit code is given, in terms of tier, breadth and category |
| Estimate.OrderQuotas | kit-board/lib/cloud-estimate.ts:35-43 | the loop over the sorted readings gives what OrderedQuotas defines |
| Estimate.OrderedQuotasDecides | kit-board/lib/cloud-estimate.ts:34-43 | no readings come back exactly when two of one instant disagree; else one per instant, strictly increasing in time |
| Estimate.TokensSplit | kit-board/lib/cloud-estimate.ts:46-52 | proration is additive over adjacent spans |
| Estimate.TokensNonNegative | kit-board/lib/cloud-estimate.ts:46-52 | non-negative hours prorate to non-negative tokens |
| Estimate.TokensConcat | kit-board/lib/cloud-estimate.ts:46-52 | rows count one by one |
| Estimate.HourIsProrated | kit-board/lib/cloud-estimate.ts:46-52 | a row within its hour gives its tokens times the part of the hour that the span takes |
| Estimate.OutsideCountsNothing | kit-board/lib/cloud-estimate.ts:46-52 | rows of other accounts, and hours apart from the span, count nothing |
| Estimate.WholeHoursCountInFull | kit-board/lib/cloud-estimate.ts:46-52 | a span over all hours of an account gives all their tokens |
| Estimate.FindProblem | kit-board/lib/cloud-estimate.ts:54-66 | the first problem among the local collectors in order |
| Estimate.NoProblemIffCovered | kit-board/lib/cloud-estimate.ts:54-66 | there is no problem exactly when there is an enabled local collector, the boundary hour is over, and every such collector reported within two hours and after it, and has collected since before the span without a lost root or line |
| Calibrations.SamplesSpan | kit-board/lib/cloud-estimate.ts:71-78 | the samples of a span begin and end with readings that agree with its two ends |
| Calibrations.CalibrationTelescopes | kit-board/lib/cloud-estimate.ts:68-90 | tokens and points are the sums over consecutive samples, and the rate times the points gives the tokens back |
| Calibrations.PreviewSucceedsIff | kit-board/lib/cloud-estimate.ts:68-90 | a preview succeeds exactly for a Claude account and two readings of one shared window, two hours to nine days back, between which readings are undisputed, steady, at least three and three points up, the span is covered, and tokens were counted |
| CloudEstimates.SelectBaselines | kit-board/lib/cloud-estimate.ts:104-109 | the loop gives what Baselines defines |
| CloudEstimates.BaselinesAreMaximal | kit-board/lib/cloud-estimate.ts:101-109 | at most five, of the selected scope, pairwise apart, and none of the scope could be added |
| CloudEstimates.BaselinesPreferRecent | kit-board/lib/cloud-estimate.ts:101-109 | what is passed over overlaps a baseline confirmed no earlier, or there are five such |
| CloudEstimates.MedianSplits | kit-board/lib/cloud-estimate.ts:110-111 | the median has as many rates below as above it; of an even number it is the mean of the two in the middle |
| CloudEstimates.SpreadIsLargest | kit-board/lib/cloud-estimate.ts:112-112 | the spread times the median is the largest difference between two rates |
| CloudEstimates.RatesAreClose | kit-board/lib/cloud-estimate.ts:110-112 | the median is positive; at a spread of at most 35% every rate is that close to it |
| CloudEstimates.CollectIntervals | kit-board/lib/cloud-estimate.ts:118-125 | the loop gives what Intervals defines |
| CloudEstimates.IntervalsAreDisjoint | kit-board/lib/cloud-estimate.ts:117-125 | the intervals come one after the other, each within bounds and with prorated tokens |
| CloudEstimates.IntervalsWithinSpan | kit-board/lib/cloud-estimate.ts:118-127 | the intervals take no more time and no more tokens than the span from the first to the last |
| CloudEstimates.UnbrokenIntervalsAddUp | kit-board/lib/cloud-estimate.ts:118-127 | where every pair of readings counts, points, tokens and time are those of the whole span |
| CloudEstimates.EstimateIsMeasured | kit-board/lib/cloud-estimate.ts:113-125 | the intervals of an estimate are exactly the measured pairs of adjacent readings since a day ago or the last baseline; the latest reading is at most two hours old and its window is open |
| CloudEstimates.EstimateCloud | kit-board/lib/cloud-estimate.ts:92-137 | the checks in order, each with its failure, then the estimate |
| CloudEstimates.EstimateSucceedsIff | kit-board/lib/cloud-estimate.ts:92-137 | an estimate is given exactly when there is a Claude account, an active calibration, agreeing baselines, undisputed fresh readings, and intervals with three points and no more local tokens than the total |
| CloudEstimates.EstimatesAreBounded | kit-board/lib/cloud-estimate.ts:117-136 | intervals are disjoint, after every baseline, at most 24 hours; local tokens within the proration; local plus unobserved is the total, unobserved not negative |
| CloudEstimates.BaselinesAreSound | kit-board/lib/cloud-estimate.ts:98-112 | the baselines behind an estimate are active, maximal for the latest confirmed scope, and within 35% of the rate used |

## Left out

- Numbers: kept as their texts, so `1.0` and `1` differ and rounding or overflow of JavaScript's `Number` is not modelled.
- Order of members: objects are maps, so the order of members in a file is not modelled; an object is enumerated with its
  integer-like keys first and the others in code-unit order, in the printer and wherever the source goes through
  `Object.keys`. Findings and failures of one object therefore come in that order.
- Jsonc.ParseJsonc: says nothing about which pointers are returned together with a syntax error; the model leaves them open.
- Jsonc.Parser.Run: error messages are reduced to their kind and position, because their wording carries no state.
- Extractor.DocumentExtractor.Run: the `notes` list (one note for enabled plugins) and the wording of reasons are not modelled.
- Extractor.ExtractEntries: the commit of a document is taken as given; finding it among the sources is not modelled.
- Redact.RedactString: the regular expressions are uninterpreted predicates and replacements.
- RedactionTheorems.NothingIsLeft: rests on an assumption about the replacements, since the expressions are uninterpreted.
- Normalize.NormalizeRule: the two regular expressions are written out as tests on the last units, with the white space that
  `\s` and `trim` share.
- Diff.RawDeltas: the notes that deltas carry for display (multiplicity, locations, changed fields) are not modelled, because
  nothing computes with them.
- Diff.ReplacePairs: for the same reason a replacement's notes are not modelled.
- Diff.PairHookCommandChanges: notes are not modelled here either.
- Extractor.DocumentExtractor.Failed: the wording of a record's reason is not modelled.
- Extractor.DocumentExtractor.ExtractPluginFlag: the note that enabled plugins add is not modelled.
- Direction.ChangedMcpValues: computes the names of one map at a time; the labels `env` and `header` put before them are
  not modelled.
- Reversal.ReversedComparison: hooks are not claimed, since a paired hook's delta has the key of the head's hook.
- Direction.Classify: notes are not modelled, and the case mapping of environment names is part of the given `Sensitive`.
- Verdict.ComputeVerdict: the `reasons` texts are not modelled.
- CloudEstimates.EstimatesAreBounded: the bound on local tokens is stated for hours that count no fewer than zero tokens.
- Tokens and percentages are real numbers and instants are integers; rounding of floating point and dates that do not parse
  are not modelled.
- SHA-256 of UTF-8 text is taken as one function of the text and as injective where a theorem requires it.
- Decoding UTF-8 bytes: parsing starts from code units, whose encoded length is computed for the size limit.
- Extra keys inside a hook object or a matcher group are not recorded by the source, and nothing is claimed of them.
- Reordering two entries of one key within a file can show as moved, so reorder invariance is claimed only without ties.
- The interpretations, the renderers, `explain`, snapshot files, discovery, git access and the command line are not part of
  this model.
- Helper methods such as `ParseMember`, `ParseWhole`, `ExtractGroup` or `ListNames` are parts of one method of the source,
  split so that each has its own contract.
- The remaining `kit-board` modules (stores, crypto, views, proxies, settings) are not part of this model.
