# LLMCloak: the tag store, the two restores, the stream and the vault history

LLMCloak keeps vault values out of what is sent to a language model. Each value in a text is
replaced by an opaque tag, a family such as `PWD_` followed by lowercase hex digits, and the tags
in the answer are replaced by the values again. This project models that machinery in Dafny and
proves what it promises: nothing of the vault is left between the tags, a text that went out comes
back as it was, a stream may be cut anywhere, and the vault file keeps its grammar and its protected
lines whatever is imported and taken back.

The parts, from the bottom up:

- **Texts and tags** (`Text`, `Shapes`): the character classes and scanners that stand for the
  regular expressions, and what a tag looks like from its left and right neighbours.
- **Restoring** (`Restore`, `Simultaneous`, `Stretches`, `Reports`): one family, a list of families one after
  another on the growing text, and the proof that families which keep out of each other's tags can be
  restored in one scan. A *stretch* is what stands between two characters of neither the family nor
  the hex alphabet, such as a blank or a comma; restoring never mixes stretches. A stretch is *calm*
  when its tags stand for values that make no tag with anything, or when it has one listed tag and
  shows none once the value is in its place.
- **Streams** (`Stream`, `Sse`, `SseText`, `Streaming`): the cut that holds back what may become a tag and
  nothing else, any number of chunks, the event-stream lines on top, and the forwarded text as a client
  reads it.
- **The tag store** (`TagStore`, `StoreRuns`): minting with widening cores, retagging, the reverse
  indexes, the family cache, loading, locking, and whole runs of these. The message authentication
  code is an arbitrary function into 64 hex digits; nothing is assumed about collisions.
- **Sanitizing** (`Sweep`, `Sanitize`, `LeakCheck`, `RoundTrip`, `Retags`, `PlainTexts`, `NoLeak`,
  `Repeats`, `EndToEnd`): the value sweep, the protected spans, the last check, and how a text comes back. A
  sanitized text is a *document*: literal fragments with one tag between neighbours, each tag with
  what it stands for. The *draft* is the document before the last check.
- **Tables** (`Headers`, `Rows`, `CacheShows`, `RowsBack`, `Cells`): whole-cell tags, column families, the
  per-value cache, and the way from a table to a later chat.
- **Bodies** (`Json`, `JsonBody`, `BodyCover`, `BodyService`): JSON trees walked string by string while the
  store grows, and what is sent of them.
- **Sessions** (`Sessions`): any interleaving of calls that sanitize texts, tables and bodies with
  single steps of the store.
- **The vault** (`Vault`, `Order`, `Filters`, `Imports`, `Persisted`, `ImportService`): the line grammar,
  the history of ingests, persisted tables, purges and rollbacks, and the way of a table's cell
  through the file to a later chat.

`Engine.Sanitizer`, `Streaming.StreamDesanitizer` and `ImportService.VaultFile` are the objects whose
fields the program updates in place. Each of their methods is proved equal to a step function, and
the theorems are about those functions. `SanitizeLoop`, `RestoreLoop` and `RowsLoop` hold the loop
arguments.

Where the code and its own words part ways the model follows the code. What that brings to light:

- A stream over a family list without `PWD_` is not the restore of the whole, because `desanitize`
  restores `PWD_` even when it is not listed while the stream holds back only listed families
  (`Stream.StreamInvariantIff`).
- Two tags in a row are misread when the first has a core of digits only: it is taken for part of a
  longer family (`Shapes.AdjacentTagsIff`).
- The last check of `sanitize` refuses texts in which nothing leaked. While `PWD_` is the only family
  it searches the tags as well: a text that is one of our own tags is refused when a value of four
  characters is spelled in it. With more families every tag counts as a blank, and a value with a
  blank in it is found when the text around a tag spells the rest (`NoLeak.OneTagIff`, exactly when;
  `NoLeak.NeverRefused` for the vaults that are safe).
- Because of that check the cache of a batch shows: a cell that comes round again after the batch
  brought in a family is taken from the cache, and would be refused if it were worked out anew
  (`CacheShows.CacheLetsPass`, a table on which it is; `Rows.CacheIsInvisible`, exactly when).
- Of two families one of which ends in the other, the order in which `desanitize` is given them
  matters: with the shorter first it restores inside the tags of the longer and leaves the front of
  their family standing (`Stretches.NestedOrderIff`).
- `restore_rows` looks a core up behind the length of the requested prefix whatever the family of the
  tag, since the pattern of any family takes the tags of all (`RowsBack.CellFallbackIff`). A whole-cell
  tag that is used in a text enters what lies behind the length of another family into the core index,
  underscore and all, so a tag of a family that was never minted can be restored
  (`RowsBack.StrayKeyIff`, `RowsBack.StrayKeyRestores`). And a cell with letters or digits glued to a tag
  stays as it is (`RowsBack.GluedTagIsLeftIff`).
- A typed column whose name starts with a digit, or is cut to sixteen characters at an underscore, has
  a family that restoring cannot read (`Headers.HeaderFamilyIff`); and in typed mode the cache key
  leaves out the column's own prefix (`Rows.KeyMissesOwnPrefix`).
- A rollback keeps a shared line only for earlier records, not "until its last importer is deleted":
  after a purge two records can list one value, and rolling the earlier one back takes the line from
  under the later (`Imports.PurgeMakesShared`; exactly when, `Imports.SharedStayIff`). It would also take
  out a named entry that a record lists: named lines are safe because nothing that is recorded names
  one (`Imports.RunProtects`).
- Cells of a sanitized table are written to the vault file with the white space around them, and the
  loader takes it off: such a cell is not a vault value after the next load, and its tag in the table is
  lost (`Persisted.PersistToChat`). A cell ` re:x` passes the filter and becomes a pattern
  (`Persisted.PersistedPattern`; exactly when protected lines stay, `Persisted.PersistProtectsIff`), and a
  rollback does not find the line again (`Persisted.PersistTakenBackIff`).
- A body that is no JSON can become JSON once its values are tags; it is then restored as JSON and does
  not come back as it was (`BodyService.TextBodyRoundTripIff`).
- An emptied vault file is read back as one blank line (`Imports.HistoryIff`), and ingest stores a
  value with an equals sign as a plain line, not behind `ing:` as its description says.
- The comment above `_OLD_TAG_RX` speaks of an anchor on the left which the expression does not have,
  and the branch that merges overlapping spans cannot be reached.

## Model

| member | source | states |
|---|---|---|
| Stream.DefaultStreamInvariant | core.py:1123-1174 | for every text, table and chunking, the outputs of feeding and flushing a `PWD_` stream, and the restoration count, are those of restoring the whole text, by the family list and by the single scan alike |
| Stream.StreamInvariantIff | core.py:808-835 | for families that keep out of each other's tags and of `PWD_` tags: every chunking of every text whose stretches are calm or exactly one tag, whatever that tag stands for and whatever else the tables hold, gives the restore of the whole exactly when `PWD_` is one of the families |
| Stream.CutIsInvisible | core.py:1142-1168 | one feed: what is released and everything that follows it restore independently, whatever comes next, with a single pass or on such a text, and what follows is such a text again |
| Stream.CutIsClean | core.py:1142-1163 | no tag of a listed family starts in the released text and reaches into the held text, for any continuation |
| Stream.ReleasedWholeIff | core.py:1142-1168 | a text is released whole exactly when no end of it is a proper prefix of a listed family and the last occurrence of every listed family has a finished core: twelve hex digits, or eight to eleven and then a character that is none |
| Stream.CutIsFirstWaiting | core.py:1142-1163 | otherwise it is held from the first position on at which it may still become a tag: a proper prefix of a listed family at its end, or the last occurrence of one with fewer than eight digits, or with fewer than twelve that end the text |
| Stretches.PassesAreOneScan | core.py:808-835 | restoring family after family on the growing text gives what one scan for all of them gives, when families keep apart and every stretch of the text is calm |
| Stretches.OnePassMore | core.py:828-832 | one pass of a family followed by the scan of the others is the scan of all, on such a text |
| Stretches.PassesPart | core.py:808-835 | the passes restore left and right of a character of neither alphabet independently, for all families and tables |
| Stretches.CutPieces | core.py:808-835 | a text whose stretches are calm or lone tags restores in two pieces over every cut that no listed tag straddles, and what follows the cut is such a text again |
| Stretches.NestedOrderIff | core.py:828-832 | a lone tag of a family that ends in another one: with the longer family first the passes are one scan, with the shorter first the front of the family stays in front of the value, so the order does not matter exactly when the value is spelled so |
| Restore.RestoreSplits | core.py:684-721 | the restore of a text is the restores of its two parts, text, count and report, when no tag straddles the cut |
| Restore.NoTagInside | core.py:751-752 | the static condition on two families that excludes a tag of one starting inside a tag of the other, or two tags at one place; a family may be the start of another |
| Restore.PassesHas | core.py:820-826 | the families tried are exactly the valid requested ones and `PWD_`, each once |
| Restore.PassesInOrder | core.py:820-826 | valid families that differ are tried in the order they were requested in, `PWD_` last unless it was requested |
| Streaming.StreamFamilies | core.py:1085-1121 | an invalid prefix is refused; otherwise the families are the prefix and then the valid listed ones, or those of the registered tags with four to twelve digits, each once and in order |
| Streaming.WatchedIff | core.py:1096-1106 | without a list a stream watches the family of a registered tag exactly when the tag has four to twelve hex digits |
| Streaming.StreamDesanitizer.constructor | core.py:1085-1121 | a new stream holds nothing and has restored nothing |
| Streaming.StreamDesanitizer.FindTail | core.py:1143-1148 | where the longest suffix that is a proper prefix of a family starts; no earlier one is |
| Streaming.StreamDesanitizer.FindLast | core.py:1151-1153 | the last occurrence of a family, or -1 |
| Streaming.StreamDesanitizer.CountHex | core.py:1154-1157 | the length of the hex run behind it |
| Streaming.StreamDesanitizer.FindCore | core.py:1149-1161 | where the last occurrence of a family starts, exactly when its core is not finished |
| Streaming.StreamDesanitizer.FindCut | core.py:1142-1161 | the first position at which some family may still become a tag |
| Streaming.StreamDesanitizer.Feed | core.py:1123-1168 | releases the restore of the text before the cut, holds the rest, counts the restorations; a text in which every tag is finished leaves the buffer empty and comes out restored whole, and what is held may still become a tag |
| Streaming.StreamDesanitizer.Flush | core.py:1170-1174 | restores what is held and empties the buffer |
| Streaming.StreamDesanitizer.ProcessLine | core.py:1209-1229 | a content event gets its content fed to the stream and is printed anew as a data line; any other line is returned as it is |
| Streaming.StreamDesanitizer.SseFeedChunk | core.py:1232-1245 | the complete lines of the buffered text are processed in order and the rest is kept |
| Streaming.StreamDesanitizer.SseFlush | core.py:1248-1266 | the unfinished line, then the held text as one more event of the shape last seen |
| Streaming.StreamDesanitizer.Forward | core.py:1232-1266 | a whole response, chunk by chunk, then closed: the text that is returned is read line by line as the lines that came in, each event at its place, and its contents are the restore of the contents that came in, under the premises of `SseText.ForwardedReads` |
| Sse.FramingInvariant | core.py:1232-1245 | for every chunking the framing state, the forwarded items and the count are those of the body in one piece |
| Sse.BodyRestored | core.py:1209-1266 | for every chunking: the forwarded items and the count are those of the body in one piece, lines that are no content events pass unchanged and in order, and events change only in their content; and when the families keep apart and every stretch of the contents is calm or a lone tag, the contents with the closing event are the restore of the contents that came in, with its count |
| Sse.ReplaceExtracts | core.py:1190-1206 | writing a content field keeps the place where it was found, and reading it gives what was written |
| Sse.ReplaceUndone | core.py:1190-1206 | nothing else in the event is lost: writing the old content back gives the event |
| Sse.FindIsFirst | core.py:1190-1206 | the content is the string at the first of four paths that has one: below the first choice in `delta`, there in `message`, in `message`, at the top; a document without any is no event |
| Sse.LookIff | core.py:1209-1222 | a line is an event exactly when it is `data:` and, white space around it or not, a JSON document with a content, other than `[DONE]` |
| Sse.LinesMatch | core.py:1209-1229 | line by line, what is forwarded is the line itself or the same event with other content |
| SseText.ForwardedReads | core.py:1209-1266 | for every chunking, the forwarded text read line by line: every line is closed by a newline, lines that are no events are there unchanged and in order, in place of each event stands an event with the same document but for its content, behind them at most one closing event and an empty line; and when the contents that came in are ready for a stream, the contents that are read are their restore, with the count. For a codec that parses what it prints, on one line without white space at its ends |
| SseText.ClosingIs | core.py:1248-1266 | the closing event has its content where the last event had it, the first choice always below `delta`, at the top when there was none |
| TagStore.Core | core.py:170-173 | a core of `n` bytes has `2n` lowercase hex digits |
| TagStore.FamilyEnd | core.py:733-735 | where the last underscore of a tag ends, zero without one |
| StoreRuns.Dedup | core.py:367-370 | the same values, each once |
| StoreRuns.RunIsLater | core.py:191-250 | over every run without a load or lock no tag entry, whole-cell entry or remembered family is lost and no entry is remapped |
| StoreRuns.RunKeepsFamilies | core.py:723-747 | in every reachable state the family cache is empty or right, every family of the table is remembered, and only a load forgets families, a lock does not |
| StoreRuns.MintRepeats | core.py:209-225 | repeating a mint gives the same tag and adds nothing, whatever was minted, retagged or looked up in between |
| StoreRuns.RetagRepeats | core.py:227-250 | the same for a foreign token that comes round again |
| Retags.RetagReadableIff | core.py:227-250 | a foreign token is given a tag that restoring reads exactly when one of the tags of the family with eight, ten and twelve digits of its core is free or its own; then it is the shortest of these |
| Retags.RetagRestores | core.py:227-250 | such a tag restores to the token with count one, alone and in front of anything that is no part of it, then or later |
| Retags.RetagLeavesOthers | core.py:239-249 | and nothing else restores differently: the core index keeps what it has, and only tags that nothing knew, with the token's core, restore to the token too |
| StoreRuns.ColumnFamilyIsUsed | core.py:178-207 | the next tag of a value has the family that was last set for it, if that is valid, else the one set before, else that of the call, else `PWD_` |
| StoreRuns.LastFamilyWins | core.py:178-189 | of two valid families set for a value one after the other the second is used |
| StoreRuns.TagsAreDistinct | core.py:209-225 | a tag handed out twice in an epoch was handed out for one value |
| StoreRuns.TagForRepeatsIff | core.py:191-207 | a value keeps its default tag exactly unless its short tag was entered for it in between while it had a wider one |
| StoreRuns.LoadIff | core.py:389-403 | a load succeeds exactly when values that share the 8-hex core differ in the 12-hex core; then tags and values are a bijection and a tag is wide exactly when its value shares the short core |
| StoreRuns.VaultIs | core.py:363-370 | values that differ are loaded in file order, the plain ones before the named ones |
| StoreRuns.LoadForgets | core.py:374-403 | a load forgets every family but the default one, whose tags it registers |
| StoreRuns.TagForAfterLoad | core.py:198-207 | after a load, a value without a column family is given the tag it was loaded with, and the table does not change |
| StoreRuns.ReloadRestores | core.py:358-403 | after a reload with the preserved salt a tag of eight digits, of any family, restores to the last vault value with its core |
| StoreRuns.ReloadRestoresIff | core.py:379-403 | it restores to the value it was issued for exactly when no later vault value has the same short core |
| Cells.ReloadRestoresText | core.py:772-806 | the same, seen by the restore of a text that is such a tag |
| Sweep.SweepIsScan | core.py:490-496 | any list of exactly all occurrences, sorted by start and longest first and swept greedily, gives the recursive leftmost-longest scan |
| Sweep.ScanIs | core.py:491-496 | the picks are occurrences, in order and disjoint, and no value starts between them |
| Sweep.Find | core.py:486-489 | the first occurrence at or behind a position, or none |
| Sweep.MatchesOf | core.py:484-489 | exactly all overlapping occurrences of a value |
| Sweep.AllMatches | core.py:483-489 | exactly all occurrences of all values |
| Sweep.SweepMatches | core.py:491-496 | the greedy picks |
| Text.TagLen | core.py:54-61 | where the tag of a family at the head of a text ends: the family and eight to twelve hex digits, as many as there are |
| Shapes.TokenAt | core.py:751-752 | the token at the head of a text has a family and at least eight digits |
| Shapes.FamilyRunIs | core.py:769-770 | the family part of a span is the longest run of the family alphabet without two underscores in a row |
| Shapes.TagIsToken | core.py:751-752 | a tag of eight to twelve digits is read as its own family and core, given what may follow it |
| Shapes.TagIsRaw | core.py:769-770 | such a tag is one protected span |
| Shapes.ShapeIsRaw | core.py:755-770 | so is a core glued to a family without its underscore, such as `R07_ST_MOD597531b7` |
| Shapes.LongRunIsNoSpan | core.py:769-770 | more than twelve digits behind `PWD_`, the first of them a letter, are no span |
| Shapes.SealedShapes | core.py:751-770 | what is read at the start of a literal does not depend on what follows its end, when its last character belongs to no family and no hex digit follows |
| Shapes.AdjacentTagsIff | core.py:751-752 | of two tags in a row the first is read as written exactly when its core has a letter |
| Sanitize.SanitizeIsGood | core.py:590-635 | sanitizing any text from any coherent state: the document spells the text, no literal fragment holds a vault value, kept tags are the spans that were there, and every new tag stands for what it replaced |
| Sanitize.SegmentIs | core.py:590-604 | gaps and protected spans put together are the text |
| RoundTrip.SanitizeCovers | core.py:590-635 | every occurrence of a vault value in the output overlaps a tag, for any overlapping or nested values and any mix of kept, retagged and plain spans |
| RoundTrip.RoundTrip | core.py:772-806 | restoring a sanitized text, then or later in the session, gives the text with its live tags expanded; without live tags it gives the text, foreign tokens included, with as many restorations as replacements; the tags are no wider than twelve digits, stand clear of family characters on the left and of hex digits on the right, and the literals hold no tag that resolves |
| PlainTexts.PlainRoundTrip | core.py:566-806 | an ordinary text with any number of foreign tokens in it, whole tags or glued ones: nothing else in it is shaped like a tag, and the values and tokens stand clear of family characters, of hex digits and of each other; from a state in which each value has a readable tag or will be minted a short one, and each token can be given a readable one, all different, under any prefix: the draft restores exactly, then or later, with as many restorations as values and tokens, and the call goes through exactly when the last check lets the draft pass |
| RoundTrip.ReportIsRestore | core.py:786-803 | the report of unknown tags changes neither text nor count |
| Reports.UnknownIsReported | core.py:786-803 | a tag that neither index knows stays as it is and is reported exactly when its family was seen, and what follows it is restored on its own |
| Reports.UnknownIsReportedOnce | core.py:808-835 | restored with a family list, a lone tag that is not known stays and is reported once exactly when its family is tried |
| Reports.LockRestoresNothing | core.py:417-435 | after a lock no text is changed by either restore, with any families, and a tag of a family seen before is still reported |
| RoundTrip.Idempotent | core.py:590-635 | under the same premises, with no span in the literals and no vault value equal to a tag, sanitizing the output again goes through, gives it back with count zero and leaves the very same state |
| NoLeak.OnlyLits | core.py:643-647 | between the blanks of the searched text there are only pieces of literal fragments, for families of which none goes on with eight hex digits where another ends in it, nested families included |
| NoLeak.RefusedOnlyForBlanks | core.py:636-679 | with more than one family, nested ones included, whatever value the last check finds in the draft has a blank in it |
| NoLeak.NeverRefused | core.py:636-679 | a vault whose values of four characters or more have no blank, or, while `PWD_` is the only family, cannot take characters of a `PWD_` tag, never has a text refused |
| NoLeak.AloneOnlyForTouching | core.py:643-658 | with `PWD_` alone whatever value the last check finds can take characters of a `PWD_` tag: a tag starts in it, or it starts in one |
| NoLeak.OneTagIff | core.py:643-658 | a text with one known tag and nothing else to protect or replace is refused exactly when a value of four characters or more stands in it, with `PWD_` alone, or stands in it with a blank for the tag, with other families |
| NoLeak.KnownTextIff | core.py:590-679 | a text whose tags are all known, with no value between them, is put out as it is exactly when the last check finds nothing in it |
| Repeats.SanitizeAgain | core.py:566-635 | a text that comes round again is put out as before, whatever was sanitized in between, and leaves nothing new, unless one of its spans became a tag, a vault value was tagged as a whole cell or given a new short tag; only families that are new to the last check can make it refuse the text; values that share a short core included |
| Repeats.SanitizeAlike | core.py:566-635 | neither the output nor the outcome of the last check depends on the core index and the family cache |
| Repeats.LoadTagsAll | core.py:389-403 | every load that goes through leaves every value a default tag of its own, the short one exactly when it shares its short core with no other |
| Repeats.SanitizeRules | core.py:501-635 | a call enters no short default tag for a vault value, no whole-cell tag and no column family: the tags it enters are for foreign tokens, of other families, or whole-cell tags |
| EndToEnd.StreamRoundTrip | core.py:1123-1174 | a sanitized text sent back in any chunks through a stream comes out as it was, with as many restorations as replacements, when its tags are of the watched families, these keep apart, and its stretches are calm |
| EndToEnd.PassesReadDoc | core.py:808-835 | the passes of a family list expand the document of a sanitized text, under the same condition on that text |
| EndToEnd.SetOffIsScannable | core.py:808-835 | the stretches of a sanitized text are calm when every tag stands between characters of neither alphabet or at an end of the text and no value shows a listed tag, whatever the values start or end with |
| Engine.Sanitizer.constructor | core.py:146-167 | a new store is empty and not loaded |
| Engine.Sanitizer.TagCore | core.py:170-176 | the core of a width, entered in the core index over whatever was there |
| Engine.Sanitizer.TouchFams | core.py:729-736 | drops the family cache and remembers the family of the tag |
| Engine.Sanitizer.GetFamilies | core.py:738-747 | the families of the table, from the cache or anew |
| Engine.Sanitizer.SetValuePrefixes | core.py:178-189 | column families of values: the valid ones are taken over, later ones win |
| Engine.Sanitizer.TagForValue | core.py:191-207 | the registered default tag, else a mint, in the value's column family if it has one |
| Engine.Sanitizer.MintTag | core.py:209-225 | the first of the five widths whose tag is free or the value's own; nothing when all are taken |
| Engine.Sanitizer.RetagToken | core.py:227-250 | three widths that restoring reads, then a mint; the core index keeps what it has |
| Engine.Sanitizer.TagOfPick | core.py:501-509 | a value with a whole-cell tag keeps that tag |
| Engine.Sanitizer.GroupByShortTag | core.py:389-392 | after the first pass a group has more than one member exactly for values that share the short core |
| Engine.Sanitizer.Register | core.py:393-400 | one value of the second pass, or a refusal when its tag is another's |
| Engine.Sanitizer.RegisterAll | core.py:393-403 | the second pass over all values |
| Engine.Sanitizer.LoadFromLists | core.py:358-403 | the whole load, and whether it succeeds |
| Engine.Sanitizer.Clear | core.py:362-388 | what a load wipes first, the whole-cell tags not among it |
| Engine.Sanitizer.LockStore | core.py:417-435 | everything is wiped but the remembered families |
| Engine.Sanitizer.PickValues | core.py:475-496 | matches, sort and sweep give the leftmost-longest picks |
| Engine.Sanitizer.ReplacePicks | core.py:497-514 | the picks replaced by their tags from left to right, with the count |
| Engine.Sanitizer.SanitizePlain | core.py:464-514 | one pass over a fragment without protected spans |
| Engine.Sanitizer.LocateSpans | core.py:591-604 | the protected spans that are no vault value, and which of them are to be replaced |
| Engine.Sanitizer.EmitCut | core.py:609-629 | a gap through the value pass unless it is empty, and the span behind it kept or replaced whole |
| Engine.Sanitizer.ProcessSpans | core.py:605-635 | all gaps and spans in order |
| Engine.Sanitizer.SanitizeParts | core.py:566-635 | refused without a vault, else the draft's text and count |
| Engine.Sanitizer.ListFamilies | core.py:640-642 | the families of the table, the remembered ones and `PWD_`, each once and sorted |
| Engine.Sanitizer.BlankTags | core.py:643-647 | every tag of a listed family becomes one blank |
| Engine.Sanitizer.FindsLeak | core.py:648-659 | whether a value of four characters or more is left |
| Engine.Sanitizer.Sanitize | core.py:566-681 | the four ways a call ends, last check included, with the state and the counter each leaves |
| Engine.Sanitizer.DesanitizeOne | core.py:684-721 | the tolerant pattern's loop is the scan that replaces tags and nothing else |
| Engine.Sanitizer.DesanitizeMulti | core.py:772-806 | the loop over all families is the single scan with its report |
| Engine.Sanitizer.DesanitizeFamilies | core.py:808-835 | the loop over the listed families is the sequence of passes |
| Headers.NormHeader | core.py:94-103 | a column name has only lowercase letters, digits and lone underscores, sixteen characters at most |
| Headers.HeaderFamilyIff | core.py:94-103 | its family can be read back exactly when the name starts with a letter and does not end at an underscore |
| Headers.NameStays | core.py:94-103 | what stands around a name in a header is dropped, and the name is kept, up to sixteen characters |
| Headers.WordsJoin | core.py:94-103 | two names with anything else between them are joined by one underscore |
| Rows.HeaderIsNotTagged | core.py:947-948 | a header cell is never tagged whole |
| Rows.HeaderRowIsNotTagged | core.py:942-982 | nor is any cell of the header row, which leaves the cache and the whole-cell tags alone |
| Rows.FirstRowIsHeader | core.py:940-984 | a request with a header tags nothing in its first row |
| Rows.NoVaultNoTable | core.py:850-866 | without a vault no table with a non-empty cell goes through |
| Rows.WholeCellIff | core.py:866-981 | a cell below the header that is worked out is tagged whole exactly when nothing in it was replaced, it has four characters or more, the request says `tag`, its column is listed when columns are listed, and in typed mode its column has no name, or none of the names that stay clear, or was listed; the tag has the column's own prefix, else the family of the column's name, else the request's prefix; in every other case the cell is what its text became |
| Rows.RowIsCells | core.py:942-982 | a row is its cells one after the other, each as if it were the last, so this holds of every cell |
| Rows.TableIsRows | core.py:937-985 | a table is its rows one after the other, and only the first is a header row, when there is a header |
| Rows.ValueIsReplaced | core.py:866-867 | a vault value without a tag-shaped span in it is replaced, so it is never tagged whole |
| Rows.CellKeeps | core.py:850-888 | a cell leaves a later, coherent state and, when its vault values hold no span, the rules of `Repeats.SanitizeRules` |
| Rows.CacheIsInvisible | core.py:937-982 | working out every cell anew gets through exactly when the run with the cache does and every cell taken from the cache would pass the last check as the store is by then, and gives the same rows, totals and store; when no span of a cell becomes a tag during the batch, every vault value has a default tag, and columns with one cache key are given one family; no cell fails the check when the batch brings in no family |
| CacheShows.CacheLetsPass | core.py:937-982 | a table of two equal rows on which the batch gets through with its cache and is refused without it, from every store with one value, one kept tag and no family but the default |
| CacheShows.ExampleIsStage | core.py:146-167 | such a store |
| Rows.KeyMissesOwnPrefix | core.py:964-977 | two typed columns with one cache key get one family exactly when both or neither have a prefix of their own, or the name spells the prefix |
| RowsBack.RowsRoundTrip | core.py:890-1065 | a sanitized table restores to the table, cell for cell, with as many restorations as replacements and tagged cells, in typed and untyped mode and with the cache, when every cell as it was worked out can be read back; a cell tagged whole needs nothing but a tag that is read, and a cell with tags in it calm stretches |
| RowsBack.CellRoundTrip | core.py:1012-1057 | the same for one cell |
| RowsBack.PatternsAreOne | core.py:74-77 | the whole-cell pattern of one family takes the tags of every family |
| RowsBack.CellReports | core.py:1017-1048 | a cell that is a whole tag, or looks like a default one, is replaced by one value or stays as it is and is reported |
| RowsBack.LikeTagIff | core.py:1040-1048 | letters and digits behind `PWD_` that make no tag stay, and are reported exactly when there are six or more |
| RowsBack.TableReports | core.py:990-1065 | what any cell reports the table reports, each tag once |
| RowsBack.CellFallbackIff | core.py:1018-1039 | a whole tag that only the core index knows: the text restore finds it by its core, the cell restore finds something exactly when what lies behind the length of the prefix is a key of the index, and the same exactly when that key has the same value |
| RowsBack.RunKeyed | core.py:170-176 | over every run, loads and locks included, a key of the core index is a core or the end of a whole-cell tag |
| RowsBack.StrayKeyIff | core.py:501-507 | using a whole-cell tag in a text enters a key that is no core exactly when its family is longer than the one whose length is cut off |
| RowsBack.ShorterPrefix | core.py:1026-1032 | with a prefix shorter than the tag's family the cell restore finds only what the end of a whole-cell tag was entered for |
| RowsBack.StrayKeyRestores | core.py:501-507 | a cell tagged under a longer family and used in a text makes a tag of another family of that length, never minted, restore to its value |
| RowsBack.GluedTagIsLeftIff | core.py:1040-1048 | a known default tag with something glued to it that no core could take up is restored in a text, and left in a cell exactly when all of it is letters and digits |
| RowsBack.LeftIff | core.py:1040-1056 | a cell that is no whole tag, and in which the text restore finds something, is left as it is exactly when it looks like a default tag |
| Engine.Sanitizer.SanitizeOneCell | core.py:850-888 | vault values first, then a whole-cell tag where `Rows.WholeCellIff` says so |
| Engine.Sanitizer.SanitizeRow | core.py:942-982 | one row, the cache looked up first except in the header row |
| Engine.Sanitizer.SanitizeTable | core.py:890-988 | the whole table, or a refusal of the request |
| Engine.Sanitizer.RestoreOneCell | core.py:1017-1056 | a whole tag is looked up, a tag-like cell left, anything else restored as a text |
| Engine.Sanitizer.RestoreRow | core.py:1010-1062 | one row through a cache that holds only what the cell restores to |
| Engine.Sanitizer.RestoreTable | core.py:990-1065 | the whole table, or a refusal of the prefix |
| Cells.CellKeepsTag | core.py:882-887 | a cell tagged whole and then loaded under the same salt keeps its tag, and no other value holds it |
| Cells.TableToChat | core.py:501-507 | the cell tagged whole and loaded under the same salt at any later time is replaced, in every text of every state of that session, by its first tag, the one the table carried unless it had one before; the text restores while no whole-cell tag is taken by another value |
| Persisted.PersistToChat | service.py:1794-1851 | a table's cell, persisted and the file reloaded under the same salt: it is a vault value from then on exactly when the file held it or it is new, safe and without white space at its ends; then every later text of the session gets the table's tag for it, and otherwise no tag of any family restores to it after the reload |
| Persisted.PersistHolds | service.py:1794-1836 | after persisting, a load holds exactly what it held and the new, safe cells without the white space around them |
| Persisted.CellIsHeldIff | service.py:1794-1836 | a cell new to the file is held exactly when it has no white space at its ends and the filter lets it through |
| Persisted.BrokenIsNotHeld | service.py:1827-1836 | a cell with a line break is never held |
| Persisted.PersistKeepsGrammarIff | service.py:1815-1828 | persisting leaves the named entries and extends the secrets by exactly the new cells in order, exactly when none of them has white space at its ends |
| Persisted.PersistProtectsIff | service.py:1815-1828 | it leaves the protected lines exactly when no new cell starts with a marker behind white space |
| Persisted.PersistedPattern | service.py:1815-1828 | a cell with `re:` behind a blank passes the filter and is read as a pattern |
| Persisted.PersistTakenBackIff | service.py:1837-1849 | a rollback undoes it exactly when every new cell with white space at its ends is among the new cells without it as well |
| Cells.ChatUsesCellTags | core.py:501-507 | in any text every replaced value with a whole-cell tag gets that tag |
| JsonBody.JsonRoundTrip | service.py:2084-2097 | restoring a sanitized tree gives the tree, with as many restorations as replacements, although the store grew from leaf to leaf |
| JsonBody.WalkKeepsShape | service.py:2084-2097 | keys, lengths and leaves that are no strings are never changed |
| JsonBody.ZeroMeansSame | service.py:2125-2134 | a total of zero means that every leaf is unchanged |
| JsonBody.WalkIsLater | service.py:2084-2097 | the walk stays in the epoch it started in |
| BodyCover.WalkCovers | service.py:2084-2097 | every string of the sanitized tree is spelled by a document of the string that stood there, without a vault value between its tags, each of which stands for what it replaced, and the replacements add up to the total |
| BodyService.BodyRoundTrip | service.py:2100-2161 | a JSON body that is sent and comes back parses to what it was, for a codec that parses what it prints of documents that differ from the body in strings only; one without a replacement is sent as it stands |
| BodyService.BodyIsGuarded | service.py:2100-2134 | whatever body is sent: one that is no JSON is spelled by such a document of it, with its replacements as the count; of a JSON body a tree of the same shape is sent, string by string spelled like this, printed unless nothing was replaced, and a faithful codec reads that tree in it |
| BodyService.TextBodyRoundTripIff | service.py:2119-2161 | a body that is no JSON comes back as it was exactly when what was sent is no JSON either, and then with as many restorations as replacements |
| BodyService.MissedIsLeaves | service.py:2137-2161 | a body that comes back reports the unknown tags of its strings, from left to right |
| Sessions.SessionIsRun | service.py:2084-2161 | any sequence of calls that sanitize texts, tables and bodies, also such as are refused half way, is a run of single steps whose loads and locks are those that were called |
| Sessions.SessionKeeps | core.py:464-982 | so every session keeps the family cache right, the core index in form, and within an epoch every entry and every value's default tag |
| Sessions.SessionRoundTrip | core.py:566-806 | a text that was sanitized restores at any later time of the session, whatever was sanitized or tagged in between |
| BodyService.WalkStrings | service.py:2084-2097 | the walk of a tree with the sanitizer, string by string in order |
| BodyService.WalkList | service.py:2093-2094 | the same, item by item |
| BodyService.WalkDict | service.py:2095-2096 | the same, value by value; the keys stay |
| BodyService.SanitizeBody | service.py:2100-2134 | refused without a vault; whatever is returned is guarded as in `BodyService.BodyIsGuarded`; no change gives the body back |
| BodyService.ReturnStrings | service.py:2084-2097 | the same walk with the restore, with the unknown tags in order |
| BodyService.ReturnList | service.py:2093-2094 | the same, item by item |
| BodyService.ReturnDict | service.py:2095-2096 | the same, value by value; the keys stay |
| BodyService.RestoreResponse | service.py:2137-2161 | text and count of the way back; no restoration gives the text back |
| Vault.RereadIs | dashboard.py:279-298 | lines without breaks are read back as they were written, an empty file as one blank line |
| Vault.StripIs | core.py:305 | stripped text has no white space at its ends, and only such text is left alone |
| Vault.StripTakesSpace | core.py:305 | stripping takes nothing but white space off, at both ends |
| Imports.IngestKeepsGrammarIff | service.py:659-690 | after an ingest, patterns and named entries are as before and the secrets are extended by exactly the accepted cells in order, exactly when no accepted cell has a line break |
| Imports.AcceptedIff | service.py:674-681 | the filter lets a cell through exactly when the loader would read it as that very secret |
| Imports.HistoryIff | service.py:2038-2080 | over all runs of ingests, persisted tables and rollbacks, of cells without line breaks and persisted cells without white space at their ends, the file is the initial lines and the surviving records, exactly when there was a line to begin with |
| Imports.RunStaysInStep | service.py:2019-2080 | from every state in step: the same, and records never share a value |
| Imports.RollbackInStep | service.py:2038-2080 | a rollback removes exactly its record's lines |
| Imports.RunProtects | service.py:674-797 | over every run of ingests, persisted tables, purges and rollbacks the comment, pattern and named lines are the same in the same order, when persisted cells are as safe without the white space around them as with it |
| Imports.SharedStayIff | service.py:2038-2066 | after any run over cells without line breaks, purges included, what the surviving records list stays on file when a record is rolled back exactly when no value on file is shared with later records alone |
| Imports.SharedNeedsPurge | service.py:2038-2066 | without purges no surviving record loses a value |
| Imports.PurgeMakesShared | service.py:754-797 | ingest, purge and ingest again of one value makes two records list it: rolling back the first takes the line, rolling back the second leaves it |
| Imports.PurgeIs | service.py:754-797 | a purge is refused exactly when a cell names a protected line that is no comment; else exactly the lines that some cell names go, comments excepted, the others stay in order, and no record changes |
| Imports.AppendProtectsIff | service.py:674-690 | appending keeps the protected lines exactly when nothing that is appended is one |
| ImportService.VaultFile.constructor | dashboard.py:279-289 | a vault file with no imports |
| ImportService.CollectCells | service.py:640-647 | the stripped, non-empty cells, each once, in order |
| ImportService.KnownValues | service.py:659-669 | exactly the values the lines stand for |
| ImportService.VaultFile.SelectNew | service.py:674-683 | the cells that are not known and safe to store |
| ImportService.VaultFile.ValuesOf | service.py:2051-2053 | exactly the values of the earlier records |
| ImportService.VaultFile.CsvIngest | service.py:650-706 | the new lines appended, written and read back, and the record kept |
| ImportService.VaultFile.PersistValues | service.py:1794-1851 | the new cells appended as they stand, sorted, written and read back, the record kept, and how many there were |
| ImportService.VaultFile.DropLines | service.py:2059-2066 | the lines a rollback keeps |
| ImportService.VaultFile.ImportRollback | service.py:2038-2080 | found or not, how many lines went, and the new file and registry |
| ImportService.VaultFile.ClassifyLines | service.py:769-778 | protected lines and those that may be purged |
| ImportService.VaultFile.SelectGone | service.py:783 | the cells that name a purgeable line |
| ImportService.VaultFile.RemoveLines | service.py:785 | the lines that none of them names |
| ImportService.VaultFile.CsvPurge | service.py:754-797 | refused when a cell names a protected line, else exactly the matching lines go |

## Left out

- HTTP routes, forwarding, headers, notices, logging, statistics and thread locking: every operation is atomic, as the store holds one lock.
- Key derivation, encryption, the digest itself, file permissions and renames: the digest is an arbitrary function and every write succeeds.
- `re:` patterns of a vault: the text theorems are for stores without them; their lines are part of the vault grammar.
- The Aho-Corasick index: any source of exactly all occurrences gives the same picks by `Sweep.SweepIsScan`.
- Reading and printing of JSON and CSV text: a pair of functions, and rows of cells; that a printed document of the shape of a parsed one parses to itself is a premise of `BodyService.BodyRoundTrip`, and that an event is printed on one line a premise of `SseText.ForwardedReads`. Ingested cells have no line breaks because the text is split into lines first.
- Case folding and non-string cells in tables: `lower` is a parameter and a cell is a string.
- Engine.Sanitizer.LoadFromLists: the hook that rebuilds column families is a step of its own (`SetValuePrefixes`), which `load_vault` calls at core.py:350-353; the call in `load_from_lists` at core.py:412 names a variable that does not exist there, and the error is swallowed. A new store has empty family memory and column families where the program only creates them at the first load.
- ImportService.VaultFile.CsvIngest: does not report how many entries the reload added, nor the column prefixes of a record.
- NoLeak.NeverRefused: one way only, since another value of the vault may keep a value at risk from ever standing in an output; `NoLeak.OneTagIff` says exactly which texts with one tag are refused.
- RoundTrip.RoundTrip: tags wider than twelve digits are not read back by the program and are outside the premise.
- Rows.CacheIsInvisible: for tables whose columns with one cache key are given one family; `Rows.KeyMissesOwnPrefix` says which typed columns are not.
- The second parser of vault lines in the dashboard, masking, sessions, endpoints, delimiter detection and the command line: no state of their own, or library behaviour.
