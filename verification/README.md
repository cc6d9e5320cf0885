# Bragi: a verified model of the server's core algorithms

Bragi is a music server. This project models the parts of it that carry real algorithms and
protocols, and proves what they promise:

- the smart-playlist compiler, which turns a rule tree into SQL conditions, merges EXISTS tests on the
  same field and drops COALESCE where it can (`Criteria*.dfy`, `SqlLogic.dfy`,
  `SqlLike.dfy`);
- the lyrics engine: voice allocation and word cues for Lyricsfile, byte offsets through whitespace
  collapse, trimming and joining for TTML and Enhanced LRC, and cue-end normalisation (`Lyrics*.dfy`,
  `Ttml.dfy`, `EnhancedLrc.dfy`, `CueEnds.dfy`);
- playlist positions under a UNIQUE constraint that is checked row by row (`Playlist*.dfy`);
- the artwork queue, where `retry_at` doubles as a version token (`ArtworkQueue.dfy`);
- the scanner: crash and resume of full scans, ignore patterns, the directory walk, folder and file
  reconciliation, moved tracks, and the lock between scans and maintenance (`ScanResume.dfy`,
  `IgnorePatterns.dfy`, `FolderWalk.dfy`, `FolderFiles.dfy`, `MovedTracks.dfy`, `ScanLock.dfy`);
- the database-analysis scheduler (`DbAnalyze.dfy`);
- the paging shortcuts (`Paging.dfy`).

SQL tables are maps, conditions are predicates over rows with three-valued truth, and code that works
by changing state is a class with methods or a method with loops, proved against a function or a
relation on values. Protocols with several actors or with crashes are state machines, and their
theorems are about every run.

## Where a promise does not hold for every input

In these places the code meets what it or its comments promise only under a condition; the code is
modelled as it is, and the condition is proved exact in both directions.

- Dropping COALESCE selects the same tracks exactly for the operands of `ExactOperand`: text operands
  are the exception (`CriteriaSql.BareFormExactIff`).
- Merging preserves the meaning of all rule trees exactly when all names of a tag agree on whether it
  is numeric (`CriteriaCompile.FaithfulIffConsistentTags`).
- Lines that sound at a common instant never share a voice, whatever their ends, exactly when no start
  stands above both an earlier and a later one (`LyricsfileVoices.NeverSharedIff`, with the input of
  `LyricsfileVoices.BackwardStartShares`). On ascending starts no assignment that keeps such lines apart
  uses fewer voices exactly when one voice is used or a line that has a length reaches the depth: a line
  without a length takes a voice as well (`LyricsfileVoices.OptimalForCommonInstantsIff`). A word's range lies inside the line exactly when that word or
  a later one has text (`LyricsfileWords.CueInsideIff`).
- No two spaces are adjacent in a TTML value exactly when no line has an open seam: every piece is
  sanitised twice, sanitising unescapes one level of entities at a time, and a space that appears only
  the second time is not collapsed with its neighbour (`Ttml.SingleSpacesIff`,
  `Ttml.EscapedSpaceIsDoubled`).
- For the same reason a TTML cue can hold text of another piece, or be lost: whichever pieces are timed,
  each gets the cue of its own text exactly when the bytes counted before the second normalisation and
  those written after it agree at every boundary, the trim allowed for (`Ttml.CuesAreOwnIff`,
  `Ttml.EscapedSpaceMovesCues`).
- No text of an Enhanced LRC line with markers is lost exactly when the line begins with a marker and
  every marker followed by text has a readable time (`EnhancedLrc.NothingLostIff`).
- Cue ends fit between their own start and the next one, whatever the ends given, exactly when no two
  adjacent starts descend (`CueEnds.EndsAlwaysFitIff`).
- Reorder does not check its arguments. For any of them it completes exactly when no two rows meet
  (`Clashes`), and then leaves the positions 1..n exactly when `KeepsNumbering` holds
  (`PlaylistRepository.Repository.Reorder`). A call between existing positions that does not complete
  leaves the moved track parked at the sentinel; the server calls it inside a transaction
  (core/playlists/playlists.go:304), which undoes that.
- A request for artwork made after a worker dequeued the item is lost to that worker exactly when a
  later statement gives the row again the token the worker saw, and leaves it standing
  (`ArtworkWorkers.RequestLostIff`). A bulk request that lists an item in two of its chunks can do so
  (`ArtworkWorkers.RepeatedKeyLosesRequest`); requests that list it in one chunk cannot,
  coinciding instants and outlived backoffs aside (`ArtworkWorkers.OneChunkRequestsSurvive`).
- A full scan request that is cut short is taken up by the next quick run exactly when some library
  already had a full scan under way, or had none and ScanBegin was reached for it
  (`ScanResume.FullRequestSurvivesIff`).
- A scan of one target agrees with a scan of the library about the folders below exactly when the walk
  from the root reaches the target, or the target does not exist (`FolderWalk.TargetAgreesIff`).
- Every database track off disk is listed as missing exactly when no two of them share a path
  (`FolderFiles.EveryRowAccountedIff`).
- Skipping by rowid equals LIMIT and OFFSET exactly when no rowid occurs on both sides of the offset
  (`Paging.RewriteIsExactIff`); hydrating in batches delivers what hydrating row by row would exactly
  when no error cuts a batch short and no failed lookup concerns a row with artwork
  (`Hydration.BatchesAreRowByRowIff`).

## Model

| member | source | states |
|---|---|---|
| `SqlLogic.AndAllByMembership` | persistence/criteria_sql.go:141-150 | a three-valued conjunction depends only on which truth values occur in it |
| `SqlLogic.OrAnyByMembership` | persistence/criteria_sql.go:151-160 | a three-valued disjunction depends only on which truth values occur in it |
| `CriteriaSql.BareFormOnRow` | persistence/criteria_sql.go:702-742 | for an admitted operand the bare column form, with or without IS NULL, is TRUE of a row exactly when the COALESCE form is |
| `CriteriaSql.BareFormDiffers` | persistence/criteria_sql.go:702-742 | for every other operand there is a row on which the two forms part |
| `CriteriaSql.BareFormExactIff` | persistence/criteria_sql.go:682-742 | the bare form selects the rows of COALESCE(col, default) for all rows if and only if the operand is admitted by ExactOperand |
| `CriteriaMerge.GroupByField` | persistence/criteria_sql.go:488-512 | the first loop files every mergeable condition of the polarity under its field, in order, and nothing else |
| `CriteriaMerge.MakeBatches` | persistence/criteria_sql.go:513-540 | a field's conditions are cut into consecutive batches |
| `CriteriaMerge.EmitGroups` | persistence/criteria_sql.go:513-540 | batches are emitted in key order for exactly the fields with two or more conditions, whose positions are the ones removed |
| `CriteriaMerge.MergeSameFieldConds` | persistence/criteria_sql.go:478-550 | the result is the kept conditions in order followed by every field's groups; without anything to merge it is the input |
| `CriteriaMerge.BatchesCover` | persistence/criteria_sql.go:453-457 | batches flatten back to the members, number ceil(n/350), and hold 1 to 350 each |
| `CriteriaMerge.MergeAccounts` | persistence/criteria_sql.go:478-550 | per field, the emitted groups list that field's conditions once each and in order; no group is empty, oversized or of the wrong polarity |
| `CriteriaCompile.ExistsOverOr` | persistence/criteria_sql.go:552-607 | a merged EXISTS over a disjunction holds exactly when one of the single EXISTS tests would |
| `CriteriaCompile.MergePreserves` | persistence/criteria_sql.go:459-476 | merging changes no truth value of an OR, nor, for negated conditions by De Morgan, of an AND |
| `CriteriaCompile.ComparisonCorrect` | persistence/criteria_sql.go:682-700 | a compiled comparison on a column, an annotation, a tag or a role is TRUE exactly when its meaning is |
| `CriteriaCompile.RangeCorrect` | persistence/criteria_sql.go:292-315 | a range compiles exactly when it is a pair on a column, and is both comparisons |
| `CriteriaCompile.PeriodCorrect` | persistence/criteria_sql.go:317-340 | in-the-last compares with the start of the period; its negation also selects rows without a date |
| `CriteriaCompile.MissingCorrect` | persistence/criteria_sql.go:207-253 | is-missing and is-present are complements: NULL and the column's empty values on one side, everything else on the other |
| `CriteriaCompile.LeafCorrect` | persistence/criteria_sql.go:161-198 | each kind of leaf compiles exactly when it is valid, and then is TRUE of the rows its meaning selects; what pattern, comparison, list and null leaves mean is said in terms of the row's values by the lemmas that follow |
| `CriteriaCompile.CompiledIsFaithful` | persistence/criteria_sql.go:139-198 | by induction over All and Any: with consistent tags and exact operands the compiled tree selects, of all rows, those the tree means |
| `CriteriaCompile.Compile` | persistence/criteria_sql.go:139-198 | compilation fails exactly on invalid trees; its result is faithful for consistent tags and exact operands |
| `CriteriaCompile.FaithfulIffConsistentTags` | model/criteria/fields.go:149-180 | all trees of exact operands are compiled faithfully if and only if every name of a tag agrees on whether it is numeric |
| `CriteriaCompile.MixedCastLosesTracks` | persistence/criteria_sql.go:478-550 | otherwise merging applies the first condition's cast to both and loses a track the rule selects |
| `CriteriaSelects.PatternRuleSelects` | persistence/criteria_sql.go:255-290 | a pattern rule with text operand x selects exactly the rows whose column is not NULL and has a beginning, an end or a part LIKE x, or has none when negated; of a tag or role, the rows with some, or no, such value |
| `CriteriaSelects.PlainTextFits` | persistence/criteria_sql.go:173-180 | for an operand without wildcards that is: the text begins with, ends with or contains the operand itself, but for the case of ASCII letters |
| `SqlLike.PlainIsItself` | persistence/criteria_sql.go:255-290 | a pattern without wildcards matches exactly the texts equal to it but for ASCII case |
| `SqlLike.FoldIs` | persistence/criteria_sql.go:255-290 | case is folded for the letters A to Z and for nothing else |
| `CriteriaSelects.NumberRuleSelects` | persistence/criteria_sql.go:682-742 | a number rule on a numeric column selects by value under the operator, a missing annotation counting as its default and text standing above all numbers |
| `CriteriaSelects.TextRuleSelects` | persistence/criteria_sql.go:682-700 | a text rule on a text column selects by equality or by the order of texts, and never NULL |
| `CriteriaSelects.TextLessIff` | persistence/criteria_sql.go:682-700 | one text is below another exactly when it is smaller where they first differ, or ends there |
| `CriteriaSelects.ListRuleSelects` | persistence/criteria_sql.go:682-700 | a list selects the texts that are in it; negated, the values that are not, and with an empty list everything |
| `CriteriaSelects.NullRuleSelects` | persistence/criteria_sql.go:682-742 | comparing with null selects NULL columns, of which an annotation has none |
| `CriteriaSelects.TagRuleSelects` | persistence/criteria_sql.go:200-205 | is and isNot on a tag ask for some value equal to the text, or for none |
| `CriteriaSelects.RoleRuleSelects` | persistence/criteria_sql.go:415-451 | is and isNot on a role ask for a credited artist of that name, or for none |
| `CriteriaSelects.NumericTagRuleSelects` | persistence/criteria_sql.go:390-413 | a number rule on a numeric tag asks for some value that passes once cast to a number |
| `CriteriaSelects.MissingRoleSelects` | persistence/criteria_sql.go:207-253 | a role is missing exactly without any credit of it, whether or not the credited artist is known |
| `CriteriaSelects.PatternRuleCompilesIff` | persistence/criteria_sql.go:609-642 | a pattern rule is accepted exactly for registered fields that are tags, roles or have a column |
| `CriteriaSelects.ComparisonCompilesIff` | persistence/criteria_sql.go:682-700 | a comparison is accepted exactly for such a field and an operand that can be rendered: null and flat lists for equality only |
| `CriteriaSelects.BareFormUsedIff` | persistence/criteria_sql.go:702-742 | the bare column is compared exactly for scalars that read as a number, or, for = and <> on a flag, as true or false |
| `CriteriaSelects.MergedIff` | persistence/criteria_sql.go:478-550 | a condition disappears into a group exactly when another condition of its polarity is on the same tag or role |
| `LyricsfileWords.JoinWords` | model/lyrics_lyricsfile.go:239-283 | the line's value is the words' texts joined |
| `LyricsfileWords.CueWords` | model/lyrics_lyricsfile.go:239-283 | one cue per word, with the word's inclusive byte range in the joined text |
| `LyricsfileWords.WordsToLineCues` | model/lyrics_lyricsfile.go:239-283 | without words the sanitised text and no cues; otherwise the joined words, and for each cue the word's text, start and agent, and its own end or the next word's start |
| `LyricsfileWords.WordCueReads` | model/lyrics_lyricsfile.go:239-283 | a non-empty word's range reads back its own text |
| `LyricsfileWords.WordCuesInOrder` | model/lyrics_lyricsfile.go:239-283 | ranges of non-empty words end before later ones begin |
| `LyricsfileWords.CueInsideIff` | model/lyrics_lyricsfile.go:239-283 | a range lies inside the line if and only if its word or a later one has text |
| `LyricsfileVoices.AllocatesLowestFree` | model/lyrics_lyricsfile.go:128-173 | on ascending starts every line gets the lowest voice not held by a line sounding when it starts |
| `LyricsfileVoices.SearchIsBounded` | model/lyrics_lyricsfile.go:140-146 | for every set of active voices the search stops within their number |
| `LyricsfileVoices.LowestFreeBelowDepth` | model/lyrics_lyricsfile.go:140-146 | a lowest-free voice is below the number of lines sounding when the line starts, itself included |
| `LyricsfileVoices.DepthIsNeeded` | model/lyrics_lyricsfile.go:128-173 | no assignment that keeps a line off the voices sounding when it starts uses fewer voices than any line's depth |
| `LyricsfileVoices.VoicesAreOptimal` | model/lyrics_lyricsfile.go:110-173 | on ascending starts no line gets a voice sounding when it starts, the number of voices is the greatest number of lines sounding at a line's start, that line included, and no assignment does with fewer |
| `LyricsfileVoices.OptimalForCommonInstantsIff` | model/lyrics_lyricsfile.go:110-173 | on ascending starts lines that sound together never share a voice, and no assignment achieving this uses fewer voices if and only if one is used or a line that has a length reaches the depth |
| `LyricsfileVoices.NeverSharedIff` | model/lyrics_lyricsfile.go:128-173 | for given starts, no choice of ends makes lines with a common instant share a voice if and only if no start stands above both an earlier and a later one |
| `LyricsfileVoices.BackwardStartShares` | model/lyrics_lyricsfile.go:128-173 | with starts 0, 10, 5 the first and the last line can sound together on one voice |
| `LyricsfileLines.FreeVoice` | model/lyrics_lyricsfile.go:140-146 | the search finds the least voice that is not active |
| `LyricsfileLines.VoiceLines` | model/lyrics_lyricsfile.go:128-173 | the loop over the active map gives each line its resolved end, its cues and the voice of the allocation, and finds the top voice |
| `LyricsfileLines.StripAgents` | model/lyrics_lyricsfile.go:175-184 | lines built again as if no voice had been attributed |
| `LyricsfileLines.BuildLines` | model/lyrics_lyricsfile.go:110-217 | agents are announced exactly when several voices and some cues exist, and then are all voices from 0 to the top one, the first as main; every line has its start, and as end its own, else its last word's, else the next start |
| `LyricsfileLines.VoiceIdInjective` | model/lyrics_lyricsfile.go:151-151 | different voices have different agent ids |
| `LyricsText.TrimmedSlice` | model/lyrics_ttml.go:520-561 | the two byte bounds cut exactly the encoded trimmed text out of the encoded text |
| `LyricsText.ClipAllReads` | model/lyrics_ttml.go:520-561 | clipped cues read their values from the trimmed text; ranges are ordered and disjoint |
| `LyricsText.CharIsSpelt` | model/lyrics_ttml.go:520-561 | byte offsets count UTF-8: each character takes one to four bytes by its code point, and they spell it |
| `LyricsText.SpacesAre` | model/lyrics_ttml.go:520-561 | the characters trimmed are the white space of Unicode |
| `Ttml.CollapseWhitespace` | model/lyrics_ttml.go:568-587 | runs of blanks become one space |
| `Ttml.CollapseFixes` | model/lyrics_ttml.go:568-587 | collapsing leaves collapsed text alone, also right after a space |
| `Ttml.CollapseKeepsInk` | model/lyrics_ttml.go:568-587 | collapsing loses no other character and keeps their order |
| `Ttml.CollapseKeepsWords` | model/lyrics_ttml.go:568-587 | the words between blanks are the same before and after |
| `Ttml.CollapseKeepsEnds` | model/lyrics_ttml.go:568-587 | blanks at either end stay as one space, and nothing else becomes one |
| `Ttml.SplitPiecesByBreak` | model/lyrics_ttml.go:492-518 | pieces are split at breaks, each line holding what LinesHoldTheirPieces says, and whitespace is collapsed across piece boundaries |
| `Ttml.StretchesRejoin` | model/lyrics_ttml.go:492-518 | the stretches between breaks, put together again with breaks, are the pieces |
| `Ttml.SplitIsByStretch` | model/lyrics_ttml.go:492-518 | every stretch becomes one line, and there are no others |
| `Ttml.LinesHoldTheirPieces` | model/lyrics_ttml.go:492-518 | there is one line more than breaks; line k holds, in order and with their own timing and agent, exactly the pieces between breaks k-1 and k that are not empty once normalised, a leading space dropped where the line already ends in one |
| `Ttml.SplitIsTidy` | model/lyrics_ttml.go:492-518 | when sanitising settles on the pieces given, every resulting line is collapsed as a whole and each piece is already sanitised |
| `Ttml.FinalizeLogicalLine` | model/lyrics_ttml.go:520-561 | a logical line's trimmed text and the cues clipped to it |
| `Ttml.FinalizeReads` | model/lyrics_ttml.go:520-561 | whatever sanitising does, a line's cues read their values from its text, in order and disjoint |
| `Ttml.CueIsItsPiece` | model/lyrics_ttml.go:520-561 | in every line's text each piece stands, as it is once normalised again, at the bytes written before it |
| `Ttml.CuesAreOfPieces` | model/lyrics_ttml.go:534-558 | a line's cues are those of its timed pieces, in order, each at the bytes counted |
| `Ttml.CuesAreOwnIff` | model/lyrics_ttml.go:520-561 | whichever pieces are timed, each gets the cue of its own text if and only if bytes counted and bytes written agree at every boundary, the trim allowed for |
| `Ttml.TidyBoundsAgree` | model/lyrics_ttml.go:520-561 | they agree on every line that normalising again does not change |
| `Ttml.EscapedSpaceMovesCues` | model/lyrics_ttml.go:534-538 | a space escaped twice makes the first of two cues take in the whole line and the second one disappear |
| `Ttml.CueBelongsToPiece` | model/lyrics_ttml.go:534-558 | every cue has the timing and agent of a piece, and where bytes counted and written agree it holds text of that very piece |
| `Ttml.TidyTextHasSingleSpaces` | model/lyrics_ttml.go:520-561 | a tidy line's text has no two adjacent spaces |
| `Ttml.DropEmptyEnds` | model/lyrics_ttml.go:445-481 | empty lines are dropped at both ends only |
| `Ttml.JoinLines` | model/lyrics_ttml.go:445-481 | lines are joined by newlines and cues moved by the offset of their line |
| `Ttml.JoinReads` | model/lyrics_ttml.go:445-481 | joining keeps every cue on its own text and the ranges in order |
| `Ttml.SeamsDecide` | model/lyrics_ttml.go:520-561 | a line's text has two adjacent spaces exactly when a space meets a space between two pieces with something visible on either side |
| `Ttml.SingleSpacesIff` | model/lyrics_ttml.go:445-481 | the joined value has no two adjacent spaces if and only if no line of the split has such a seam |
| `Ttml.EscapedSpaceIsDoubled` | model/lyrics_ttml.go:563-566 | a space escaped twice, next to a space, leaves two adjacent spaces |
| `Ttml.BuildLineFromPieces` | model/lyrics_ttml.go:445-481 | for all pieces: every cue's range in the final multi-line value reads the cue's value, ranges are ordered and disjoint, no two spaces are adjacent exactly when there is no open seam, and so when sanitising settles on the pieces given; the value is that of some stretches a to b, only blank ones outside, with one newline per break between them |
| `Ttml.ValueShape` | model/lyrics_ttml.go:445-481 | the value has as many newlines as breaks less the blank lines dropped at either end |
| `Ttml.JoinFront` | model/lyrics_ttml.go:445-481 | the first line stands first, then a newline and the others |
| `EnhancedLrc.StripMarkers` | model/lyrics_lrc.go:285-293 | a line without usable markers is its text with the markers taken out |
| `EnhancedLrc.ScanMarkers` | model/lyrics_lrc.go:178-240 | the scan over sorted, disjoint markers collects the text between them and its byte segments |
| `EnhancedLrc.ScanIsConsecutive` | model/lyrics_lrc.go:178-240 | the segments are consecutive and inside the collected text |
| `EnhancedLrc.TrailingIs` | model/lyrics_lrc.go:193-240 | only a readable last marker with nothing after it is a trailing one |
| `EnhancedLrc.WordsAreBetween` | model/lyrics_lrc.go:193-240 | markers and the words after them make up the whole line |
| `EnhancedLrc.ParseEnhancedLine` | model/lyrics_lrc.go:178-270 | each cue's byte range reads its value from the returned trimmed text, and ranges are ordered and disjoint |
| `EnhancedLrc.CueEndsAre` | model/lyrics_lrc.go:236-270 | the last cue ends at the time of a marker at the very end of the line; no other cue has an end |
| `EnhancedLrc.CuesTileTheLine` | model/lyrics_lrc.go:178-270 | the cues' values, joined, are the whole trimmed text collected from the markers, each byte once |
| `EnhancedLrc.NothingLostIff` | model/lyrics_lrc.go:193-233 | the collected text is the line without its markers if and only if the line begins with a marker and every marker followed by text has a readable time |
| `EnhancedLrc.CueBelongsToMarker` | model/lyrics_lrc.go:193-260 | a cue starts at the time of a readable marker and holds text of the word after that very marker |
| `EnhancedLrc.ShiftCues` | model/lyrics_lrc.go:295-312 | a copy with every time moved and nothing else changed |
| `EnhancedLrc.EmitOccurrences` | model/lyrics_lrc.go:94-105 | every occurrence of a repeated line has the same text, byte ranges and cue offsets from its own start; the first keeps the cues as written |
| `EnhancedLrc.ParseTimeReads` | model/lyrics_lrc.go:314-358 | fields written with any number of digits and a fraction of up to three are read as their value in milliseconds |
| `EnhancedLrc.FractionWidth` | model/lyrics_lrc.go:314-358 | a trailing zero of the fraction does not matter |
| `CueEnds.NormalizeCueEnds` | model/lyrics_normalize.go:138-171 | starts, values and everything but ends unchanged; ends as resolved for all cues, or for none |
| `CueEnds.AllOrNone` | model/lyrics_normalize.go:129-171 | ends are given to all cues or to none, and to all exactly when every cue resolves |
| `CueEnds.MissingEndIff` | model/lyrics_normalize.go:138-163 | an end cannot be resolved exactly without an own end, a next start and a fallback |
| `CueEnds.ResolvedEndIs` | model/lyrics_normalize.go:138-163 | the end wanted is the own one, else the next start, else the fallback; one that overruns the next start becomes that start, and one that then precedes the own start becomes the own start |
| `CueEnds.FittingEndKept` | model/lyrics_normalize.go:129-163 | with ascending starts an own end that fits is kept, and a missing one is the next start, or a fitting fallback after the last cue |
| `CueEnds.Idempotent` | model/lyrics_normalize.go:138-171 | a second pass changes nothing |
| `CueEnds.EndsFit` | model/lyrics_normalize.go:129-163 | no end ever precedes its own start, and none overruns a next start that does not descend, whether or not other starts are present |
| `CueEnds.EndsAlwaysFitIff` | model/lyrics_normalize.go:129-163 | for given starts, the ends fit for all ends given and every fallback if and only if no two adjacent starts descend |
| `CueEnds.GroupByAgent` | model/lyrics_normalize.go:97-115 | every cue's index is filed once under its agent, agents in order of appearance |
| `CueEnds.Scatter` | model/lyrics_normalize.go:116-126 | a normalised group goes back to its own places and touches no other agent |
| `CueEnds.NormalizeCueEndsByAgent` | model/lyrics_normalize.go:97-127 | restricted to any one agent the result is the normalisation of that agent's cues alone |
| `CueEnds.SingleAgent` | model/lyrics_normalize.go:97-113 | the single-agent shortcut gives what the general path would |
| `CueEnds.NormalizeLineTiming` | model/lyrics_normalize.go:45-82 | a line without own times spans its cues from earliest start to latest end; other times are kept |
| `PlaylistPositions.FreshPositionsAreSafe` | db/migrations/20200608153717_referential_integrity.go:129-130 | distinct positions no other row of the playlist holds can be written row by row in any order without a duplicate |
| `PlaylistPositions.RenumberSteps` | persistence/playlist_repository.go:454-471 | both statements of renumber are safe in any row order, keep the order of the rows, and close the gaps |
| `PlaylistPositions.RepositionedIsMove` | persistence/playlist_track_repository.go:246-284 | within 1..n the four statements together move one element of the list |
| `PlaylistPositions.WithoutPositionsIs` | persistence/playlist_track_repository.go:227-234 | deleting by position leaves exactly the elements whose position, counted from 1, is not listed, in order |
| `PlaylistPositions.OnlyKnownIs` | persistence/playlist_repository.go:418-452 | removing orphans leaves exactly the elements that are known, in order |
| `PlaylistPositions.ReorderKeepsNumberingIff` | persistence/playlist_track_repository.go:246-284 | for every size and all arguments for which no two rows meet, the positions the statements reach are 1..n if and only if the arguments meet KeepsNumbering |
| `PlaylistReorder.StatementIsSafe` | persistence/playlist_track_repository.go:252-283 | for all arguments for which no two rows meet, each of the four statements keeps positions distinct at every single row, in any row order |
| `PlaylistReorder.ClashIsNotUnique` | persistence/playlist_track_repository.go:252-283 | where two rows meet, four completed statements would leave a duplicate position |
| `PlaylistReorder.SentinelClash` | persistence/playlist_track_repository.go:252-283 | when a neighbour would be shifted onto the sentinel the second statement must violate the constraint |
| `PlaylistReorder.FourStatements` | persistence/playlist_track_repository.go:252-283 | for any arguments, four completed statements act on each position as Reposition says |
| `PlaylistReorder.ReorderKeepsNumberedIff` | persistence/playlist_track_repository.go:246-284 | completed statements leave positions exactly 1..n if and only if KeepsNumbering holds of the arguments |
| `PlaylistRepository.SmallPlaylistsNeverHitSentinel` | persistence/playlist_track_repository.go:252-283 | below 999,999 tracks no pair of existing positions reaches the sentinel |
| `PlaylistRepository.Repository.Update` | db/migrations/20200608153717_referential_integrity.go:129-130 | a statement takes effect as a whole or is undone; it succeeds when no row order can meet a duplicate |
| `PlaylistRepository.Repository.Reorder` | persistence/playlist_track_repository.go:246-284 | for any arguments it completes exactly when no two rows meet, and then leaves positions 1..n exactly when KeepsNumbering holds; between existing positions it refines moving an element; other playlists are untouched |
| `PlaylistRepository.Repository.Renumber` | persistence/playlist_repository.go:454-477 | rows are numbered 1..n in their order, with the same tracks, and other playlists are untouched |
| `PlaylistRepository.Repository.InsertRows` | persistence/playlist_repository.go:282-291 | one multi-row insert after the last position meets no duplicate and appends its tracks |
| `PlaylistRepository.Repository.AddTracks` | persistence/playlist_repository.go:277-295 | statements of 200 rows append the tracks |
| `PlaylistRepository.Repository.Add` | persistence/playlist_track_repository.go:179-195 | refines append; adding nothing changes nothing |
| `PlaylistRepository.Repository.Delete` | persistence/playlist_track_repository.go:227-234 | refines dropping the elements at the given positions |
| `PlaylistRepository.Repository.DeleteAll` | persistence/playlist_track_repository.go:236-244 | refines the empty list |
| `PlaylistRepository.Repository.UpdatePlaylist` | persistence/playlist_repository.go:266-275 | refines replacing the list |
| `PlaylistRepository.Repository.RemoveOrphans` | persistence/playlist_repository.go:418-452 | in every playlist exactly the tracks with a known media file remain, in order |
| `PlaylistRepository.Repository.Run` | persistence/playlist_track_repository.go:179-284 | any run of operations keeps every playlist's positions exactly 1..n and refines the same run on plain lists |
| `ArtworkQueue.Queue.InsertChunked` | persistence/artwork_queue_repository.go:146-159 | chunked inserts amount to one insert of all items, all with the same time |
| `ArtworkQueue.Queue.Enqueue` | persistence/artwork_queue_repository.go:46-50 | queued rows get the highest of their own priority and those asked for, no attempts and the present time as token; new ones the highest asked for |
| `ArtworkQueue.Queue.EnqueuePreservingBackoff` | persistence/artwork_queue_repository.go:52-55 | queued rows have their priority raised to the highest asked for and keep attempts, token and time of enqueuing; new ones get the highest asked for and the present time |
| `ArtworkQueue.Queue.EnqueueIfMissing` | persistence/artwork_queue_repository.go:57-109 | exactly the items that are neither resolved nor queued are inserted, with the priority asked for first; queued rows stay as they are |
| `ArtworkQueue.Queue.DequeueBatch` | persistence/artwork_queue_repository.go:161-172 | at most n due rows of the kinds, highest priority first and the longer queued first among equals, and none left out that comes before one taken |
| `ArtworkQueue.Queue.Settle` | core/artwork/worker.go:236-275 | a row with another token than seen is left alone; otherwise a final outcome or an exhausted budget ends it, and any other reschedules it within the budget and changes nothing else |
| `ArtworkQueue.PutAllRow` | persistence/artwork_queue_repository.go:46-109 | the row of any key after an insert of any mode, in terms of the row before: which exist, what is kept, and what is set |
| `ArtworkQueue.PutAllPriority` | persistence/artwork_queue_repository.go:46-109 | after an insert the priority of a row asked for is the greatest of its own and those asked for; under DO NOTHING a new row has the one asked for first |
| `ArtworkQueue.FirstPriorityIs` | persistence/artwork_queue_repository.go:76-109 | the priority asked for first is that of the first item of the key, if there is one |
| `ArtworkQueue.EveryRowInserted` | persistence/artwork_queue_repository.go:46-109 | both of the above for every key of the table |
| `ArtworkQueue.UnresolvedIs` | persistence/artwork_queue_repository.go:76-109 | exactly the resolved items are left out, and the others keep their order |
| `ArtworkQueue.KeyIs` | persistence/artwork_queue_repository.go:146-159 | an item without an image type is queued as the primary one |
| `ArtworkQueue.ResetTakesMaxPriority` | persistence/artwork_queue_repository.go:46-50 | a row asked for again has at least every priority asked for |
| `ArtworkQueue.SettlingSparesIff` | persistence/artwork_queue_repository.go:174-185 | deleting or rescheduling, to any time, spares a fresh request if and only if its stamp differs from the token seen |
| `ArtworkWorkers.SettleActsIff` | persistence/artwork_queue_repository.go:174-185 | settling a ticket changes the table exactly when the row still has the token seen |
| `ArtworkWorkers.TokenStep` | persistence/artwork_queue_repository.go:46-185 | a row has a token after a statement exactly when the statement set it, or had it before and was neither removed nor given another |
| `ArtworkQueue.PreservingRequestIsSettled` | persistence/artwork_queue_repository.go:52-55 | a request that keeps the backoff keeps the token, so settling still removes the row |
| `ArtworkWorkers.RequestSurvivesOlderTicket` | core/artwork/worker.go:236-275 | in every interleaving of statements, chunk by chunk, a request whose clock was read after a worker dequeued the item survives whatever that worker does, unless a later statement gives the row the token seen |
| `ArtworkWorkers.RequestLostIff` | core/artwork/worker.go:236-275 | such a request is lost to the older ticket if and only if a later statement sets the token seen and it is left standing |
| `ArtworkWorkers.OneChunkRequestsSurvive` | persistence/artwork_queue_repository.go:146-159 | when no request lists the item in two chunks, no retry time is the instant of a clock reading and no backoff is outlived, a fresh request survives every older ticket |
| `ArtworkWorkers.RepeatedKeyLosesRequest` | persistence/artwork_queue_repository.go:146-159 | for every item, a run in which a bulk request with the item in two chunks makes a worker delete a fresh request |
| `ArtworkWorkers.SettlerSawTheRequest` | core/artwork/worker.go:236-275 | whoever removes or reschedules a requested row dequeued it after the request was written, unless the row was given again a token already handed out |
| `ArtworkWorkers.PriorityNeverDrops` | persistence/artwork_queue_repository.go:46-55 | in every run a row's priority never decreases while it stays queued |
| `ArtworkWorkers.RecheckNeverAlters` | persistence/artwork_queue_repository.go:57-109 | recheck inserts leave every queued row as it is |
| `ScanResume.StepCatchesUp` | scanner/scanner.go:137-251 | every step of every run, crashes and failing phases that still mark folders missing included, keeps a library that has begun a full scan catching up |
| `ScanResume.FullScanIsFinished` | scanner/scanner.go:137-151 | after any number of crashed or failed runs, quick or full, the run that ends the library's scan was a full one, and each folder it emitted is collected or updated since the beginning |
| `ScanResume.BegunFullScanIsFinished` | persistence/library_repository.go:160-177 | the same from a database at rest, for whichever event recorded the full scan |
| `ScanResume.FullRequestSurvivesIff` | scanner/scanner.go:137-251 | a full request cut short at any point is taken up by the next quick run if and only if some library already had a full scan under way, or had none and ScanBegin was reached for it |
| `ScanResume.CrashForgetsFullRequest` | scanner/phase_1_folders.go:78-81 | over interrupted quick scans alone, a full request is forgotten by the next crash or failure, wherever in the run it comes |
| `ScanResume.QuickJobSkipsUnchanged` | scanner/folder_entry.go:65-70 | a folder with an unchanged hash is selected exactly when the job is full and the folder is older than the scan |
| `ScanResume.ChangedIsSelected` | scanner/folder_entry.go:65-70 | every job, quick or full, selects a known folder whose hash has changed |
| `ScanResume.NewIsSelectedIff` | scanner/phase_1_folders.go:154-184 | an unknown folder is selected unless the scan is quick and finds no files in it |
| `ScanResume.ChangedFolderIsPersisted` | scanner/phase_1_folders.go:154-184 | in every run that comes to mark missing folders, each folder emitted whose hash differs from the one known, or that is new and has files, has by then been persisted as present and with the hash emitted |
| `ScanResume.FullRunPersistsOld` | scanner/phase_1_folders.go:78-89 | in every full run, one that takes up an interrupted quick scan included, each folder emitted that was unknown or not updated since its library's scan began has by then been persisted |
| `ScanResume.JobsAlwaysFollow` | scanner/phase_1_folders.go:60-89 | in every reachable state each job dates from its library's row, and is full exactly when the run or the row says so |
| `ScanResume.MarkedIffNotEmitted` | scanner/phase_1_folders.go:494-522 | in every trace a folder of a prepared library is missing afterwards exactly when it was already, or was known as present at the beginning and not emitted |
| `ScanResume.EveryRunCanFinish` | scanner/scanner.go:137-251 | whatever crashes, failures and scans came before, a run under way can be brought to its end, and its libraries are then at rest |
| `IgnorePatterns.IgnoreChecker.RebuildCurrentPatterns` | scanner/ignore_checker.go:148-163 | the current patterns are the flattened stack and the matcher is compiled from them |
| `IgnorePatterns.IgnoreChecker.Push` | scanner/ignore_checker.go:35-41 | one level is added and the invariant kept |
| `IgnorePatterns.IgnoreChecker.Pop` | scanner/ignore_checker.go:44-49 | the last level is removed, if any, and the invariant kept |
| `IgnorePatterns.IgnoreChecker.PushAllParents` | scanner/ignore_checker.go:56-81 | one level for the root and for every folder down to the target, the target included |
| `IgnorePatterns.IgnoreChecker.ShouldIgnore` | scanner/ignore_checker.go:85-101 | the root is never ignored; any other path exactly when some pattern of the flattened stack ignores it and no later one says anything |
| `IgnorePatterns.VerdictIff` | scanner/ignore_checker.go:85-101 | a path is ignored exactly when some pattern says so and no later one says anything |
| `IgnorePatterns.LevelIs` | scanner/ignore_checker.go:56-81 | the levels pushed for a target are those of its prefixes, shortest first |
| `IgnorePatterns.DoublePushIsHarmless` | scanner/walk_dir_tree.go:46-68 | a level pushed twice in a row changes no verdict |
| `IgnorePatterns.RootAndTargetAgree` | scanner/walk_dir_tree.go:46-81 | while any folder is listed, the verdict on any path is the same whether the walk began at the root or at any target above |
| `FolderWalk.LoadDir` | scanner/walk_dir_tree.go:95-168 | the readable children not ignored, or failure exactly when the folder cannot be opened or the info of a file or of an unreadable subdirectory cannot be read; a folder that can be stat'ed is struck off in either case |
| `FolderWalk.WalkFolder` | scanner/walk_dir_tree.go:66-93 | the pattern stack is restored on every exit; the emitted folders, and the loaded ones struck off, are those of the recursive walk, whose contents EmittedIff, EmittedInOrder and LoadedIff give |
| `FolderWalk.LoadedIff` | scanner/walk_dir_tree.go:66-93 | a folder is loaded exactly when every folder on the way to it can be listed and has the next one as a readable child not ignored |
| `FolderWalk.EmittedIff` | scanner/walk_dir_tree.go:66-93 | a folder is emitted exactly when the walk reaches it and it can be listed under the patterns in force there |
| `FolderWalk.EmittedInOrder` | scanner/walk_dir_tree.go:66-93 | every folder is emitted once, and after all emitted folders below it |
| `FolderWalk.WalkDirTree` | scanner/walk_dir_tree.go:23-64 | each target is walked under its parents' patterns; targets that do not exist are passed over; what comes out is said by LibraryScanEmitsIff and TargetsAddUp |
| `FolderWalk.LibraryScanEmitsIff` | scanner/walk_dir_tree.go:23-64 | a scan of the whole library emits exactly the folders that are reached and can be listed, each once and after all folders below it |
| `FolderWalk.TargetsAddUp` | scanner/walk_dir_tree.go:46-64 | several targets load and emit what each of them does |
| `FolderWalk.ReconcileFolders` | scanner/phase_1_folders.go:494-522 | the folders marked missing are exactly those known as present minus those the walk loaded |
| `FolderWalk.TargetWalkIsRootWalk` | scanner/walk_dir_tree.go:46-81 | from a folder down, a walk that began there and a walk that began at the root load and emit the same folders |
| `FolderWalk.LoadedUnder` | scanner/walk_dir_tree.go:66-93 | what a walk loads under a folder is what a walk of that folder alone loads if it is reached, and nothing otherwise |
| `FolderWalk.TargetAgreesIff` | scanner/walk_dir_tree.go:23-81 | a targeted and a full walk agree about the folders under the target if and only if the root walk reaches the target or it does not exist |
| `FolderFiles.LoadTracks` | scanner/phase_1_folders.go:216-224 | the folder's rows by path, the last one winning |
| `FolderFiles.RowIsLast` | scanner/phase_1_folders.go:216-224 | the row of a path is one of the cursor's, and no later one has that path |
| `FolderFiles.ProcessFolder` | scanner/phase_1_folders.go:205-248 | gives up exactly when a known file's info is unreadable on a quick scan; otherwise imports exactly the files that are unknown, newer than their row or thought missing, or all on a full scan, each with its last row, and lists as missing the rows whose file is not there, whatever the order of the files |
| `FolderFiles.SelectionIs` | scanner/phase_1_folders.go:226-248 | a file is imported exactly when it is unknown, newer than its row or thought missing, or the scan is full |
| `FolderFiles.EveryRowAccountedIff` | scanner/phase_1_folders.go:226-248 | every row is on disk or missing by its path; every row itself is accounted for if and only if no two rows off disk share a path |
| `MovedTracks.Search` | scanner/phase_2_missing_tracks.go:127-140 | the first unused exact match, else the last unused equivalent |
| `MovedTracks.Choose` | scanner/phase_2_missing_tracks.go:123-182 | never a used row; the first unused exact match, then the only candidate for the only missing track, then the last unused equivalent, and nothing only if there is none |
| `MovedTracks.SoleCandidateIsTaken` | scanner/phase_2_missing_tracks.go:154-167 | the only candidate for the only missing track of a group is taken, alike or not |
| `MovedTracks.PairsAreAlike` | scanner/phase_2_missing_tracks.go:123-182 | in any other group every pair is of tracks that are equal or equivalent |
| `MovedTracks.MediaFiles.MoveMatched` | scanner/phase_2_missing_tracks.go:275-297 | in one transaction the missing row takes over the matched row's data and the matched row is removed |
| `MovedTracks.MediaFiles.ProcessMissingTracks` | scanner/phase_2_missing_tracks.go:115-191 | wherever the database fails, the moves are a one-to-one matching by the choice rule, each used row out of reach; undisturbed, no exact or equivalent pair is left over |
| `MovedTracks.MediaFiles.MatchLibrary` | scanner/phase_2_missing_tracks.go:61-106 | over all groups of a library: matching one to one within persistent ids; files on disk neither lost, invented nor doubled; every missing id survives; one row fewer per move |
| `MovedTracks.MovedRows` | scanner/phase_2_missing_tracks.go:275-297 | after the moves each missing row holds its match's data under its old id and creation time, the matched rows are gone and no other row changed |
| `MovedTracks.DiskUnchanged` | scanner/phase_2_missing_tracks.go:115-191 | the set of (library, path) of present rows is unchanged |
| `MovedTracks.StillUniqueOnDisk` | scanner/phase_2_missing_tracks.go:117-120 | present rows with distinct places keep distinct places |
| `MovedTracks.MissingIdsSurvive` | scanner/phase_2_missing_tracks.go:275-290 | every missing id still exists with its creation and birth times, is present exactly if it was matched, and then has its match's place and content |
| `MovedTracks.RowsDropByMoves` | scanner/phase_2_missing_tracks.go:291-297 | the number of rows drops by the number of moves |
| `ScanLock.MutualExclusion` | scanner/controller.go:277-304 | in every state of every interleaving at most one thread is inside, be it a scan or maintenance, and the flag is set exactly while a scan owns it |
| `ScanLock.ClaimBarsMaintenance` | scanner/controller.go:295-304 | once a scan has claimed the flag no further maintenance gets in before it is done |
| `ScanLock.NoDeadlock` | scanner/controller.go:277-304 | unless all threads are idle some busy thread can take a step |
| `ScanLock.CanAlwaysFinish` | scanner/controller.go:203-208 | from every reachable state all threads can finish by steps that only bring them closer to idle |
| `ScanLock.NoRunIsStuck` | scanner/controller.go:277-304 | every run can be continued until every thread is idle |
| `ScanLock.ScanGetsIn` | scanner/controller.go:277-304 | a scan gets in when nothing is going on, and no other scan can claim the flag meanwhile |
| `ScanLock.MaintenanceGetsIn` | scanner/controller.go:277-304 | maintenance gets in when nothing is going on; a scan can then claim the flag but not enter |
| `ScanLock.MaintenanceStepsBack` | scanner/controller.go:295-304 | maintenance that takes the mutex from under a waiting scan sees the flag and steps back, and the scan enters |
| `DbAnalyze.PropsSummarise` | db/optimize.go:128-204 | after any history the four properties are its summary: pending unless a success came last, failures since the last success, times of the last failure and success |
| `DbAnalyze.RequestNeverLost` | db/optimize.go:122-130 | a request without a later recorded success is pending |
| `DbAnalyze.FailureIsPending` | db/optimize.go:175-204 | in every reachable state one or more failures imply pending |
| `DbAnalyze.BackoffIsTheWait` | db/optimize.go:87-119 | the scheduled check backs off exactly while the wait set by the failures in a row since the last one is not over |
| `DbAnalyze.WaitIs` | db/optimize.go:108-119 | the wait is half an hour after one failure, one hour after two, two after three, and a day after more |
| `DbAnalyze.DueIff` | db/optimize.go:53-80 | due exactly when the wait is over and a request or failure came last, or the last success is absent, a day old or in the future |
| `DbAnalyze.DueAfterADay` | db/optimize.go:53-80 | an analysis is due once 24 hours have passed since the last success and the last recorded failure |
| `DbAnalyze.Scheduler.MarkOptimizePending` | db/optimize.go:122-130 | a statement that takes effect records a request |
| `DbAnalyze.Scheduler.RecordSuccess` | db/optimize.go:147-166 | time, mark and count change together or not at all |
| `DbAnalyze.Scheduler.RecordFailure` | db/optimize.go:175-204 | mark, count and attempt time change together or not at all |
| `DbAnalyze.Scheduler.OptimizeAt` | db/optimize.go:132-145 | for every way the statements work, fail or crash, what is recorded and what is returned |
| `DbAnalyze.AttemptRecorded` | db/optimize.go:132-175 | a success is recorded exactly when all three statements work, a request when the first does, and a failure exactly when one fails without a crash and recording it works |
| `DbAnalyze.Scheduler.OptimizeDue` | db/optimize.go:53-106 | a positive answer means due, and with all properties readable the answer is exact |
| `DbAnalyze.Scheduler.OptimizeIfNeeded` | db/optimize.go:45-51 | never attempts inside the wait after the last failure; always attempts after a day without success or recorded failure |
| `DbAnalyze.Scheduler.Run` | db/optimize.go:20-51 | after any calls with any failures and crashes, every scheduled attempt on record was paced by its predecessors, and every accepted request is pending or followed by a recorded success |
| `Paging.AscendingUnique` | persistence/artwork_hydration.go:39-54 | under a strict total order rows have only one ascending order |
| `Paging.FetchIsSlice` | persistence/artwork_hydration.go:41-54 | fetching the ids of a stretch of the answer gives that stretch back |
| `Paging.PageIs` | persistence/sql_base_repository.go:132-140 | a page skips offset rows and takes at most max, or all when max is 0 |
| `Paging.StreamByIds` | persistence/artwork_hydration.go:21-37 | without failures the stream is the page of one query with LIMIT and OFFSET; otherwise its rows up to the first failing chunk |
| `Paging.RewriteIsExactIff` | persistence/sql_base_repository.go:439-448 | skipping by rowid returns what OFFSET does for every limit if and only if it does not apply or no rowid is on both sides of the offset |
| `Hydration.InfoForItems` | persistence/artwork_repository.go:152-174 | the lookups in chunks give the artwork of exactly the given ids |
| `Hydration.HydrateItems` | persistence/artwork_hydration.go:79-90 | one batched lookup fills every item as its own lookup would; a failed one leaves the items alone |
| `Hydration.HydrateCursor` | persistence/artwork_hydration.go:138-166 | rows come out hydrated, or as they were in the batches whose lookup fails; all of them on a cursor without errors, and up to an error only the rows of full batches |
| `Hydration.BatchesAreRowByRowIff` | persistence/artwork_hydration.go:138-166 | batches deliver what row-by-row hydration does if and only if no error cuts a batch short and no failed lookup concerns a row with artwork |

## Left out

- Criteria leaves that name several fields, sort orders, joins and the rendering of SQL text; the collation of text columns.
- Criteria: errors found only while a list operand is rendered are modelled as compile errors; one function stands for both the server's and SQLite's reading of numeric text.
- CriteriaCompile.FaithfulIffConsistentTags: the failing direction uses the text "a", and so the premise that "a" is not a number.
- Regular expressions, XML and YAML decoding, text sanitising and the .ndignore matcher are parameters: matches are sorted and disjoint, patterns are matched last-match-wins.
- TTML timing expressions, metadata tracks and agent resolution; LRC metadata lines, the sort of repeated lines and the rest of parseLRC; Lyricsfile metadata and plain lyrics.
- Normalisation of whole lyrics: a line end filled in from cue starts feeds the next pass, so idempotence is stated for NormalizeCueEnds only.
- Criteria: what a null operand does inside a text pattern or a period is left to the functions that format and parse operands.
- 64-bit overflow of times, positions and counters, and the 32-bit floating-point playlist counters.
- Playlist ownership, smart playlists, counters and cover rebuilds; selecting tracks by album, artist or disc before Add.
- ArtworkWorkers: the clock moves strictly forward between statements; requests that run inside a transaction are among the interleavings, their rollback is not.
- Pruning and counting of the artwork queue, and the acquisition of images.
- ScanResume: selective scans, which also end the scan of the whole library; a library whose job cannot be created ends its scan without any folder having been walked, and the theorem says nothing about folders then.
- FolderWalk.LoadDir: cancellation and the retry of failing directory reads are not modelled.
- FolderFiles.ProcessFolder: failing database reads, and reading tags and persisting what was selected.
- Moves across libraries, which keep no record of used rows; the reassignment of album annotations; reading the cursor of one library while moves of another are under way.
- The scan started from the command line, whose lock is released when the function returns; the lock theorems are about scans that hold it to the end.
- DbAnalyze: the stored properties start out absent; text that is no number counts as no failures.
- Paging.StreamByIds: the consumer reads to the end, and Offset without Max drops rows. Rows are unchanging and the sort order is a strict total one.
- HTTP, the web and Android clients, configuration, sharing, users, radios, players, backups and search.
