# hfst-tokenize, modelled in Dafny

This project models the text side of `hfst-tokenize`, the HFST pmatch tokenizer. The
program reads text and cuts it into chunks: at blank lines, or one chunk per line. It
hands each chunk to a matcher, which returns one group of alternative analyses
(`Location`s) per span. It then prints every group in one of five output formats:

- tokenize;
- xerox;
- Constraint Grammar (cg);
- Giellatekno/Divvun CG with subreadings (gtd);
- FinnPos.

The matcher is a parameter of the model. Everything it returns is taken as given.

Each printer is a method that appends to an `OutStream`, a class whose one field is the
text written so far. Each printer is proved to write exactly what a specification
function says, and lemmas state what that function promises.

Modules:

- `Text`: `find`/`rfind` on one character, field splitting and joining, newline counting.
- `Locations`: the matcher's result, the two separators, well-formedness of part offsets.
- `Options`: the settings, the `Globals` class that `parse_options` updates, and the
  folding of options into settings.
- `Output`: the output stream.
- `StringSet`: `std::set<std::string>` as a strictly ascending sequence.
- `Subreading`: `print_cg_subreading`.
- `Gtd`: `print_location_vector_gtd`, the subreading decomposition. The loop state is
  `(out_end, in_end, part)`, one pass is `Step`, and the whole run is `Decompose`.
  Termination, reconstruction of the analysis and the surface forms are proved about them.
- `Finnpos`: the finnpos branch of `print_location_vector`.
- `Printers`: `print_escaping_newlines`, `print_no_output`, `print_nonmatching_sequence`
  and `print_location_vector`.
- `Driver`: `match_and_print` and `process_input`.

The driver is proved generic over any chunk printer (`Driver.Run`) that prints as
`match_and_print` does. The whole run is `ProcessText`, which is `Run` with
`match_and_print`'s own printer.

Exceptions are modelled as a `Halt` value that ends the run:

- `OutOfRange`: finnpos reads `at(0)` of an empty group.
- `Unmodelled`: a gtd group holds a location outside the modelled ones: one on which
  the source's loop never ends, or one that breaks the matcher's offset invariant
  (see below).

Where the documented behaviour of the tool and its code disagree, the model follows the code:

- A gtd location with a subreading separator and no sub-token offsets gives its deepest
  subreading no surface form. The code gives the deepest cut `input[0:in_end]` only when
  `in_end` was already lowered by a part cut (`Gtd.NewYorkExample`).
- In blank-line mode every blank line hands the collected text to `match_and_print`,
  even when nothing was collected. Two blank lines in a row therefore hand over an empty
  chunk (`Driver.BlankAfterBlank`).
- Only the finnpos format ends each chunk with a blank line. The gtd format does not.
- `print_no_output` in the finnpos format prints only the blank line.
- An analysis is split at its last space. A lemma that still holds a space is dropped, so
  `cat N Sg` and `cat N Pl` print no lemma and the tags `Pl Sg` (`Finnpos.CatExample`).
- With keep-newlines the chunk is the line plus a newline. `match_and_print` strips that
  newline again, so the matcher sees the line as read (`Driver.MatcherSeesLine`).

## Model

| member | source | states |
|---|---|---|
| `Text.Find` | tools/src/hfst-tokenize.cc:250 | a found offset is at or after the start and holds the character |
| `Text.FindMisses` | tools/src/hfst-tokenize.cc:250 | no occurrence lies between the start and the offset found (or the end) |
| `Text.FindAbsent` | tools/src/hfst-tokenize.cc:377 | `find` from 0 fails exactly when the character does not occur |
| `Text.RFind` | tools/src/hfst-tokenize.cc:285 | a found offset is at or before the position and holds the character |
| `Text.RFindMisses` | tools/src/hfst-tokenize.cc:285 | no occurrence lies between the offset found and the position |
| `Text.JoinSplit` | tools/src/hfst-tokenize.cc:243-256 | joining the split fields with the separator gives the string back |
| `Text.SplitJoin` | tools/src/hfst-tokenize.cc:243-256 | splitting fields without the separator, once joined, gives the fields back |
| `Options.Globals.constructor` | tools/src/hfst-tokenize.cc:58-76 | the globals start at their defaults: blank-line mode, tokenize format, nothing else on |
| `Options.ApplyFlag` | tools/src/hfst-tokenize.cc:519-561 | one option's effect on the settings. The newline option leaves blank-line mode, keep-newlines also does, the gtd option switches on weights, print-all, keep-newlines and newline mode, and each format option selects its format |
| `Options.Fold` | tools/src/hfst-tokenize.cc:508-561 | the options applied in order; a negative time cutoff is stored and stops parsing as refused |
| `Options.ParseStatus` | tools/src/hfst-tokenize.cc:535-590 | the outcome of parsing: a refused cutoff first, then more than one positional argument, then none, else continue |
| `Options.Globals.ParseOptions` | tools/src/hfst-tokenize.cc:485-590 | the globals become the fold of the options; the status is failure for a negative cutoff, then for more than one or no positional argument, else continue with that file name |
| `Options.AcceptedIffNoNegativeCutoff` | tools/src/hfst-tokenize.cc:535-541 | parsing accepts every option exactly when no time cutoff is negative |
| `Options.LastFormatWins` | tools/src/hfst-tokenize.cc:543-561 | the last format option decides the format |
| `Options.KeepsFormat` | tools/src/hfst-tokenize.cc:543-561 | without a format option the format is unchanged |
| `Options.SwitchesStayOn` | tools/src/hfst-tokenize.cc:519-558 | no option turns print-all, print-weights, keep-newlines or newline mode off again |
| `Options.GtdPresetSticks` | tools/src/hfst-tokenize.cc:552-558 | after the gtd option, print-weights, print-all, keep-newlines and newline mode are on at the end |
| `Options.CutoffSign` | tools/src/hfst-tokenize.cc:535-541 | an accepted cutoff is never negative; a refused one is stored |
| `Options.ContinueIff` | tools/src/hfst-tokenize.cc:576-590 | parsing continues exactly when all options are accepted and one file is named |
| `Output.OutStream.Put` | tools/src/hfst-tokenize.cc:117 | `<<` appends to what was written |
| `Printers.EscapedShape` | tools/src/hfst-tokenize.cc:127-136 | escaped text has no newline, text without one is unchanged, and each newline adds one character |
| `Printers.EscapedAppend` | tools/src/hfst-tokenize.cc:127-136 | escaping works piece by piece |
| `Printers.UnescapeEscaped` | tools/src/hfst-tokenize.cc:127-136 | text without backslashes is recovered from its escaped form |
| `Printers.EscapingAmbiguous` | tools/src/hfst-tokenize.cc:127-136 | with backslashes it is not: a newline and backslash-n print alike |
| `Printers.EscapedStep` | tools/src/hfst-tokenize.cc:131-133 | one round prints the text before the next newline and the escape |
| `Printers.EscapedTail` | tools/src/hfst-tokenize.cc:135 | the text after the last newline is printed unchanged |
| `Printers.EscapedRound` | tools/src/hfst-tokenize.cc:131-134 | one round of the loop extends the output to the escaped prefix up to the newline |
| `Printers.EscapedFinish` | tools/src/hfst-tokenize.cc:135 | the final write completes the escaped text |
| `Printers.Escaped` | tools/src/hfst-tokenize.cc:127-136 | the text with each newline written as backslash and `n` |
| `Printers.PrintEscapingNewlines` | tools/src/hfst-tokenize.cc:127-136 | the loop writes the text with every newline escaped |
| `Printers.NoOutputLikeNonmatching` | tools/src/hfst-tokenize.cc:114-153 | in tokenize, xerox and cg, a chunk without output prints as a nonmatching sequence plus a newline |
| `Printers.GtdNonmatchingOneLine` | tools/src/hfst-tokenize.cc:146-153 | a gtd nonmatching sequence is one line starting with a colon, whatever newlines the text holds |
| `Printers.FinnposNonmatchingFields` | tools/src/hfst-tokenize.cc:149-153 | a finnpos nonmatching sequence splits at tabs into the text and four `_` |
| `Printers.GtdNoOutputLikeLoneLocation` | tools/src/hfst-tokenize.cc:114-125 | a gtd chunk without output prints like the cohort of a lone location without analysis, plus a newline |
| `Printers.PrintNoOutput` | tools/src/hfst-tokenize.cc:114-125 | writes the unknown-word rendering of the chunk for the format, then a blank line |
| `Printers.PrintNonmatchingSequence` | tools/src/hfst-tokenize.cc:138-153 | writes the nonmatching rendering for the format, then a newline |
| `Printers.UnknownCohort` | tools/src/hfst-tokenize.cc:120-121 | the cg cohort of an unknown word: the quoted surface form, then the quoted word and `?` on an indented line |
| `Printers.NoOutputText` | tools/src/hfst-tokenize.cc:114-125 | print_no_output per format: the chunk (tokenize); the chunk, tab, the chunk with `+?` (xerox); the unknown cohort (cg, gtd); nothing (finnpos); then a blank line |
| `Printers.NonmatchingText` | tools/src/hfst-tokenize.cc:138-153 | print_nonmatching_sequence per format; gtd writes a colon and the escaped text, finnpos the text and four `_` columns; then a newline |
| `Printers.Weighted` | tools/src/hfst-tokenize.cc:331-333 | a tab and the weight, only with print-weights |
| `Printers.TokenizeText` | tools/src/hfst-tokenize.cc:329-334 | the tokenize format: the first location's input, its optional weight, a blank line |
| `Printers.CgAnalysis` | tools/src/hfst-tokenize.cc:343-350 | the cg analysis: the input quoted at its front when the analysis begins with it, else the analysis alone |
| `Printers.CgLine` | tools/src/hfst-tokenize.cc:343-353 | a cg reading line: tab, the cg analysis, the optional weight, newline |
| `Printers.CgText` | tools/src/hfst-tokenize.cc:335-355 | the cg format: the cohort header with the first input, a reading line per location, a blank line |
| `Printers.XeroxLine` | tools/src/hfst-tokenize.cc:361-365 | a xerox line: input, tab, analysis, the optional weight, newline |
| `Printers.XeroxText` | tools/src/hfst-tokenize.cc:358-367 | the xerox format: a line per location, then a blank line, also for an empty group |
| `Printers.GroupText` | tools/src/hfst-tokenize.cc:327-416 | print_location_vector: tokenize, cg and gtd print nothing for an empty group and xerox a blank line; finnpos on an empty group halts as `OutOfRange`; a gtd group outside the modelled locations halts as `Unmodelled` |
| `Printers.CgQuotesOnlyAdded` | tools/src/hfst-tokenize.cc:343-349 | in the nice case the cg analysis is the output with two quotes added around the input prefix; otherwise the output |
| `Printers.CgLineCount` | tools/src/hfst-tokenize.cc:338-354 | with no newline in analyses and weights, the cg readings are one line per location |
| `Printers.CgLineOneNewline` | tools/src/hfst-tokenize.cc:343-353 | a cg reading line holds exactly one newline |
| `Printers.XeroxFields` | tools/src/hfst-tokenize.cc:361-365 | a xerox line splits at tabs into input, analysis and, if printed, weight |
| `Printers.GroupHalts` | tools/src/hfst-tokenize.cc:327-416 | only finnpos on an empty group throws, only an unmodelled gtd group stops, and a stopped group prints nothing |
| `Printers.PrintCg` | tools/src/hfst-tokenize.cc:335-355 | writes the cohort header, a reading line per location and a blank line |
| `Printers.PrintCgLines` | tools/src/hfst-tokenize.cc:338-354 | the loop writes one reading line per location, in order |
| `Printers.PrintCgLine` | tools/src/hfst-tokenize.cc:343-353 | writes one reading line: tab, the cg analysis, the optional weight, newline |
| `Printers.PrintXerox` | tools/src/hfst-tokenize.cc:358-367 | writes a line per location and a blank line |
| `Printers.PrintXeroxLine` | tools/src/hfst-tokenize.cc:361-365 | writes input, tab, output, the optional weight and a newline |
| `Printers.PrintLocationVector` | tools/src/hfst-tokenize.cc:327-416 | writes the group in the chosen format and reports how it ended |
| `StringSet.LessIrreflexive` | tools/src/hfst-tokenize.cc:369-370 | the string order of the sets is irreflexive |
| `StringSet.LessTransitive` | tools/src/hfst-tokenize.cc:369-370 | and transitive |
| `StringSet.LessTotal` | tools/src/hfst-tokenize.cc:369-370 | and total |
| `StringSet.SortedOrdered` | tools/src/hfst-tokenize.cc:369-370 | a set holds each string once, in ascending order |
| `StringSet.BelowFirst` | tools/src/hfst-tokenize.cc:369-370 | a string below the least element is not in the set |
| `StringSet.Insert` | tools/src/hfst-tokenize.cc:379 | insertion keeps the set ascending, adds exactly the element, and changes nothing when it is present |
| `Subreading.LemmaAndTags` | tools/src/hfst-tokenize.cc:243-256 | the lemma and tag fields join back to the analysis; without a separator the lemma is empty and the analysis one field |
| `Subreading.OneFieldIff` | tools/src/hfst-tokenize.cc:250-256 | a string is one field exactly when it holds no separator |
| `Subreading.TagStart` | tools/src/hfst-tokenize.cc:245-248 | the tags begin within the analysis |
| `Subreading.ReadingWithoutTags` | tools/src/hfst-tokenize.cc:243-256 | without a tag separator the lemma is `""` and a non-empty analysis follows after a space |
| `Subreading.SpacedSingle` | tools/src/hfst-tokenize.cc:254-256 | a last field is written after a space unless it is empty |
| `Subreading.ReadingWithTags` | tools/src/hfst-tokenize.cc:243-256 | with one, the text before the first separator is quoted and each later field follows after a space, a trailing empty one omitted |
| `Subreading.SpacedFree` | tools/src/hfst-tokenize.cc:250-256 | the spaced fields bring no character but spaces |
| `Subreading.ReadingFree` | tools/src/hfst-tokenize.cc:243-256 | the reading adds no character but quotes and spaces |
| `Subreading.ExactlyOneNewline` | tools/src/hfst-tokenize.cc:234-264 | a subreading line whose pieces have no newline ends in its only newline |
| `Subreading.FieldsFrom` | tools/src/hfst-tokenize.cc:250-253 | one search cuts the first field from the rest |
| `Subreading.TagsAfterSearch` | tools/src/hfst-tokenize.cc:245-248 | the first search separates the lemma from the tag fields |
| `Subreading.SpacedStep` | tools/src/hfst-tokenize.cc:250-253 | each field found is written after a space |
| `Subreading.SpacedCons` | tools/src/hfst-tokenize.cc:250-253 | a field before others is written whatever the last field is |
| `Subreading.SpacedLast` | tools/src/hfst-tokenize.cc:254-256 | when no separator is left, the non-empty rest is written after a space |
| `Subreading.TagsFromFields` | tools/src/hfst-tokenize.cc:250-256 | the search-driven tags are the split fields, each after a space, a trailing empty one omitted |
| `Subreading.ReadingLayout` | tools/src/hfst-tokenize.cc:243-256 | the reading is the quoted lemma and the spaced tag fields |
| `Subreading.PrintTags` | tools/src/hfst-tokenize.cc:250-256 | the tag loop writes the search-driven tags |
| `Subreading.PrintQuotedLemma` | tools/src/hfst-tokenize.cc:244-249 | writes the quoted lemma and answers where the tags begin |
| `Subreading.PrintIndentedReading` | tools/src/hfst-tokenize.cc:244-256 | writes the indentation and the reading |
| `Subreading.PrintLineEnd` | tools/src/hfst-tokenize.cc:257-263 | writes the weight tag only with print-weights, the surface form only when non-empty, and one newline |
| `Subreading.PrintCgSubreading` | tools/src/hfst-tokenize.cc:234-264 | writes the whole subreading line |
| `Subreading.TagsFrom` | tools/src/hfst-tokenize.cc:250-256 | the tag fields as the search loop meets them from an offset: each field ended by a separator after a space, then the non-empty remainder after a space |
| `Subreading.Reading` | tools/src/hfst-tokenize.cc:244-256 | the quoted lemma followed by the tags |
| `Subreading.WeightSuffix` | tools/src/hfst-tokenize.cc:257-259 | the weight tag, only with print-weights |
| `Subreading.SurfaceSuffix` | tools/src/hfst-tokenize.cc:260-262 | the quoted surface form, only when there is one |
| `Subreading.CgSubreading` | tools/src/hfst-tokenize.cc:234-264 | the whole line of print_cg_subreading: indentation, reading, weight tag, surface form, newline |
| `Gtd.Start` | tools/src/hfst-tokenize.cc:280-282 | a decomposable location starts in a valid state |
| `Gtd.SubBegin` | tools/src/hfst-tokenize.cc:285-288 | the separator found lies before the end of what is left |
| `Gtd.SubBeginMisses` | tools/src/hfst-tokenize.cc:285-288 | no separator lies after it in what is left, and it is a separator unless 0 |
| `Gtd.Step` | tools/src/hfst-tokenize.cc:284-321 | a pass keeps the state valid and, with no part on a separator, lowers `(part, out_end)` |
| `Gtd.StallIff` | tools/src/hfst-tokenize.cc:289-320 | a pass stands still exactly when the last unclaimed part begins on the separator just before the end |
| `Gtd.StallExample` | tools/src/hfst-tokenize.cc:283-321 | a well-formed location on which the loop repeats its state forever |
| `Gtd.Decompose` | tools/src/hfst-tokenize.cc:283-322 | the loop prints at least one subreading |
| `Gtd.StepShape` | tools/src/hfst-tokenize.cc:285-320 | a pass cuts the analysis from its cut to the end; the kind of cut decides where the next pass ends; only the final cut reaches 0 and may start with a separator |
| `Gtd.DecomposeShape` | tools/src/hfst-tokenize.cc:283-322 | the last subreading begins at offset 0; every other is cut after 0 and holds no separator |
| `Gtd.DecomposeRebuilds` | tools/src/hfst-tokenize.cc:285-320 | the pieces, deepest first, with a separator put back at each separator cut, rebuild the analysis up to the end left |
| `Gtd.RebuildCons` | tools/src/hfst-tokenize.cc:297-299 | a piece cut at a separator rebuilds after that separator |
| `Gtd.Reconstruction` | tools/src/hfst-tokenize.cc:280-322 | the whole analysis is rebuilt from a location's subreadings |
| `Gtd.FinalInEndBelow` | tools/src/hfst-tokenize.cc:292-294 | the input given out ends no later than it did |
| `Gtd.StepInput` | tools/src/hfst-tokenize.cc:289-305 | a part cut gives the input from the part to the end left; the final cut gives the input up to the end left only when some was claimed |
| `Gtd.DecomposeInput` | tools/src/hfst-tokenize.cc:281-304 | the surface forms, deepest first, are the input up to the end left, or nothing when none was claimed |
| `Gtd.NoPartsNoSurface` | tools/src/hfst-tokenize.cc:282-304 | with no sub-token offsets no subreading has a surface form |
| `Gtd.InputAllOrNothing` | tools/src/hfst-tokenize.cc:280-305 | a location's surface forms are its whole input or nothing |
| `Gtd.NewYorkOuter` | tools/src/hfst-tokenize.cc:285-299 | `New York#propername+loc`: the first pass cuts at the separator without a surface form |
| `Gtd.NewYorkSeparator` | tools/src/hfst-tokenize.cc:285 | its last separator is at offset 8 |
| `Gtd.NewYorkInner` | tools/src/hfst-tokenize.cc:300-305 | the second pass reaches 0 without a surface form |
| `Gtd.NewYorkExample` | tools/src/hfst-tokenize.cc:283-322 | the location gives exactly these two subreadings |
| `Gtd.Tabs` | tools/src/hfst-tokenize.cc:279 | the indentation has the depth as its length |
| `Gtd.TabsOnly` | tools/src/hfst-tokenize.cc:316 | the indentation is tabs only |
| `Gtd.RenderCutsLines` | tools/src/hfst-tokenize.cc:307-316 | the subreadings print one line each |
| `Gtd.SubreadingOneLine` | tools/src/hfst-tokenize.cc:307-311 | a subreading without newlines inside prints one line |
| `Gtd.OneLinePerSubreading` | tools/src/hfst-tokenize.cc:283-322 | a location prints as many lines as it has subreadings, at least one |
| `Gtd.DecomposeSlices` | tools/src/hfst-tokenize.cc:293-306 | every piece is the analysis between two offsets, and every surface form the input between two offsets |
| `Gtd.RenderStep` | tools/src/hfst-tokenize.cc:307-321 | a state prints its subreading, then those after it one tab deeper |
| `Gtd.PrintPass` | tools/src/hfst-tokenize.cc:284-321 | one pass writes the subreading of `Step` and answers its next state |
| `Gtd.PrintLocationGtd` | tools/src/hfst-tokenize.cc:279-322 | the loop writes every subreading of the location, each one tab deeper |
| `Gtd.RenderCuts` | tools/src/hfst-tokenize.cc:307-316 | the subreading lines of a run of cuts, each a tab deeper than the one before |
| `Gtd.GtdLocation` | tools/src/hfst-tokenize.cc:279-322 | one location's subreading lines, from its decomposition |
| `Gtd.LocationReadings` | tools/src/hfst-tokenize.cc:276-322 | what a location adds to its group: nothing without an analysis, else its subreading lines |
| `Gtd.CohortHeader` | tools/src/hfst-tokenize.cc:268 | the cohort header: the first location's input in quotes and angle brackets |
| `Gtd.GtdGroup` | tools/src/hfst-tokenize.cc:266-325 | print_location_vector_gtd: the header, then the unknown-but-tokenised line for a lone location without analysis, else every location's subreadings |
| `Gtd.Texts` | tools/src/hfst-tokenize.cc:274-278 | one text per location |
| `Gtd.TextsAt` | tools/src/hfst-tokenize.cc:274-278 | each text is what its location contributes |
| `Gtd.EmptyAnalysisSkipped` | tools/src/hfst-tokenize.cc:276-278 | removing a location without analysis leaves the readings unchanged |
| `Gtd.PrintLocationReadings` | tools/src/hfst-tokenize.cc:276-322 | a location without analysis writes nothing, any other its subreadings |
| `Gtd.ReadingsRound` | tools/src/hfst-tokenize.cc:274-323 | one location's readings extend those before it |
| `Gtd.PrintReadingsRound` | tools/src/hfst-tokenize.cc:274-323 | one pass of the group loop writes the next location's readings |
| `Gtd.PrintGtdReadings` | tools/src/hfst-tokenize.cc:274-323 | the group loop writes every location's readings, in order |
| `Gtd.PrintLocationVectorGtd` | tools/src/hfst-tokenize.cc:266-325 | writes the header, then the lone unknown-but-tokenised line or all readings |
| `Finnpos.LastSpace` | tools/src/hfst-tokenize.cc:374 | the offset found holds the last space, and none is found exactly when there is no space |
| `Finnpos.TagIffSpace` | tools/src/hfst-tokenize.cc:381-385 | an analysis gives a tag exactly when it has a space, and the tag holds none |
| `Finnpos.LemmaSpaceFree` | tools/src/hfst-tokenize.cc:376-380 | a lemma given holds no space |
| `Finnpos.LastSpaceBefore` | tools/src/hfst-tokenize.cc:374 | the last space of `a b` with a space-free `b` is the one before `b` |
| `Finnpos.OneSpace` | tools/src/hfst-tokenize.cc:374-385 | an analysis with one space gives both sides of it |
| `Finnpos.TwoSpaces` | tools/src/hfst-tokenize.cc:376-380 | an analysis with two spaces gives no lemma |
| `Finnpos.InsertSome` | tools/src/hfst-tokenize.cc:379 | inserting keeps the set ascending |
| `Finnpos.Lemmas` | tools/src/hfst-tokenize.cc:369-387 | the lemma set is ascending |
| `Finnpos.Tags` | tools/src/hfst-tokenize.cc:369-387 | the tag set is ascending |
| `Finnpos.LemmasExactly` | tools/src/hfst-tokenize.cc:369-387 | the lemma set holds exactly the lemmas of the analyses, once each, ascending |
| `Finnpos.TagsExactly` | tools/src/hfst-tokenize.cc:369-387 | the tag set holds exactly the tags of the analyses, once each, ascending |
| `Finnpos.TerminatedJoin` | tools/src/hfst-tokenize.cc:393-399 | the accumulator is the joined column plus one space |
| `Finnpos.ColumnSplits` | tools/src/hfst-tokenize.cc:390-400 | a column of space-free elements splits back into them |
| `Finnpos.ColumnsSplit` | tools/src/hfst-tokenize.cc:388-413 | the lemma and tag columns split back into the sets |
| `Finnpos.TwoInflections` | tools/src/hfst-tokenize.cc:369-413 | two analyses differing in the last tag behind a spaced stem give no lemma and both tags in order |
| `Finnpos.StemAnalysis` | tools/src/hfst-tokenize.cc:374-385 | a spaced stem and a tag give no lemma and the tag |
| `Finnpos.CatExample` | tools/src/hfst-tokenize.cc:369-413 | `cat N Sg` and `cat N Pl` print `cat _ _ Pl Sg _` |
| `Finnpos.PrintColumn` | tools/src/hfst-tokenize.cc:390-400 | writes `_` for an empty set, else the elements joined by single spaces |
| `Finnpos.CollectSets` | tools/src/hfst-tokenize.cc:369-387 | the loop fills the lemma and tag sets |
| `Finnpos.PrintLocationVectorFinnpos` | tools/src/hfst-tokenize.cc:368-413 | writes input, `_`, lemmas, tags, `_` and a newline |
| `Finnpos.LemmaOf` | tools/src/hfst-tokenize.cc:374-380 | an analysis's lemma: the text before its last space, when that text holds no space |
| `Finnpos.TagOf` | tools/src/hfst-tokenize.cc:374-385 | an analysis's tag: the text after its last space |
| `Finnpos.Column` | tools/src/hfst-tokenize.cc:388-413 | a column: `_` for an empty set, else the elements joined by single spaces |
| `Finnpos.FinnposLine` | tools/src/hfst-tokenize.cc:368-413 | the finnpos line: input, `_`, lemmas, tags, `_`, newline |
| `Driver.StripNewline` | tools/src/hfst-tokenize.cc:422-425 | at most one final newline is removed, and only a final newline |
| `Driver.HaltIsFinal` | tools/src/hfst-tokenize.cc:430-440 | after a group halts, later groups print nothing |
| `Driver.GroupsCongruent` | tools/src/hfst-tokenize.cc:430-440 | equal output so far and the same next group give equal output |
| `Driver.GroupsBefore` | tools/src/hfst-tokenize.cc:430-440 | before a removed group the output agrees |
| `Driver.GroupsAfter` | tools/src/hfst-tokenize.cc:430-440 | past a removed silent nonmatching group it agrees, shifted by one |
| `Driver.NonmatchingSilent` | tools/src/hfst-tokenize.cc:432-437 | without print-all a nonmatching group prints nothing |
| `Driver.NonmatchingSkipped` | tools/src/hfst-tokenize.cc:430-440 | without print-all the chunk prints as if its nonmatching spans were absent |
| `Driver.NothingLocated` | tools/src/hfst-tokenize.cc:426-443 | a chunk without groups prints the no-output block only with print-all, and the finnpos blank line |
| `Driver.PrintGroup` | tools/src/hfst-tokenize.cc:432-439 | a nonmatching group goes to the nonmatching printer only with print-all, any other to the group printer |
| `Driver.MatchAndPrint` | tools/src/hfst-tokenize.cc:418-444 | writes the output of the chunk less its final newline, as located |
| `Driver.ChunkTextParts` | tools/src/hfst-tokenize.cc:427-443 | the chunk output is the no-output block, the groups and the finnpos blank line |
| `Driver.PrintGroups` | tools/src/hfst-tokenize.cc:430-440 | the group loop writes the groups in order up to the first that halts |
| `Driver.ReadCount` | tools/src/hfst-tokenize.cc:454 | reading stops at the first empty read: every line before it is non-empty |
| `Driver.NewlineChunks` | tools/src/hfst-tokenize.cc:470-478 | one chunk per line read |
| `Driver.NewlineChunkAt` | tools/src/hfst-tokenize.cc:471-474 | chunk `i` is line `i`, with a newline when newlines are kept |
| `Driver.NewlineChunksPrefix` | tools/src/hfst-tokenize.cc:470-478 | the chunks of fewer lines come first |
| `Driver.PrinterPrints` | tools/src/hfst-tokenize.cc:418-444 | `match_and_print`'s printer prints every chunk as `match_and_print` does |
| `Driver.BlankStateKeepsText` | tools/src/hfst-tokenize.cc:454-463 | blank-line mode keeps all text of the non-blank lines and hands over one chunk per blank line |
| `Driver.BlanklineChunks` | tools/src/hfst-tokenize.cc:453-467 | the chunks handed over: chunk `k` is the text of the lines between blank line `k - 1` (or the start) and blank line `k`, then the text after the last blank line when there is any; together they hold all the text of the non-blank lines |
| `Driver.BlankAfterBlank` | tools/src/hfst-tokenize.cc:455-457 | two blank lines in a row hand over an empty chunk |
| `Driver.MatcherSeesLine` | tools/src/hfst-tokenize.cc:470-475 | the matcher sees each line as read when newlines are kept, and less its newline otherwise |
| `Driver.RunHaltIsFinal` | tools/src/hfst-tokenize.cc:447-482 | once a chunk halts the run, nothing more is printed |
| `Driver.RunSnoc` | tools/src/hfst-tokenize.cc:456 | one more chunk appends its output |
| `Driver.ProcessInput` | tools/src/hfst-tokenize.cc:447-482 | writes the output of the chunks the mode chooses |
| `Driver.ProcessBlanklineSeparated` | tools/src/hfst-tokenize.cc:453-467 | the blank-line loop writes the output of its chunks |
| `Driver.ProcessLineByLine` | tools/src/hfst-tokenize.cc:468-479 | the newline loop writes the output of one chunk per line |
| `Driver.HandOver` | tools/src/hfst-tokenize.cc:456 | one chunk's output follows the output before it |
| `Driver.BlankStopHere` | tools/src/hfst-tokenize.cc:453-463 | a halt in blank-line mode is the end of the run |
| `Driver.BlankPrefix` | tools/src/hfst-tokenize.cc:454-463 | the chunks of blank-line mode only grow |
| `Driver.NewlineStopHere` | tools/src/hfst-tokenize.cc:470-478 | a halt in newline mode is the end of the run |
| `Driver.OneGroup` | tools/src/hfst-tokenize.cc:432-439 | one group's output: a nonmatching group only with print-all, as a nonmatching sequence; any other in the chosen format |
| `Driver.GroupsText` | tools/src/hfst-tokenize.cc:430-440 | the groups' output in order, up to and including the first that halts |
| `Driver.Located` | tools/src/hfst-tokenize.cc:422-426 | the matcher applied to the chunk less its final newline, with the time cutoff |
| `Driver.Framed` | tools/src/hfst-tokenize.cc:427-443 | the no-output block before the groups when nothing was found under print-all, and the finnpos blank line after them unless a group halted |
| `Driver.ChunkText` | tools/src/hfst-tokenize.cc:418-444 | match_and_print's output for a chunk and its groups |
| `Driver.Blank` | tools/src/hfst-tokenize.cc:455 | a line that begins with a newline |
| `Driver.BlankState` | tools/src/hfst-tokenize.cc:453-463 | blank-line mode after some lines: the chunks handed over and the text collected since the last blank line |
| `Driver.Chunks` | tools/src/hfst-tokenize.cc:447-482 | the chunks handed to match_and_print: in blank-line mode the handed-over chunks and a non-empty remainder; in newline mode one per line |
| `Driver.Run` | tools/src/hfst-tokenize.cc:447-482 | the chunks printed in order, up to and including the first that halts |
| `Driver.ProcessText` | tools/src/hfst-tokenize.cc:447-482 | process_input's output: the chunks run through match_and_print |
| `Driver.BlankLines` | tools/src/hfst-tokenize.cc:453-463 | the offsets of the blank lines read, in order |
| `Driver.BlankLinesExactly` | tools/src/hfst-tokenize.cc:453-463 | these are exactly the blank lines, ascending |
| `Driver.SegmentNonBlank` | tools/src/hfst-tokenize.cc:453-463 | no line between two consecutive blank lines (or the start or the end) is blank |
| `Driver.SegmentedBlank` | tools/src/hfst-tokenize.cc:455-457 | a blank line hands the collected text over as the chunk that ends at it, and empties the buffer |
| `Driver.SegmentedLine` | tools/src/hfst-tokenize.cc:458-460 | any other line is appended to the buffer |
| `Driver.BlankStateSegments` | tools/src/hfst-tokenize.cc:453-463 | chunk `k` is the text of the lines between blank line `k - 1` (or the start) and blank line `k`, and the buffer the text after the last blank line |
| `Driver.BlankStateJoin` | tools/src/hfst-tokenize.cc:453-463 | when blank lines are bare newlines, the chunks and the buffer joined at newlines are the text read |
| `Driver.BlanklineExample` | tools/src/hfst-tokenize.cc:453-467 | `a`, blank, `b`, blank are handed over as the two chunks `a` and `b` |

## Left out

- `make_naive_tokenizer` (tools/src/hfst-tokenize.cc:156-231) is left out. It consists
  of calls into the transducer library.
- `PmatchContainer::locate` is a function parameter (`Driver.Locator`). The time cutoff
  is passed to it unchanged. Search effort and partial results are the matcher's concern.
- `Driver.Locator`: the matcher is a function of the chunk and the cutoff alone, so equal
  chunks always get equal groups. With a wall-clock time cutoff the source's matcher
  can answer the same chunk differently on different calls. No proved property compares
  the groups of two chunks, so none depends on this.
- Weights are taken as already-formatted strings. The model does not cover how
  `operator<<` prints a float, nor how `atof` reads `--time-cutoff`. The time cutoff
  is a number given with the option.
- `main` is left out. So are opening the tokenizer file, `HfstInputStream`, exception
  reports and process exit codes.
- `print_usage` and the options shared by every HFST tool are left out.
- `hfst_getline` and `free` are left out. The input is a given sequence of lines; the
  first empty line stands for end of input.
- `std::endl` is modelled as a newline. Flushing is not modelled.
- test/tools/hfst-minimize.py is not part of this model: it is an I/O script around a
  library call.
- `Options.IsCalledTop` is the string comparison of `first_transducer_is_called_TOP` and
  has no contract of its own. What `main` does with the answer is left out with `main`.
- `Printers.GroupText`, gtd branch: when a location of a gtd group has an output part
  on a subreading separator, the source prints the header and then loops forever
  (`Gtd.StallExample`). The model stops before printing that group and reports
  `Unmodelled`. The decomposition is proved to terminate only without such a part.
- `Printers.GroupText`, gtd branch: a location with an analysis whose offsets break the
  matcher's invariant (`Locations.WellFormed`: as many input as output offsets, each
  list ascending and within its string) is reported as `Unmodelled` as well, and its
  group prints nothing. The source does not loop on such locations. It reads
  `output_parts.at(part - 1)` and throws `std::out_of_range` when there are more input
  offsets than output offsets. With more output offsets it uses the first ones. It
  throws from `substr` on an input offset past the input. With descending offsets,
  `in_end - in_beg` and `out_end - out_beg` wrap around as unsigned numbers, and `substr`
  prints the rest of the string. The model does not cover these behaviours.
- `Printers.GroupText`, finnpos branch: an empty group makes `at(0)` throw
  `std::out_of_range`, which nothing catches. The model stops before printing that
  group and reports `OutOfRange`. The source finishes the set loop (which does nothing)
  before it throws.
- Strings are sequences of characters. No encoding is modelled.
