# ArcaTTS text core in Dafny

ArcaTTS turns long literary works into audiobooks. Before synthesis, three groups of text code run, and this project models them:

- **Translator.** It cuts a text into chunks and translates them. It validates each translation and merges the chunks back. It also keeps a glossary and caches the results.
- **Grammar.** The corrector applies the checker's suggested fixes. It then writes a summary and versioned file names.
- **TTS preparation.** This code inserts pause markers and reads Roman chapter numerals aloud. It detects chapters and reads the work index of an anthology manifest. It chunks text around silences and classifies each sentence by its delivery.

Values from the program become datatypes, and operations that only compute become functions. The program's mutable objects become classes with `modifies` clauses: the translation aggregate, its chunks and glossary entries, the glossary service and the manifest parser. Each loop in the source becomes a method with a `for` or `while` loop, or a recursive predicate where the loop only tests (the zip loop of `_is_likely_match`). Each such method is proved against a specification function, and the properties the program promises are proved about the function as lemmas.

Python's string builtins are modelled once, in `TextUtil`:

- `lower`/`upper` on Latin-1;
- `strip` on Python's whitespace set;
- `split()`, `split(c)`, `join` and `find`;
- `replace`, `round` and decimal formatting.

Regular expressions become hand-written scanners with the leftmost, greedy semantics of each pattern, except the name and noun patterns, whose matches are parameters. Floats become exact reals.

Modules, in source order:

- `ValueObjects`, `LengthValidator`, `NumberValidator`, `ValidationService` and `Models`.
- `TranslationAggregate` and `Context`.
- `Splitter` (with `Grouping`), `Chunker` and `ChunkMerger`.
- `GlossaryService` (with `Dict`), `Formatting`, `PostProcessor` and `ProperNames`.
- `TranslationUtils`, `LanguagePrefix`, `CacheSerializer` and `CacheDeserializer`.
- `GrammarModels`, `GrammarCorrector` (with `Sorting`), `GrammarSummary` and `Versioning`.
- `PauseConfig`, `RomanConverter`, `ChapterDetector`, `PauseAwareChunker` and `ManifestParser`.
- `TextProcessor` (the enhanced text processor) and `ContextAnalyzer`.
- The helpers `Wrappers`, `TextUtil` and `SeqUtil`.

## Model

| member | source | states |
|---|---|---|
| ValueObjects.NewLanguagePair | modules/translator/domain/value_objects.py:15-19 | a pair is built exactly when both languages are non-empty and differ, and keeps them; otherwise it fails with "Languages required" or "Same language pair" |
| ValueObjects.NewValidationScore | modules/translator/domain/value_objects.py:29-31 | a score is built exactly when it lies in [0, 1], with the fields given; otherwise it fails with "Score must be 0-1" |
| ValueObjects.ScoreBoundsAccepted | modules/translator/domain/value_objects.py:30 | the range is closed: 0.0 and 1.0 are both accepted |
| LengthValidator.Validate | modules/translator/domain/validators.py:14-44 | no words in the original gives invalid, 0.0, "empty original"; otherwise valid exactly when the word-count ratio lies in [0.4, 2.5], then with score 1 - abs(1 - ratio) / 2 (at least 0.25) and no issues, else invalid with 0.3 and the ratio as issue; the score is always in [0, 1] |
| LengthValidator.ValidateConstructs | modules/translator/domain/validators.py:23-44 | every result is one the ValidationScore constructor accepts, so validate never raises |
| LengthValidator.SameLengthScoresOne | modules/translator/domain/validators.py:30-38 | as many words in the translation as in the original scores 1.0 and is valid |
| NumberValidator.MatchEnd | modules/translator/domain/number_validator.py:20 | a match of `\b\d+(?:[.,]\d+)?\b` from a digit ends after digits, optionally a `.` or `,` and more digits, at a word boundary |
| NumberValidator.Numbers | modules/translator/domain/number_validator.py:19-24 | every number found by the pattern is a run of digits with at most one `.` or `,` between digits |
| NumberValidator.NumbersFromOccur | modules/translator/domain/number_validator.py:19-21 | every number found occurs in the text at or after the scan start |
| NumberValidator.NoDigitsNoNumbers | modules/translator/domain/number_validator.py:19-21 | a text without digits yields no numbers |
| NumberValidator.Validate | modules/translator/domain/number_validator.py:13-46 | valid exactly when the two sets of numbers are equal, then with score 1.0 and no issues; otherwise score 0.5; the score is in [0, 1] |
| NumberValidator.ValidateIssues | modules/translator/domain/number_validator.py:33-46 | when the sets differ, the issues are the missing numbers (if any) followed by the extra numbers (if any), and there is at least one |
| NumberValidator.ValidateConstructs | modules/translator/domain/number_validator.py:26-46 | every result is one the ValidationScore constructor accepts |
| ValidationService.Combine | modules/translator/domain/validation_service.py:32-51 | valid exactly when both results are valid; the issues are the length issues then the number issues; the score is 0.4 x length + 0.6 x number, in [0, 1] when both inputs are |
| ValidationService.Validate | modules/translator/domain/validation_service.py:17-51 | the combination of the length and number validators on the same texts, with a score always in [0, 1] |
| ValidationService.FaithfulTranslationPasses | modules/translator/domain/validation_service.py:17-51 | a translation with as many words and the same numbers as a non-empty original is valid with score 1.0 and no issues |
| ValidationService.ValidateConstructs | modules/translator/domain/validation_service.py:47-51 | every combined result is one the ValidationScore constructor accepts |
| Models.TranslationChunk.constructor | modules/translator/domain/models.py:13-23 | a new chunk holds the given texts, positions, contexts and id, and no validation |
| Models.TranslationChunk.Plain | modules/translator/domain/models.py:20-23 | without contexts, both contexts are empty and there is no validation |
| Models.TranslationChunk.MarkValidated | modules/translator/domain/models.py:25-27 | the validation becomes the score given; every other field is unchanged |
| Models.GlossaryEntry.constructor | modules/translator/domain/models.py:30-36 | a new entry holds the given terms, context and frequency |
| Models.GlossaryEntry.Plain | modules/translator/domain/models.py:35-36 | defaults: empty context, frequency 1 |
| Models.GlossaryEntry.IncrementUsage | modules/translator/domain/models.py:38-40 | the frequency grows by one; every other field is unchanged |
| TranslationAggregate.Translation.constructor | modules/translator/domain/translation.py:14-26 | a new translation has no chunks, an empty glossary, no final text and no completion time, and keeps its invariants |
| TranslationAggregate.Translation.AddChunk | modules/translator/domain/translation.py:28-30 | the chunk is appended at the end; earlier chunks are unchanged |
| TranslationAggregate.Translation.AddGlossaryEntry | modules/translator/domain/translation.py:32-38 | under the lower-cased source term, an existing entry counts one more use and is otherwise unchanged, and the map keeps its keys; a new term is stored as given; glossary keys stay lower case |
| TranslationAggregate.Translation.Finalize | modules/translator/domain/translation.py:40-48 | the merged text and the completion time are stored, after which the translation is complete |
| Context.ParagraphsBefore | modules/translator/domain/context.py:13-20 | the up to n paragraphs just before index i, with Python's clamped slicing; none before the first paragraph |
| Context.ParagraphsAfter | modules/translator/domain/context.py:23-33 | the up to n paragraphs just after index i; none after the last paragraph |
| Context.ContextBefore | modules/translator/domain/context.py:13-21 | the context before the first paragraph is empty |
| Context.ContextAfter | modules/translator/domain/context.py:23-34 | the context after the last paragraph is empty |
| Context.ContextBeforeEndsWithPrevious | modules/translator/domain/context.py:19-21 | with n at least 1, the context before paragraph i ends with paragraph i - 1 |
| Context.ContextAfterStartsWithNext | modules/translator/domain/context.py:29-34 | with n at least 1, the context after paragraph i starts with paragraph i + 1 |
| Splitter.BreakLen | modules/translator/domain/splitter.py:12-14 | a match of the sentence-end pattern is a run of whitespace after `.`, `!`, `?` or `…` and before an upper-case letter, a lower-case ASCII letter, `«` or `"` |
| Splitter.SentencePieces | modules/translator/domain/splitter.py:19 | splitting always yields at least one piece |
| Splitter.SplitSentences | modules/translator/domain/splitter.py:17-20 | every sentence is stripped and non-empty |
| Splitter.SplitSentencesWords | modules/translator/domain/splitter.py:17-20 | the sentences hold exactly the words of the paragraph, in order: splitting loses and invents nothing |
| Splitter.EstimateTokensBounds | modules/translator/domain/splitter.py:22-25 | the estimate is 13/10 of the word count rounded down |
| Splitter.DialogueByFirstCharacter | modules/translator/domain/splitter.py:15-29 | only the opening character decides whether a sentence is dialogue |
| Splitter.WordOpeningNotDialogue | modules/translator/domain/splitter.py:15-29 | a sentence that opens with a letter, a digit or whitespace is not dialogue |
| Splitter.GroupSentences | modules/translator/domain/splitter.py:31-53 | the loop computes the greedy grouping by estimated tokens |
| Grouping.GreedyFlatten | modules/translator/domain/splitter.py:31-53 | the groups, concatenated, are the sentences in order |
| Grouping.GreedyGroups | modules/translator/domain/splitter.py:43-53 | no group is empty, and a group over the budget holds a single sentence |
| Grouping.GreedyMaximal | modules/translator/domain/splitter.py:43-50 | a group is closed only when the next sentence would take it over the budget |
| Chunker.LastNewline | modules/translator/domain/chunker.py:79 | the position of the last newline, or -1 when there is none |
| Chunker.BlankLineMatch | modules/translator/domain/chunker.py:79 | a match of `\n\s*\n` is all whitespace, at least two characters long |
| Chunker.SplitParagraphs | modules/translator/domain/chunker.py:75-81 | every paragraph is stripped and non-empty |
| Chunker.SplitParagraphsWords | modules/translator/domain/chunker.py:75-81 | the paragraphs hold exactly the words of the text, in order |
| Chunker.LocateGroup | modules/translator/domain/chunker.py:38-58 | the start is where the first sentence is found from the current position (or that position); the end is just past the last sentence found from the start (or the start); both lie in the text, start <= end |
| Chunker.MakeChunk | modules/translator/domain/chunker.py:57-71 | the chunk text is the text between its start and end, and its contexts are those of its paragraph |
| Chunker.ParagraphGroups | modules/translator/domain/chunker.py:30-37 | every group of a paragraph's sentences is non-empty |
| Chunker.ChunksSpans | modules/translator/domain/chunker.py:24-73 | every chunk's text is the slice of the text between its start and end, and the chunks follow each other: each starts at or after the end of the one before |
| Chunker.ChunksContexts | modules/translator/domain/chunker.py:61-71 | every chunk carries the context before and after of one paragraph |
| Chunker.ChunkGroups | modules/translator/domain/chunker.py:34-73 | the inner loop over a paragraph's groups yields the chunks of the specification, moving the position to each chunk's end |
| Chunker.ChunkParagraph | modules/translator/domain/chunker.py:30-73 | the chunks of one paragraph are those of its sentence groups |
| Chunker.ChunkParagraphs | modules/translator/domain/chunker.py:29-73 | the outer loop over paragraphs yields the chunks of the specification |
| Chunker.ChunkText | modules/translator/domain/chunker.py:24-73 | chunk_text yields exactly the chunks of the specification |
| ChunkMerger.Translations | modules/translator/application/chunk_merger.py:22-24 | the translated texts of the chunks, in the order given |
| ChunkMerger.Merge | modules/translator/application/chunk_merger.py:10-38 | no chunks give the empty text; without an original text, the translations sorted by start position joined by blank lines |
| ChunkMerger.MergeOrder | modules/translator/application/chunk_merger.py:16-19 | the chunks are sorted by start position, as a permutation, and chunks with equal starts keep their order (a stable sort, as Python's sorted) |
| ChunkMerger.MergeChunks | modules/translator/application/chunk_merger.py:10-38 | merge_chunks computes the merge of the specification |
| ChunkMerger.MergeSorted | modules/translator/application/chunk_merger.py:26-38 | the loop over sorted chunks computes the gap-and-translation concatenation of the specification |
| ChunkMerger.MergeFromStep | modules/translator/application/chunk_merger.py:29-33 | each chunk contributes the original text between the last end and its start, then its translation, and moves the last end to its end |
| ChunkMerger.MergeIdentity | modules/translator/application/chunk_merger.py:10-38 | when every chunk's translation is its own slice of the original and the chunks follow each other, merging gives back the original text |
| ChunkMerger.ChunkThenMerge | modules/translator/application/chunk_merger.py:10-38 | chunking a text and merging the chunks, each translated as itself, gives back the text: the gaps between chunks are restored |
| ChunkMerger.NoTextNoChunks | modules/translator/domain/chunker.py:24-29 | an empty text yields no chunks |
| ChunkMerger.PreserveParagraphBreaks | modules/translator/application/chunk_merger.py:40-46 | the merged text is returned unchanged |
| ChunkMerger.KafkaGaps | test_merger.py:6 | the test text has 38 characters and blank lines at 11-13 and 20-22 |
| ChunkMerger.KafkaExample | test_merger.py:5-51 | merging the three translated chunks of the test gives the expected text with both blank lines kept |
| GlossaryService.ContextOf | modules/translator/domain/glossary_service.py:62 | the context stored is the first 100 characters of the original, or all of it when shorter |
| GlossaryService.MapTermsEffect | modules/translator/domain/glossary_service.py:47-63 | after mapping, a lower-cased key is present exactly when it was before or some paired source term lowers to it; an existing entry gains one use per such term; a new entry holds the first such source term, its paired target, the context and one use per occurrence |
| GlossaryService.MapTermsLookup | modules/translator/domain/glossary_service.py:37-63 | after mapping, looking up any paired source term gives the target it already had, or else the target paired with its first occurrence |
| GlossaryService.GlossaryService.constructor | modules/translator/domain/glossary_service.py:14-16 | a new service has an empty glossary with lower-case keys and distinct entries |
| GlossaryService.GlossaryService.GetTermTranslation | modules/translator/domain/glossary_service.py:37-45 | the target of the entry under the lower-cased term, or the term itself when there is none |
| GlossaryService.GlossaryService.MapPair | modules/translator/domain/glossary_service.py:54-63 | one pair updates the glossary as one step of the specification, keeping keys lower case and entries distinct |
| GlossaryService.GlossaryService.CountUse | modules/translator/domain/glossary_service.py:56-57 | an existing entry counts one more use; no other entry and no key changes |
| GlossaryService.GlossaryService.AddEntry | modules/translator/domain/glossary_service.py:58-63 | a fresh entry is stored under a new lower-case key; the other entries are unchanged |
| GlossaryService.GlossaryService.MapTerms | modules/translator/domain/glossary_service.py:47-63 | the loop over zip(source, target) (as many pairs as the shorter list) computes the specification's glossary |
| GlossaryService.GlossaryService.UpdateFromChunk | modules/translator/domain/glossary_service.py:18-35 | the glossary becomes the mapping of the two noun lists, with the original as context |
| GlossaryService.Lookup | modules/translator/domain/glossary_service.py:37-45 | get_term_translation on a glossary value: the target under the lower-cased term, or the term; GetTermTranslation returns it and MapTermsLookup states it after mapping |
| GlossaryService.MapTermsSpec | modules/translator/domain/glossary_service.py:47-63 | _map_terms on a glossary value: the first n pairs, each counting a use or adding an entry; MapTermsEffect and MapTermsLookup state the result |
| Formatting.EnsureDialogueDash | modules/translator/domain/formatting.py:31-36 | the result always opens with the em dash; a text that already does is returned unchanged, any other text loses its leading hyphens and em dashes and gains one em dash |
| Formatting.PreserveFormatting | modules/translator/domain/formatting.py:11-29 | an empty original fails (original[0] raises); an original opening with the em dash gives a result opening with it; an all-upper-case original gives a result with no lower-case letter; otherwise an original with an upper-case first letter capitalises the first character of the translation (failing on an empty translation) and any other original returns the translation unchanged |
| Formatting.LeadingSpace | modules/translator/domain/formatting.py:44 | counts a prefix made only of whitespace |
| Formatting.TrailingSpace | modules/translator/domain/formatting.py:45 | counts a suffix made only of whitespace |
| Formatting.PreserveWhitespaceShape | modules/translator/domain/formatting.py:38-50 | the result's stripped text is the translation's, and when that is not empty the result carries exactly the original's leading and trailing whitespace |
| Formatting.LineQuota | modules/translator/domain/formatting.py:85-89 | every line that had words in the original is given at least one word |
| Formatting.WordCounts | modules/translator/domain/formatting.py:69-71 | one count per original line, equal to the number of words on it |
| Formatting.SumWordCounts | modules/translator/domain/formatting.py:72 | the counts add up to the number of words over all lines |
| Formatting.OriginalWordTotal | modules/translator/domain/formatting.py:58-72 | the total of the per-line counts is the number of words in the original |
| Formatting.Distribute | modules/translator/domain/formatting.py:80-98 | one output line per count, and the word index only moves forward and stays in range |
| Formatting.DistributeWords | modules/translator/domain/formatting.py:80-98 | the lines produced hold exactly the translated words consumed, in order, none containing a line break |
| Formatting.FinalLines | modules/translator/domain/formatting.py:77-105 | as many lines as the original had |
| Formatting.FinalLinesWords | modules/translator/domain/formatting.py:77-107 | after the leftover words are appended to the last line, the lines hold every translated word exactly once and in order, and none contains a line break |
| Formatting.TranslatedWords | modules/translator/domain/formatting.py:63-64 | replacing line breaks by spaces and stripping does not change the words of the translation |
| Formatting.PreserveLineBreaksSpec | modules/translator/domain/formatting.py:52-75 | a one-line original, a translation with no words and an original with no words each give the translation back unchanged |
| Formatting.PreserveLineBreaksShape | modules/translator/domain/formatting.py:52-107 | otherwise the result has as many lines as the original and exactly the translation's words, in order |
| Formatting.PreserveLineBreaks | modules/translator/domain/formatting.py:52-107 | the loop computes the specification above |
| Formatting.DistributeLines | modules/translator/domain/formatting.py:77-105 | the distribution and the leftover step compute FinalLines |
| Formatting.DistributeLoop | modules/translator/domain/formatting.py:77-98 | the for loop over the counts computes Distribute from index 0 |
| Formatting.DistributeStep | modules/translator/domain/formatting.py:80-98 | one iteration: an empty original line yields an empty line; any other takes its quota of words, clipped at the end |
| Formatting.PreserveWhitespace | modules/translator/domain/formatting.py:38-50 | preserve_whitespace: the original's leading spaces, the stripped translation, the original's trailing spaces; PreserveWhitespaceShape proves it |
| PostProcessor.PreserveNumbersSpec | modules/translator/domain/post_processor.py:39-61 | when the two texts hold different numbers of numbers the translation is returned unchanged |
| PostProcessor.ReplaceSameNumbers | modules/translator/domain/post_processor.py:52-59 | replacing each number by itself leaves the text unchanged |
| PostProcessor.PreserveNumbersAgreeing | modules/translator/domain/post_processor.py:39-61 | a translation whose numbers already match the original's, in order, is returned unchanged |
| PostProcessor.PreserveNumbersRewritesEarlier | modules/translator/domain/post_processor.py:52-59 | each replacement acts on the first occurrence anywhere in the text rewritten so far: for original "1 5" and translation "12 1" the result is "5 1", not "1 5" |
| PostProcessor.PreserveNumbers | modules/translator/domain/post_processor.py:39-61 | the loop over the zipped numbers computes the specification |
| PostProcessor.VisibleAppend | modules/translator/domain/post_processor.py:63-67 | the non-whitespace characters of a concatenation are those of its parts |
| PostProcessor.SpaceRun | modules/translator/domain/post_processor.py:65 | the longest run of whitespace at the start of a text |
| PostProcessor.DropSpaceBeforePunctVisible | modules/translator/domain/post_processor.py:65 | removing whitespace before punctuation keeps every other character, in order |
| PostProcessor.DropSpaceBeforePunctClean | modules/translator/domain/post_processor.py:65 | afterwards no whitespace precedes a punctuation mark |
| PostProcessor.DropSpaceBeforePunctFixed | modules/translator/domain/post_processor.py:65 | the substitution changes a text exactly when some whitespace precedes a punctuation mark |
| PostProcessor.SpaceAfterPunctVisible | modules/translator/domain/post_processor.py:66 | inserting a space after punctuation keeps every non-whitespace character, in order |
| PostProcessor.SpaceAfterPunctFixed | modules/translator/domain/post_processor.py:66 | the substitution changes a text exactly when a punctuation mark is followed by a non-whitespace character |
| PostProcessor.SpaceAfterPunctGrows | modules/translator/domain/post_processor.py:66 | when it changes the text it makes it longer |
| PostProcessor.SpaceAfterPunctSpaces | modules/translator/domain/post_processor.py:66 | where no two punctuation marks are adjacent, every punctuation mark in the result is followed by whitespace or the end |
| PostProcessor.FixPunctuationVisible | modules/translator/domain/post_processor.py:63-67 | repairing punctuation keeps the non-whitespace characters in order, and leaves a correctly spaced text unchanged |
| PostProcessor.ProcessResult | modules/translator/domain/post_processor.py:16-37 | an empty original fails; the result neither starts nor ends with whitespace; the whitespace step has no effect, so process is the stripped output of the formatting step over line breaks, punctuation and numbers |
| PostProcessor.FinishResult | modules/translator/domain/post_processor.py:33-37 | restoring the original's whitespace and then stripping equals stripping the formatted text |
| PostProcessor.FixPunctuation | modules/translator/domain/post_processor.py:63-67 | _fix_punctuation: drop whitespace before punctuation, then put a space after a mark followed by text; FixPunctuationVisible proves it keeps every visible character in order and leaves a well-spaced text unchanged |
| PostProcessor.Process | modules/translator/domain/post_processor.py:16-37 | process: numbers, punctuation, line breaks, formatting and whitespace in that order, then strip; ProcessResult proves an empty original fails and the result has no surrounding whitespace |
| ProperNames.Common | modules/translator/domain/proper_name_protector.py:121-124 | the number of agreeing positions is at most the length of either string |
| ProperNames.CommonSymmetric | modules/translator/domain/proper_name_protector.py:121-124 | the agreement count does not depend on argument order |
| ProperNames.SimilarProperties | modules/translator/domain/proper_name_protector.py:113-127 | similarity is symmetric and reflexive; an empty string is similar to no non-empty one; two strings that differ ignoring case are similar only if the shorter is more than 3/5 of the longer |
| ProperNames.AllSimilarPairwise | modules/translator/domain/proper_name_protector.py:107-111 | the zip loop accepts exactly when every pair of words is similar |
| ProperNames.LikelyMatchWordwise | modules/translator/domain/proper_name_protector.py:99-111 | a candidate (trailing dots removed) matches exactly when it has as many words as the name and each word is similar to the name's |
| ProperNames.LikelyMatchSelf | modules/translator/domain/proper_name_protector.py:99-111 | a name without trailing dots matches itself |
| ProperNames.ProperNameRules | modules/translator/domain/proper_name_protector.py:129-156 | a single word of three or more characters at the very start of its context is a sentence start and so not a likely proper name |
| ProperNames.KnownIn | modules/translator/domain/proper_name_protector.py:29-31 | the known names kept are exactly those occurring in the text |
| ProperNames.KnownInNoDuplicates | modules/translator/domain/proper_name_protector.py:17-31 | the known names found hold no repeats |
| ProperNames.AddCandidatesEffect | modules/translator/domain/proper_name_protector.py:33-38 | the candidate loop keeps the names listed so far as a prefix, adds no repeat, adds only likely proper names, and adds every likely one |
| ProperNames.ExtractNamesShape | modules/translator/domain/proper_name_protector.py:25-40 | extract_names lists the known names found first, then likely candidates; no repeats; every known name in the text and every likely candidate appears, and nothing else |
| ProperNames.ExtractNames | modules/translator/domain/proper_name_protector.py:25-40 | the two loops compute the specification |
| ProperNames.FindKnown | modules/translator/domain/proper_name_protector.py:29-31 | the known-name loop computes KnownIn |
| ProperNames.KnownInStep | modules/translator/domain/proper_name_protector.py:29-31 | one iteration of the known-name loop |
| ProperNames.AddLikely | modules/translator/domain/proper_name_protector.py:33-38 | the candidate loop computes AddCandidates |
| ProperNames.RunEnd | modules/translator/domain/proper_name_protector.py:71 | the end of a run of word characters: no word character follows it |
| ProperNames.SpaceEnd | modules/translator/domain/proper_name_protector.py:71 | the end of a run of whitespace: no whitespace follows it |
| ProperNames.SameIgnoringCaseLower | modules/translator/domain/proper_name_protector.py:115 | comparing character by character ignoring case is comparing the lower-cased strings |
| ProperNames.ChainEndSound | modules/translator/domain/proper_name_protector.py:70-75 | a chain end found lies past its start and is followed by the last word |
| ProperNames.ChainSearchSound | modules/translator/domain/proper_name_protector.py:70-75 | a match found starts a word and ends with the last word of the name |
| ProperNames.ChainMatch | modules/translator/domain/proper_name_protector.py:70-75 | a match found occurs in the text and is longer than the last word |
| ProperNames.ShortWordSearch | modules/translator/domain/proper_name_protector.py:83-88 | a match found is a whole word of 2 to len(name)+10 word characters |
| ProperNames.FuzzyRestore | modules/translator/domain/proper_name_protector.py:65-95 | the text is unchanged, or else it now contains the name |
| ProperNames.RestoreLastName | modules/translator/domain/proper_name_protector.py:57-95 | after the pass for a name, the text is what the corruption loop left or it contains the name |
| ProperNames.RestoreNoNames | modules/translator/domain/proper_name_protector.py:42-97 | when the original has no names the translation is returned unchanged |
| ProperNames.FixCorruptionsLoop | modules/translator/domain/proper_name_protector.py:58-63 | the corruption loop computes its specification |
| ProperNames.RestoreNames | modules/translator/domain/proper_name_protector.py:42-97 | extraction and one pass per name compute restore_names' specification |
| ProperNames.IsSimilar | modules/translator/domain/proper_name_protector.py:113-127 | _is_similar: equal ignoring case, or both non-empty with more than 3/5 of the longer length agreeing position by position ignoring case; SimilarProperties proves it symmetric and reflexive, false when exactly one is empty, and that a similar pair differing beyond case has lengths above 3:5 |
| ProperNames.IsLikelyMatch | modules/translator/domain/proper_name_protector.py:99-111 | _is_likely_match: the name's words and the candidate's words without trailing dots are equally many and pairwise similar; proved in LikelyMatchWordwise, and a name matches itself (LikelyMatchSelf) |
| ProperNames.IsSentenceStart | modules/translator/domain/proper_name_protector.py:147-156 | _is_sentence_start: the word occurs followed by a word boundary at the start of the text or after ., ! or ? and whitespace |
| ProperNames.IsLikelyProperName | modules/translator/domain/proper_name_protector.py:129-145 | _is_likely_proper_name: shorter than 3 is rejected, several words are accepted, a single word is accepted unless it starts a sentence; ProperNameRules shows a word opening the text is rejected |
| ProperNames.ExtractNamesSpec | modules/translator/domain/proper_name_protector.py:25-40 | extract_names: the known names found, then the likely candidates not already listed; ExtractNamesShape proves order, no repeats and completeness |
| ProperNames.RestoreNamesSpec | modules/translator/domain/proper_name_protector.py:42-97 | restore_names: one fuzzy-restore pass per extracted name, in order; RestoreNoNames and RestoreLastName state its effect |
| TranslationUtils.PrepareInput | modules/translator/infrastructure/translation_utils.py:13-21 | no context or an empty one gives the text; otherwise context, a space, then the text |
| TranslationUtils.PrepareInputEndsWithText | modules/translator/infrastructure/translation_utils.py:13-21 | the prepared input always ends with the text itself |
| TranslationUtils.ModelKeyDistinguishes | modules/translator/infrastructure/translation_utils.py:23-26 | two language pairs with the same key are the same pair, when the source code has no hyphen |
| TranslationUtils.BatchTexts | modules/translator/infrastructure/translation_utils.py:28-37 | a batch size of zero fails (range with step 0 raises); a negative one gives no batches |
| TranslationUtils.BatchesFlatten | modules/translator/infrastructure/translation_utils.py:34-37 | the batches, concatenated, are the texts again |
| TranslationUtils.BatchesSizes | modules/translator/infrastructure/translation_utils.py:34-37 | every batch is non-empty and at most the batch size, all but the last are full, and there are ceil(len/size) of them |
| TranslationUtils.GetModelKey | modules/translator/infrastructure/translation_utils.py:23-26 | get_model_key: source, "-", target; ModelKeyDistinguishes proves distinct pairs get distinct keys when the source has no hyphen |
| TranslationUtils.Batches | modules/translator/infrastructure/translation_utils.py:28-37 | the slices texts[i:i+n] for i in range(0, len, n); BatchesFlatten and BatchesSizes prove they concatenate to the texts, are non-empty and at most n, all but the last full, ceil(len/n) of them |
| LanguagePrefix.AddPrefix | modules/translator/infrastructure/language_prefix.py:25-42 | a model without "itc-itc" or "roa" in its name, or a target without a code, gets the text unchanged; otherwise the target's tag and a space are put in front |
| LanguagePrefix.AddPrefixRecoverable | modules/translator/infrastructure/language_prefix.py:11-42 | the result is the text, or an 8-character tag of the form ">>xxx<< " followed by the text |
| LanguagePrefix.NeedsPrefix | modules/translator/infrastructure/language_prefix.py:20-23 | needs_prefix: the model name contains "itc-itc" or "roa"; AddPrefix's contract rests on it |
| CacheSerializer.SerializeChunk | modules/translator/infrastructure/serializer.py:38-49 | every stored field of a chunk is copied into its record (the validation result is not stored) |
| CacheSerializer.SerializeEntry | modules/translator/infrastructure/serializer.py:51-59 | every field of a glossary entry is copied into its record |
| CacheSerializer.SerializeChunks | modules/translator/infrastructure/serializer.py:22-25 | one record per chunk, in order |
| CacheSerializer.Serialize | modules/translator/infrastructure/serializer.py:12-36 | the glossary is stored under the same keys, each entry serialised, and completed_at is kept (None when absent) |
| CacheDeserializer.RestoreChunk | modules/translator/infrastructure/deserializer.py:54-66 | a restored chunk serialises back to its record and has no validation result |
| CacheDeserializer.RestoreChunks | modules/translator/infrastructure/deserializer.py:33-37 | one chunk per record, in order |
| CacheDeserializer.RestoreEntry | modules/translator/infrastructure/deserializer.py:67-76 | a restored entry serialises back to its record |
| CacheDeserializer.RestoreGlossary | modules/translator/infrastructure/deserializer.py:39-43 | the same keys, each entry restored |
| CacheDeserializer.Restore | modules/translator/infrastructure/deserializer.py:16-53 | restoring succeeds exactly when the stored language pair is valid (LanguagePair raises otherwise); a falsy completed_at leaves the translation incomplete with an empty final text; restored chunks carry no validation |
| CacheDeserializer.Unvalidated | modules/translator/infrastructure/deserializer.py:54-66 | the chunks with their validation results dropped |
| CacheDeserializer.RoundTrip | modules/translator/infrastructure/serializer.py:12-59 | serialising a translation with a valid pair and then restoring it gives the same translation, except that chunk validations are lost |
| CacheDeserializer.RecordRoundTrip | modules/translator/infrastructure/deserializer.py:16-53 | restoring a well-formed record and serialising the result gives the same record |
| CacheDeserializer.Deserialize | modules/translator/infrastructure/deserializer.py:16-53 | the program's steps build a fresh translation object whose state is the restored value, or fail exactly when Restore fails |
| CacheDeserializer.Rebuild | modules/translator/infrastructure/deserializer.py:24-43 | a fresh translation with the record's text, pair, id and creation time, its chunks and glossary restored, and not completed |
| CacheDeserializer.CopyCompletion | modules/translator/infrastructure/deserializer.py:45-51 | completion time and final text are copied only when completed_at is truthy; nothing else changes |
| CacheDeserializer.AppendChunks | modules/translator/infrastructure/deserializer.py:33-37 | the old chunks are kept and one fresh restored chunk per record is appended, in order |
| CacheDeserializer.FillGlossary | modules/translator/infrastructure/deserializer.py:39-43 | the glossary becomes the restored records, each entry a fresh object |
| Sorting.Insert | modules/grammar/domain/corrector.py:131-135 | inserting keeps every element: the multiset grows by exactly the inserted one |
| Sorting.SortBy | modules/grammar/domain/corrector.py:131-135 | sorting is a permutation of its input |
| Sorting.SortByDesc | modules/grammar/domain/corrector.py:131-135 | sorting in reverse is a permutation of its input |
| Sorting.SortBySorted | modules/grammar/domain/corrector.py:131-135 | the result is in ascending key order |
| Sorting.SortByStable | modules/grammar/domain/corrector.py:131-135 | elements with equal keys keep their original relative order, as Python's sort does |
| Sorting.SortBySortedIdentity | modules/grammar/domain/corrector.py:131-135 | an already sorted sequence is returned unchanged |
| Sorting.SortByCount | modules/grammar/domain/corrector.py:131-135 | sorting keeps the number of elements satisfying any predicate |
| Sorting.SortByDescOrdered | modules/grammar/domain/corrector.py:131-135 | with reverse=True the keys are in descending order |
| Sorting.SortByDescCount | modules/grammar/domain/corrector.py:131-135 | sorting in reverse keeps the number of elements satisfying any predicate |
| Sorting.SortByStrict | modules/grammar/domain/corrector.py:131-135 | with distinct keys the sorted keys strictly increase |
| GrammarModels.ErrorType.Value | modules/grammar/domain/models.py:6-12 | every error type has a non-empty string value |
| GrammarModels.Severity.Value | modules/grammar/domain/models.py:15-19 | every severity has a non-empty string value |
| GrammarModels.ValuesDistinct | modules/grammar/domain/models.py:6-19 | distinct error types, and distinct severities, have distinct values |
| GrammarModels.ToDict | modules/grammar/domain/models.py:35-47 | each field of the error goes to its key, enums as their values |
| GrammarModels.ToDictInjective | modules/grammar/domain/models.py:22-47 | two errors with the same dictionary are the same error: nothing is lost in serialisation |
| GrammarCorrector.Fix | modules/grammar/domain/corrector.py:141-150 | an error without a replacement leaves the text unchanged; an error with one and a span inside the text replaces exactly that span |
| GrammarCorrector.ApplyAllCount | modules/grammar/domain/corrector.py:140-152 | the fixed count is the number of errors carrying a replacement |
| GrammarCorrector.ApplyAllIgnoresUnsuggested | modules/grammar/domain/corrector.py:140-152 | errors without a replacement have no effect on the text |
| GrammarCorrector.RightToLeftTail | modules/grammar/domain/corrector.py:129-135 | the right-to-left condition holds for the remaining errors and for the text left of the first one |
| GrammarCorrector.ApplyAllLocal | modules/grammar/domain/corrector.py:140-150 | fixes that stay inside a prefix do not touch what follows it |
| GrammarCorrector.ApplyRightToLeft | modules/grammar/domain/corrector.py:129-152 | applying disjoint errors from right to left splices each replacement into the original text at its original offset |
| GrammarCorrector.SortedRightToLeft | modules/grammar/domain/corrector.py:129-135 | sorting non-overlapping errors by descending offset puts them right to left |
| GrammarCorrector.CorrectionSplices | modules/grammar/domain/corrector.py:123-152 | for non-overlapping errors inside the text, every replacement lands at its original offset, whatever order the errors came in |
| GrammarCorrector.TwoFixes | modules/grammar/domain/corrector.py:123-152 | two disjoint fixes give the same result in either input order, each at its own span, with a count of two |
| GrammarCorrector.FixTwice | modules/grammar/domain/corrector.py:140-150 | the right fix first, then the left one, gives both replacements at their original spans |
| GrammarCorrector.ApplyCorrections | modules/grammar/domain/corrector.py:123-152 | the method computes the specification: count of errors with a replacement, and no errors means the text unchanged |
| GrammarCorrector.ApplyInOrder | modules/grammar/domain/corrector.py:137-152 | the loop over the sorted errors computes ApplyAll |
| GrammarCorrector.ApplyCorrectionsSpec | modules/grammar/domain/corrector.py:123-152 | _apply_corrections: the errors sorted by descending offset applied in turn, and the count with a replacement; CorrectionSplices and ApplyAllCount state the result |
| GrammarSummary.Bump | modules/grammar/domain/summary.py:68-69 | `counts.get(k, 0) + 1`: the key is present afterwards with one more, and every other count is unchanged |
| GrammarSummary.CountsMeaning | modules/grammar/domain/summary.py:61-81 | a key is present exactly when some error has it, and its count is the number of errors that have it |
| GrammarSummary.CountsKeys | modules/grammar/domain/summary.py:61-81 | a key is present exactly when some error has it |
| GrammarSummary.CountsValue | modules/grammar/domain/summary.py:61-81 | a key's count is the number of errors that have it |
| GrammarSummary.TypeCountsSum | modules/grammar/domain/summary.py:61-70 | the five type counts add up to the number of errors, and no other key appears |
| GrammarSummary.SeverityCountsSum | modules/grammar/domain/summary.py:72-81 | the three severity counts add up to the number of errors, and no other key appears |
| GrammarSummary.GroupBy | modules/grammar/domain/summary.py:66-70 | the counting loop computes the specification |
| GrammarSummary.GroupByType | modules/grammar/domain/summary.py:61-70 | _group_by_type counts per type value, adding up to the number of errors |
| GrammarSummary.GroupBySeverity | modules/grammar/domain/summary.py:72-81 | _group_by_severity counts per severity value, adding up to the number of errors |
| GrammarSummary.RoundedShare | modules/grammar/domain/summary.py:33-37 | the fix percentage rounded to two places, in hundredths, lies between 0 and 10000 |
| GrammarSummary.FixRateBounds | modules/grammar/domain/summary.py:33-37 | no errors gives rate 0; otherwise the rate lies between 0 and 100, is 0 when nothing was fixed and 100 when everything was |
| GrammarSummary.Records | modules/grammar/domain/summary.py:49-58 | one dictionary per error, in order |
| GrammarSummary.RecordsOfFilter | modules/grammar/domain/summary.py:49-58 | every dictionary listed comes from an error of the result that satisfies the filter |
| GrammarSummary.SummarySides | modules/grammar/domain/summary.py:49-58 | detailed fixes all carry a non-empty replacement; unfixed errors carry none or an empty one |
| GrammarSummary.SummaryPartition | modules/grammar/domain/summary.py:49-58 | the two lists together have as many entries as there are errors, and every error appears in the list its replacement selects |
| GrammarSummary.CorrectionSummary | modules/grammar/domain/corrector.py:66-108 | for a correction produced by the corrector, the summary's fixed count is the number of detailed fixes, the unfixed count is the number of unfixed errors, and the rate lies between 0 and 100 |
| GrammarSummary.FixRate | modules/grammar/domain/summary.py:33-37 | the fix rate: 0 without errors, else the percentage fixed rounded half to even to two places; FixRateBounds proves 0 to 100, 0 when nothing is fixed and 100 when all is |
| GrammarSummary.GenerateSummary | modules/grammar/domain/summary.py:15-60 | generate_summary: metadata, statistics with unfixed = total - fixed, counts per type and severity, and the fixed and unfixed lists; SummarySides, SummaryPartition and CorrectionSummary state its properties |
| Versioning.LastIndexOf | modules/grammar/domain/versioning.py:28-29 | the position of the last occurrence of the character |
| Versioning.Name | modules/grammar/domain/versioning.py:24 | a path's name has no separator and is not "." |
| Versioning.StemSuffix | modules/grammar/domain/versioning.py:28-29 | stem and suffix put back together give the name; a suffix is a dot followed by at least one character and no further dot; a name with a suffix has a non-empty stem |
| Versioning.SuffixOfAppend | modules/grammar/domain/versioning.py:28-29 | appending a suffix to a non-empty stem gives back that stem and suffix |
| Versioning.NameOfBare | modules/grammar/domain/versioning.py:24 | a bare file name is its own name |
| Versioning.NameIgnoresDirectory | modules/grammar/domain/versioning.py:24 | the directory part does not affect the name |
| Versioning.VersionedFilenameShape | modules/grammar/domain/versioning.py:14-32 | the versioned name is a bare file name that keeps the original suffix and has stem `<stem>_v<version>` |
| Versioning.SummaryFilenameShape | modules/grammar/domain/versioning.py:34-49 | the summary name is a bare file name with suffix ".json" and stem `<stem>_fixes_v<version>` |
| Versioning.VersionedFilename | modules/grammar/domain/versioning.py:15-32 | create_versioned_filename: stem + "_v" + version + suffix as a bare name; VersionedFilenameShape proves it |
| Versioning.SummaryFilename | modules/grammar/domain/versioning.py:35-49 | create_summary_filename: stem + "_fixes_v" + version + ".json" as a bare name; SummaryFilenameShape proves it |
| PauseConfig.PauseCodesListed | modules/tts/domain/text/pause_config.py:29-71 | the table of numeric codes matches the marks of the pause table, entry by entry |
| PauseConfig.PauseCodesUnique | modules/tts/domain/text/pause_config.py:29-71 | the codes are pairwise distinct |
| PauseConfig.PauseCodesDistinct | modules/tts/domain/text/pause_config.py:29-71 | no two entries of the pause table share a mark's code |
| PauseConfig.PauseKeysDistinct | modules/tts/domain/text/pause_config.py:29-71 | the pause table, like the dictionary it models, has no repeated key |
| PauseConfig.PauseBounds | modules/tts/domain/text/pause_config.py:29-71 | every configured pause lies between 0 and 1200 ms |
| PauseConfig.GetPauseMs | modules/tts/domain/text/pause_config.py:88-99 | an unlisted mark gives 0; every result lies between 0 and 1200 ms |
| PauseConfig.GetPauseMsListed | modules/tts/domain/text/pause_config.py:88-99 | a listed mark gives its configured duration |
| PauseConfig.GetPauseSeconds | modules/tts/domain/text/pause_config.py:101-113 | the seconds are the milliseconds divided by 1000, between 0 and 1.2 |
| PauseConfig.MsToPeriods | modules/tts/domain/text/pause_config.py:115-133 | the result holds only periods, and is empty exactly when the duration is not positive |
| PauseConfig.MsToPeriodsCount | modules/tts/domain/text/pause_config.py:128-133 | a positive duration gives at least one period; at most 100 ms gives exactly one; above that the periods times 200 ms are within 100 ms of the duration |
| PauseConfig.MsToPeriodsExamples | modules/tts/domain/text/pause_config.py:115-133 | 0 and negative give none; 100 and 200 ms give one; 300 and 500 give two (round half to even); 600 gives three; 1000 gives five |
| PauseConfig.GetAllPunctuation | modules/tts/domain/text/pause_config.py:135-138 | the marks of the table, in table order |
| PauseConfig.GetAllPunctuationKeys | modules/tts/domain/text/pause_config.py:135-138 | the list has no repeats, and a mark is in it exactly when the table has it |
| PauseConfig.StructuralPausesLonger | modules/tts/domain/text/pause_config.py:77-82 | every structural pause is longer than every punctuation pause |
| PauseConfig.PausedMarksAreListed | modules/tts/domain/text/pause_config.py:88-138 | a mark with a non-zero pause is one of the listed marks |
| RomanConverter.RomanNumber | modules/tts/domain/text/roman_converter.py:10-41 | `ROMAN_TO_NUM.get(roman)`: a number from 1 to 20 exactly for the twenty listed numerals, and none (0) otherwise |
| RomanConverter.SpanishOrdinal | modules/tts/domain/text/roman_converter.py:17-44 | the ordinal never introduces a line break of its own |
| RomanConverter.ScanOut | modules/tts/domain/text/roman_converter.py:33-60 | one output line per input line |
| RomanConverter.ScanOutAt | modules/tts/domain/text/roman_converter.py:33-60 | output line i is the step applied to line i with the flag left by the lines before it |
| RomanConverter.Converted | modules/tts/domain/text/roman_converter.py:32-62 | as many converted lines as lines |
| RomanConverter.ConvertOne | modules/tts/domain/text/roman_converter.py:37-60 | one iteration of the loop body computes its specification |
| RomanConverter.ConvertedStep | modules/tts/domain/text/roman_converter.py:36-60 | extending the lines by one appends one step's output and updates the flag by that step |
| RomanConverter.ConvertLine | modules/tts/domain/text/roman_converter.py:28-62 | convert_line splits on line breaks, converts each line and joins them again |
| RomanConverter.ConvertLines | modules/tts/domain/text/roman_converter.py:33-60 | the for loop computes the converted lines |
| RomanConverter.RomanTableFacts | modules/tts/domain/text/roman_converter.py:10-15 | the numeral table lists 1 to 20 in order |
| RomanConverter.RomanKeysDistinct | modules/tts/domain/text/roman_converter.py:10-15 | the numeral table has no repeated key |
| RomanConverter.SpanishTableFacts | modules/tts/domain/text/roman_converter.py:17-26 | the ordinal table lists 1 to 20 in order, with no line break in any ordinal |
| RomanConverter.OrdinalOfTable | modules/tts/domain/text/roman_converter.py:10-26 | each listed numeral converts to the ordinal of its value |
| RomanConverter.StepFlag | modules/tts/domain/text/roman_converter.py:39-60 | after a line the flag is set exactly when the line is a known numeral, or it was set and the line is blank |
| RomanConverter.StepLine | modules/tts/domain/text/roman_converter.py:39-60 | a known numeral becomes its ordinal and a 2-second silence; a line with text that is not a numeral line, right after a numeral, gets a 0.5-second silence in front; every other line is kept |
| RomanConverter.FlagMeaning | modules/tts/domain/text/roman_converter.py:34-60 | the flag after the first i lines holds exactly when a known numeral came before with only blank lines since |
| RomanConverter.ConvertedAt | modules/tts/domain/text/roman_converter.py:28-62 | every output line stated directly in terms of the input lines: the ordinal for a numeral, the warm-up silence for the first text line after one, else the line itself |
| RomanConverter.StepNoNewline | modules/tts/domain/text/roman_converter.py:39-60 | a converted line holds no line break |
| RomanConverter.ConvertLineLines | modules/tts/domain/text/roman_converter.py:28-62 | splitting the result again gives back the converted lines: the line count is kept |
| ChapterDetector.Chapter.FolderName | modules/tts/domain/chapter_detector.py:17-20 | the folder name is "capitulo_" followed by at least two characters |
| ChapterDetector.PadNumber | modules/tts/domain/chapter_detector.py:20 | the number is padded to at least the given width |
| ChapterDetector.CharValue | modules/tts/domain/chapter_detector.py:62-67 | I, V, X are 1, 5, 10 and every other character 0 |
| ChapterDetector.ScanIsSubtractiveSum | modules/tts/domain/chapter_detector.py:60-74 | the right-to-left scan computes the subtractive sum, a digit subtracting when it is smaller than the one to its right |
| ChapterDetector.ScanBound | modules/tts/domain/chapter_detector.py:60-74 | for a non-empty numeral of I, V, X the value is at least its first digit's, which is at least 1 |
| ChapterDetector.RomanValuePositive | modules/tts/domain/chapter_detector.py:60-74 | a non-empty numeral of I, V, X has a positive value |
| ChapterDetector.ValueAgreesWithTable | modules/tts/domain/chapter_detector.py:60-74 | the detector's value of each of the twenty numerals agrees with the converter's table |
| ChapterDetector.RomanToInt | modules/tts/domain/chapter_detector.py:60-74 | the loop gives the subtractive sum when it is positive and None otherwise |
| ChapterDetector.MarkerAt | modules/tts/domain/chapter_detector.py:37-49 | a line yields a chapter exactly when it is a numeral line; the chapter starts there, with the stripped numeral, its positive value and end 0 |
| ChapterDetector.LineMarkers | modules/tts/domain/chapter_detector.py:37-49 | one possible chapter per line |
| ChapterDetector.WithEnds | modules/tts/domain/chapter_detector.py:51-55 | as many chapters as found |
| ChapterDetector.CollectMarkers | modules/tts/domain/chapter_detector.py:37-49 | the first loop collects the markers |
| ChapterDetector.SetEnds | modules/tts/domain/chapter_detector.py:51-55 | the second loop and the last assignment set the ends |
| ChapterDetector.DetectChapters | modules/tts/domain/chapter_detector.py:29-58 | detect_chapters keeps, among the markers with their ends set, those longer than the minimum |
| ChapterDetector.SomesSound | modules/tts/domain/chapter_detector.py:37-49 | every chapter kept comes from the line it names |
| ChapterDetector.SomesAscending | modules/tts/domain/chapter_detector.py:37-49 | chapters are listed by increasing start line |
| ChapterDetector.SomesComplete | modules/tts/domain/chapter_detector.py:37-49 | every marker found is kept |
| ChapterDetector.FilterAscending | modules/tts/domain/chapter_detector.py:57-58 | filtering keeps the order |
| ChapterDetector.MarkersSound | modules/tts/domain/chapter_detector.py:37-49 | every marker starts at a numeral line of the text |
| ChapterDetector.MarkersOrdered | modules/tts/domain/chapter_detector.py:37-49 | markers come in increasing line order |
| ChapterDetector.MarkersComplete | modules/tts/domain/chapter_detector.py:37-49 | every numeral line yields a marker |
| ChapterDetector.ChapterEnds | modules/tts/domain/chapter_detector.py:51-55 | setting ends keeps number, numeral and start; each chapter ends where the next starts and the last at the line count |
| ChapterDetector.DetectedChapters | modules/tts/domain/chapter_detector.py:29-58 | the chapters returned are in line order, each longer than 100 lines and starting at a numeral line, and every long enough chapter is returned |
| ChapterDetector.LongChapters | modules/tts/domain/chapter_detector.py:51-58 | for any ascending chapters at numeral lines, the filter keeps exactly the long ones, in order |
| ChapterDetector.FolderNameExamples | modules/tts/domain/chapter_detector.py:17-20 | chapter 3 goes to "capitulo_03" and chapter 12 to "capitulo_12" |
| ChapterDetector.FolderNameNumber | modules/tts/domain/chapter_detector.py:17-20 | the folder name's digits spell the chapter number, in exactly two digits below 100 |
| ChapterDetector.Scan | modules/tts/domain/chapter_detector.py:62-72 | the right-to-left loop of _roman_to_int, with the last digit seen: ScanIsSubtractiveSum proves it computes the subtractive sum |
| Dict.GetSpec | modules/tts/domain/text/pause_config.py:99 | `d.get(key, default)` returns the value of an entry with that key, or the default when the key is absent |
| Dict.GetOfEntry | modules/tts/domain/text/pause_config.py:99 | in a dictionary literal without repeated keys, looking up an entry's key returns its value |
| PauseAwareChunker.BreakLen | modules/tts/domain/text/pause_aware_chunker.py:21 | `(?<=[.!?])\s+` matches at a position exactly when the length is positive, and then it is the whole whitespace run that follows |
| PauseAwareChunker.SentencePieces | modules/tts/domain/text/pause_aware_chunker.py:21-22 | re.split always yields at least one piece |
| PauseAwareChunker.SplitSentences | modules/tts/domain/text/pause_aware_chunker.py:19-23 | every sentence kept has non-whitespace text and is one of the split pieces |
| PauseAwareChunker.SentencePiecesShape | modules/tts/domain/text/pause_aware_chunker.py:21-22 | every piece but the last ends with a sentence mark and holds no further split point |
| PauseAwareChunker.SplitSentencesWords | modules/tts/domain/text/pause_aware_chunker.py:19-23 | splitting and dropping blank pieces keeps every word of the text, in order |
| PauseAwareChunker.SplitSentencesOfOne | modules/tts/domain/text/pause_aware_chunker.py:19-23 | a text with no split point is one sentence |
| PauseAwareChunker.Joined | modules/tts/domain/text/pause_aware_chunker.py:39-47 | each group becomes its sentences joined by single spaces |
| PauseAwareChunker.GroupSentences | modules/tts/domain/text/pause_aware_chunker.py:25-49 | the loop computes the greedy grouping by sentence length, each group joined by spaces |
| PauseAwareChunker.ChunkText | modules/tts/domain/text/pause_aware_chunker.py:14-17 | chunk_text is the grouping of the split sentences |
| PauseAwareChunker.JoinedLength | modules/tts/domain/text/pause_aware_chunker.py:39-47 | a joined chunk is as long as its sentences plus one space between each pair |
| PauseAwareChunker.JoinedWords | modules/tts/domain/text/pause_aware_chunker.py:39-47 | joining keeps every word, in order |
| PauseAwareChunker.GroupedChunks | modules/tts/domain/text/pause_aware_chunker.py:25-49 | chunks keep every word in order and are never blank; each chunk's sentences fit the budget unless it is a single sentence; and no group could have taken the next sentence |
| PauseAwareChunker.ChunkTextWords | modules/tts/domain/text/pause_aware_chunker.py:14-49 | the chunks hold exactly the words of the text, in order, none blank, each within budget unless it is one long sentence |
| PauseAwareChunker.GroupSentencesExample | modules/tts/domain/text/pause_aware_chunker.py:25-49 | with budget 11, "Hola.", "Adiós.", "Sí." give "Hola. Adiós." and "Sí." (spaces are not counted) |
| ManifestParser.TitleFrom | modules/tts/domain/manifest_parser.py:23 | str.title keeps the length |
| ManifestParser.TitleCase | modules/tts/domain/manifest_parser.py:23 | str.title keeps the length |
| ManifestParser.TitleCaseAt | modules/tts/domain/manifest_parser.py:23 | each character is upper-cased when it does not follow a cased character and lower-cased when it does |
| ManifestParser.TitleCaseIdempotent | modules/tts/domain/manifest_parser.py:23 | title-casing twice is title-casing once |
| ManifestParser.ReplaceCharAt | modules/tts/domain/manifest_parser.py:22 | replacing one character by another changes exactly the positions that held it |
| ManifestParser.ExtractAuthorShape | modules/tts/domain/manifest_parser.py:19-23 | the author has the stem's length, with a space exactly where the stem has a space, hyphen or underscore, and is already title-cased |
| ManifestParser.FindYear | modules/tts/domain/manifest_parser.py:73 | the search returns the leftmost position from p holding "(dddd)", or none when there is none |
| ManifestParser.ExtractYear | modules/tts/domain/manifest_parser.py:71-74 | no year exactly when no "(dddd)" occurs; otherwise the value of the four digits of the leftmost one |
| ManifestParser.StripYearSuffix | modules/tts/domain/manifest_parser.py:64-65 | a title ending in optional whitespace, "(dddd)" and optional whitespace loses exactly that tail |
| ManifestParser.EndsWithYear | modules/tts/domain/manifest_parser.py:65 | a text followed by "(dddd)" holds the year at its last six characters |
| ManifestParser.StripYearKeeps | modules/tts/domain/manifest_parser.py:65 | a title that does not end in "(dddd)" before trailing whitespace is unchanged |
| ManifestParser.ClassifyAllAsWritten | modules/tts/domain/manifest_parser.py:50-67 | one kind per line, each line classified by the checks in the program's order |
| ManifestParser.ClassifyAll | modules/tts/domain/manifest_parser.py:50-67 | one kind per line, each line classified with the closing check first |
| ManifestParser.ScanStep | modules/tts/domain/manifest_parser.py:50-67 | one iteration: an opening line opens the index, a closing line ends the loop, a marker line inside the index adds its entry, and any other line changes nothing |
| ManifestParser.ExtractIndex | modules/tts/domain/manifest_parser.py:45-69 | the loop as written computes the scan over the lines classified as written |
| ManifestParser.ExtractIndexFixed | modules/tts/domain/manifest_parser.py:45-69 | the loop with the closing check first computes the corrected scan |
| ManifestParser.ScanSound | modules/tts/domain/manifest_parser.py:50-67 | every entry read comes from a marker line after an opening line with no closing line before it |
| ManifestParser.ScanComplete | modules/tts/domain/manifest_parser.py:50-67 | every such marker line's entry is read |
| ManifestParser.ScanStops | modules/tts/domain/manifest_parser.py:57-58 | nothing after a closing line is read |
| ManifestParser.EndLineOpens | modules/tts/domain/manifest_parser.py:10-58 | every line containing "FIN DEL ÍNDICE" also contains "ÍNDICE" |
| ManifestParser.AsWrittenNeverCloses | modules/tts/domain/manifest_parser.py:53-58 | as written, no line is ever taken as the closing line |
| ManifestParser.ExtractIndexAsWrittenMember | modules/tts/domain/manifest_parser.py:45-69 | as written, an entry is read exactly when its marker line comes after some opening line, wherever the closing line is |
| ManifestParser.IndexFixedStops | modules/tts/domain/manifest_parser.py:57-58 | with the closing check first, nothing after a line containing "FIN DEL ÍNDICE" is read |
| ManifestParser.OpeningLine | modules/tts/domain/manifest_parser.py:53-55 | the line "ÍNDICE" opens the index in both readings |
| ManifestParser.ClosingLine | modules/tts/domain/manifest_parser.py:53-58 | the line "FIN DEL ÍNDICE" is taken as an opening line as written, and as the closing line when corrected |
| ManifestParser.EntryWithoutYear | modules/tts/domain/manifest_parser.py:60-67 | a marker line without a year gives its stripped text after "$" and no year |
| ManifestParser.MarkerClassified | modules/tts/domain/manifest_parser.py:60-67 | a marker line mentioning neither heading is read as its entry in both readings |
| ManifestParser.OneLetterMarker | modules/tts/domain/manifest_parser.py:60-67 | "$" followed by one visible character is a marker for that one-letter title with no year |
| ManifestParser.ScanPastClosing | modules/tts/domain/manifest_parser.py:50-67 | a marker after a second opening line is read, and a marker after a closing line is not |
| ManifestParser.IndexRunsPastClosing | modules/tts/domain/manifest_parser.py:45-69 | as written, the entry listed after "FIN DEL ÍNDICE" is read too |
| ManifestParser.IndexFixedStopsAtClosing | modules/tts/domain/manifest_parser.py:45-69 | when corrected, reading stops at "FIN DEL ÍNDICE" |
| ManifestParser.FirstFromLeast | modules/tts/domain/manifest_parser.py:114-126 | the line search returns the first line in range that matches, or none when no line in range does |
| ManifestParser.TitleLineFn | modules/tts/domain/manifest_parser.py:114-124 | a line can match only from line 100 to the last line |
| ManifestParser.TitleFnAt | modules/tts/domain/manifest_parser.py:112-124 | line m matches exactly when it lies from 100 to the last line and its stripped upper-cased text is the stripped upper-cased title |
| ManifestParser.WorkStartFirst | modules/tts/domain/manifest_parser.py:110-126 | _find_work_start returns the first line from 100 on whose cleaned text equals the cleaned title, or None when there is none |
| ManifestParser.FindWorkStart | modules/tts/domain/manifest_parser.py:110-126 | the loop computes WorkStart |
| ManifestParser.FirstLine | modules/tts/domain/manifest_parser.py:114-126 | the enumerate loop returns the first matching line number from 1 |
| ManifestParser.Starts | modules/tts/domain/manifest_parser.py:84-85 | one start per index entry |
| ManifestParser.CollectWorks | modules/tts/domain/manifest_parser.py:81-95 | the loop over the index collects the works the specification gives |
| ManifestParser.StartsAt | modules/tts/domain/manifest_parser.py:85 | the start of entry k is where its title first stands alone |
| ManifestParser.WorkStartInBody | modules/tts/domain/manifest_parser.py:110-126 | a start found lies from line 100 to the last line |
| ManifestParser.CollectedComplete | modules/tts/domain/manifest_parser.py:84-95 | every start found is the start of some collected work |
| ManifestParser.CollectedSound | modules/tts/domain/manifest_parser.py:84-95 | every collected work has id 0 and end 0 and comes from the first index entry with its start line |
| ManifestParser.CollectedFromStarts | modules/tts/domain/manifest_parser.py:84-95 | every collected work starts at a start found |
| ManifestParser.CollectedDistinct | modules/tts/domain/manifest_parser.py:82-95 | no two collected works share a start line |
| ManifestParser.NumberedShape | modules/tts/domain/manifest_parser.py:99-106 | works in increasing order get ids 1, 2, ..., end one line before the next starts, and the last ends at the line count; nothing else changes |
| ManifestParser.SortedCollected | modules/tts/domain/manifest_parser.py:97 | after sorting, start lines strictly increase and the same works are present |
| ManifestParser.BoundariesOrdered | modules/tts/domain/manifest_parser.py:76-108 | the works come out numbered from 1 in strictly increasing start order, each ending the line before the next and the last at the line count |
| ManifestParser.BoundariesInRange | modules/tts/domain/manifest_parser.py:97-106 | when every start lies in a range, every work starts and ends in it, with start <= end |
| ManifestParser.BoundariesInBody | modules/tts/domain/manifest_parser.py:76-126 | every work starts at line 100 or later, and ends no earlier than it starts and no later than the last line |
| ManifestParser.BoundariesFromIndex | modules/tts/domain/manifest_parser.py:84-95 | every work carries the title and year of the first index entry found at its start |
| ManifestParser.BoundariesCoverIndex | modules/tts/domain/manifest_parser.py:84-108 | every start found for an index entry is some work's start |
| ManifestParser.FindWorkBoundaries | modules/tts/domain/manifest_parser.py:76-108 | collecting, sorting, numbering and setting ends compute Boundaries |
| ManifestParser.NumberWorks | modules/tts/domain/manifest_parser.py:99-106 | numbering and setting ends compute Numbered |
| ManifestParser.SetIds | modules/tts/domain/manifest_parser.py:99-100 | work k gets id k+1 and nothing else changes |
| ManifestParser.SetEnds | modules/tts/domain/manifest_parser.py:102-106 | each work ends one line before the next starts and the last at the line count; nothing else changes |
| ManifestParser.ManifestForShape | modules/tts/domain/manifest_parser.py:25-38 | for any index entries, the manifest counts its works, carries the author from the file name, and is well shaped |
| ManifestParser.ManifestShape | modules/tts/domain/manifest_parser.py:25-38 | the manifest is well shaped both as written and with the corrected index scan |
| ManifestParser.Parser.constructor | modules/tts/domain/manifest_parser.py:14-17 | a new parser has no lines and holds the author drawn from its file name |
| ManifestParser.Parser.Parse | modules/tts/domain/manifest_parser.py:25-38 | the lines become the file's, and the manifest is the one built with the index as written: well shaped, with total_works the number of works |
| ManifestParser.ExtractAuthor | modules/tts/domain/manifest_parser.py:19-23 | _extract_author: the file stem with '-' and '_' turned into spaces and title-cased; ExtractAuthorShape proves it |
| ManifestParser.StripYear | modules/tts/domain/manifest_parser.py:64-65 | re.sub(r'\s*\(\d{4}\)\s*$', '', title); StripYearSuffix and StripYearKeeps state when it removes the year and when it keeps the title |
| ManifestParser.Scan | modules/tts/domain/manifest_parser.py:50-67 | the index loop over classified lines; ScanStep, ScanSound, ScanComplete and ScanStops state what it reads |
| ManifestParser.ManifestOfAsWritten | modules/tts/domain/manifest_parser.py:25-38 | parse: the manifest of the works found for the index read as written; ManifestShape proves it well shaped |
| ManifestParser.ManifestOf | modules/tts/domain/manifest_parser.py:25-38 | the same manifest with the corrected index scan; ManifestShape proves it well shaped |
| TextProcessor.DropEllipsis | modules/tts/domain/core/enhanced_text_processor.py:56 | a line starting with "..." loses exactly those three dots; any other line is unchanged |
| TextProcessor.DropEach | modules/tts/domain/core/enhanced_text_processor.py:56 | every line treated on its own |
| TextProcessor.EllipsisPerLine | modules/tts/domain/core/enhanced_text_processor.py:52-57 | the multiline substitution removes "..." from the start of every line and nothing else: it is the per-line removal over the split lines, joined again |
| TextProcessor.EllipsisAtLineStart | modules/tts/domain/core/enhanced_text_processor.py:56 | a line followed by more text is treated like a line on its own |
| TextProcessor.EllipsisLastLine | modules/tts/domain/core/enhanced_text_processor.py:56 | the last line is treated like any other |
| TextProcessor.NewlineRun | modules/tts/domain/core/enhanced_text_processor.py:63 | the maximal run of newlines at the start |
| TextProcessor.ProtectThenSpace | modules/tts/domain/core/enhanced_text_processor.py:63-65 | protecting runs of two or more newlines and then replacing the remaining newlines gives the placeholder text with single newlines as spaces |
| TextProcessor.RestoreBreaks | modules/tts/domain/core/enhanced_text_processor.py:67 | in a text without the placeholder, restoring the placeholders gives the intended result |
| TextProcessor.NormalizeNewlinesMatches | modules/tts/domain/core/enhanced_text_processor.py:59-68 | for a text that does not itself contain "<!PARAGRAPH!>", each run of two or more newlines becomes "\n\n", each single newline a space, and every other character is kept |
| TextProcessor.MarkerBecomesBreak | modules/tts/domain/core/enhanced_text_processor.py:59-68 | a text that already holds the placeholder has it turned into a paragraph break too |
| TextProcessor.NoNewlineProtected | modules/tts/domain/core/enhanced_text_processor.py:63 | a text without newlines is not touched by the first substitution |
| TextProcessor.NormalizedIdempotent | modules/tts/domain/core/enhanced_text_processor.py:59-68 | normalising twice is normalising once |
| TextProcessor.AddTitlePause | modules/tts/domain/core/enhanced_text_processor.py:70-80 | a text of one line is unchanged |
| TextProcessor.TitlePauseSplits | modules/tts/domain/core/enhanced_text_processor.py:70-93 | the title pause is a long silence the chunking splits on: the result splits into the stripped first line, "2.0" and the rest without its leading whitespace |
| TextProcessor.SilenceLen | modules/tts/domain/core/enhanced_text_processor.py:92 | a match of the long-silence pattern lies inside the text and has at least the opening, one digit and ">" |
| TextProcessor.SilenceAt | modules/tts/domain/core/enhanced_text_processor.py:92 | a match is a silence marker around a duration of the form [1-9]\d*\.?\d* |
| TextProcessor.SplitAt | modules/tts/domain/core/enhanced_text_processor.py:93 | re.split with one capturing group gives an odd number of parts |
| TextProcessor.SilenceParts | modules/tts/domain/core/enhanced_text_processor.py:92-93 | re.split with one capturing group gives an odd number of parts |
| TextProcessor.SplitAtRejoin | modules/tts/domain/core/enhanced_text_processor.py:93 | putting the markers back between the parts gives the text again |
| TextProcessor.SplitAtDurations | modules/tts/domain/core/enhanced_text_processor.py:93 | every captured part is a duration |
| TextProcessor.SilencePartsShape | modules/tts/domain/core/enhanced_text_processor.py:92-93 | the parts rejoined with their markers are the text, and the parts at odd positions are durations |
| TextProcessor.SplitAroundOne | modules/tts/domain/core/enhanced_text_processor.py:92-93 | a text with one marker and no other '<' splits into the text before it, the duration and the text after it |
| TextProcessor.ChunkerKeeps | modules/tts/domain/text/pause_aware_chunker.py:14-49 | the pause-aware chunker makes no blank chunk and keeps every word of a piece, in order |
| TextProcessor.OddMod | modules/tts/domain/core/enhanced_text_processor.py:93 | counting parity down agrees with the remainder by 2, so the parts at odd positions are the ones the split captured |
| TextProcessor.ChunkPart | modules/tts/domain/core/enhanced_text_processor.py:98-109 | one iteration: a silence gives its chunk, a piece with text gives the chunker's chunks, a blank piece none |
| TextProcessor.ChunkParts | modules/tts/domain/core/enhanced_text_processor.py:95-109 | the while loop gives the chunks of every part in order |
| TextProcessor.ChunkWithSilences | modules/tts/domain/core/enhanced_text_processor.py:82-111 | as written: every part after the first that starts with a digit 1-9 is written as a silence chunk, the others are chunked, and blank chunks are dropped |
| TextProcessor.ChunkWithSilencesFixed | modules/tts/domain/core/enhanced_text_processor.py:82-111 | corrected: exactly the captured parts become silence chunks |
| TextProcessor.BlocksAll | modules/tts/domain/core/enhanced_text_processor.py:95-109 | a property held by every silence chunk and every chunker chunk holds for every chunk produced |
| TextProcessor.NoChunkDropped | modules/tts/domain/core/enhanced_text_processor.py:111 | the final filter drops nothing: every chunk produced has text |
| TextProcessor.SilenceChunkWord | modules/tts/domain/core/enhanced_text_processor.py:103 | a silence chunk is a single word |
| TextProcessor.PartChunksWords | modules/tts/domain/core/enhanced_text_processor.py:98-109 | a silence part gives its marker as its one word; a text part gives its own words |
| TextProcessor.BlocksSpoken | modules/tts/domain/core/enhanced_text_processor.py:95-109 | the corrected chunks hold, in order, the words of each text part and each silence marker |
| TextProcessor.ChunksFixedSpoken | modules/tts/domain/core/enhanced_text_processor.py:82-111 | corrected, the chunks hold every word of the text between markers and each long silence as its own chunk, in order |
| TextProcessor.TitlePauseIsSilence | modules/tts/domain/core/enhanced_text_processor.py:80-92 | the title pause "<silence:2.0>" is a long-silence marker with duration "2.0" |
| TextProcessor.DigitLedHasText | modules/tts/domain/core/enhanced_text_processor.py:101-107 | a piece starting with a digit is not blank |
| TextProcessor.DigitTextBlocks | modules/tts/domain/core/enhanced_text_processor.py:95-109 | after the title pause, a text piece starting with a digit is a silence chunk as written and is chunked when corrected |
| TextProcessor.DigitTextTakenAsSilence | modules/tts/domain/core/enhanced_text_processor.py:101 | a text such as a title, the pause and "1914 fue un año..." splits into three parts, and as written the last one comes out as the single chunk "<silence:1914 fue un año...>" instead of being spoken |
| TextProcessor.RemoveLeadingEllipsis | modules/tts/domain/core/enhanced_text_processor.py:52-57 | _remove_leading_ellipsis: the multiline substitution; EllipsisPerLine proves it drops "..." at the start of each line and nothing else |
| TextProcessor.ProtectParagraphs | modules/tts/domain/core/enhanced_text_processor.py:63 | re.sub(r'\n\n+', '<!PARAGRAPH!>', text); NoNewlineProtected and ProtectThenSpace state its effect |
| TextProcessor.NormalizeNewlines | modules/tts/domain/core/enhanced_text_processor.py:59-68 | _normalize_newlines: protect, replace newlines, restore; NormalizeNewlinesMatches and NormalizedIdempotent state its result |
| ContextAnalyzer.Analyze | modules/tts/domain/context_analyzer.py:24-44 | a text is classed as dialogue only when it opens with a dash, and as a pause only when its stripped text is "...", "…" or empty |
| ContextAnalyzer.Classify | modules/tts/domain/context_analyzer.py:26-44 | the same two guarantees for the checks in their order |
| ContextAnalyzer.ByWords | modules/tts/domain/context_analyzer.py:37-44 | the word checks give only question, exclamation or narrative |
| ContextAnalyzer.MarkDecides | modules/tts/domain/context_analyzer.py:28-29 | a question mark decides before anything else |
| ContextAnalyzer.ExclaimDecides | modules/tts/domain/context_analyzer.py:30-31 | without a question mark, an exclamation mark decides |
| ContextAnalyzer.PauseDecides | modules/tts/domain/context_analyzer.py:34-35 | without marks or an opening dash, a pause text is a pause |
| ContextAnalyzer.WordsDecide | modules/tts/domain/context_analyzer.py:37-44 | otherwise only the words decide |
| ContextAnalyzer.FirstWordAsks | modules/tts/domain/context_analyzer.py:39-40 | a first word in the question list makes a question |
| ContextAnalyzer.FirstWordExclaims | modules/tts/domain/context_analyzer.py:41-42 | a first word in the exclamation list makes an exclamation |
| ContextAnalyzer.FirstWordNarrates | modules/tts/domain/context_analyzer.py:37-44 | a first word in neither list makes narrative |
| ContextAnalyzer.TwoWordsAskFixed | modules/tts/domain/context_analyzer.py:14-17 | corrected, two first words that form a listed question word make a question |
| ContextAnalyzer.MarkSurvives | modules/tts/domain/context_analyzer.py:26 | a visible uncased character of the text survives lower-casing and stripping |
| ContextAnalyzer.CleanEndsWith | modules/tts/domain/context_analyzer.py:26-30 | lower-casing does not change whether the stripped text ends with an uncased mark |
| ContextAnalyzer.UnmarkedClean | modules/tts/domain/context_analyzer.py:28-31 | a text with no ¿ or ¡ and no trailing ? or ! passes both mark checks |
| ContextAnalyzer.InvertedQuestionMarkFirst | modules/tts/domain/context_analyzer.py:28-29 | any text containing ¿ is a question |
| ContextAnalyzer.TrailingQuestionMarkFirst | modules/tts/domain/context_analyzer.py:28-29 | any text whose stripped form ends with ? is a question |
| ContextAnalyzer.ExclamationBeforeDialogue | modules/tts/domain/context_analyzer.py:28-33 | a text with ¡ or a trailing ! and no question mark is an exclamation, even when it opens with a dash |
| ContextAnalyzer.DialogueBeforePause | modules/tts/domain/context_analyzer.py:32-33 | an unmarked text opening with a dash is dialogue |
| ContextAnalyzer.PauseText | modules/tts/domain/context_analyzer.py:34-35 | a text whose stripped form is "...", "…" or empty is a pause |
| ContextAnalyzer.OpeningWord | modules/tts/domain/context_analyzer.py:26-37 | the first word of the cleaned text is the lower-cased first word of the text |
| ContextAnalyzer.LetterOpensWords | modules/tts/domain/context_analyzer.py:24-44 | an unmarked text that opens with a letter is classed by its words alone |
| ContextAnalyzer.ListedWordOpensWithLetter | modules/tts/domain/context_analyzer.py:14-22 | every listed word starts with a letter |
| ContextAnalyzer.ListedWordNoSpace | modules/tts/domain/context_analyzer.py:14-22 | every listed word except "por qué" is a single word |
| ContextAnalyzer.QuestionWordOpens | modules/tts/domain/context_analyzer.py:37-40 | an unmarked text opening with a one-word question word, in any case, is a question |
| ContextAnalyzer.ListsDisjoint | modules/tts/domain/context_analyzer.py:14-22 | no word is in both lists |
| ContextAnalyzer.ExclamationWordOpens | modules/tts/domain/context_analyzer.py:41-42 | an unmarked text opening with an exclamation word, in any case, is an exclamation |
| ContextAnalyzer.OtherWordIsNarrative | modules/tts/domain/context_analyzer.py:37-44 | an unmarked text opening with any other word is narrative |
| ContextAnalyzer.NoWordIsPorQue | modules/tts/domain/context_analyzer.py:16-37 | no word of a split text contains a space, so none is "por qué" |
| ContextAnalyzer.FirstWordNeverPorQue | modules/tts/domain/context_analyzer.py:16-39 | the first word of any text is never "por qué", so that entry can never match |
| ContextAnalyzer.PorQueWords | modules/tts/domain/context_analyzer.py:14-22 | "por" and "qué" are single words and "por" is in neither list |
| ContextAnalyzer.PorQueIsNarrative | modules/tts/domain/context_analyzer.py:16-44 | as written, an unmarked text opening with "Por qué" is narrative, not a question |
| ContextAnalyzer.AnalyzeFixed | modules/tts/domain/context_analyzer.py:24-44 | the corrected analysis keeps the dialogue and pause guarantees |
| ContextAnalyzer.TwoOpeningWords | modules/tts/domain/context_analyzer.py:26-37 | the first two words of the cleaned text are the lower-cased first two words |
| ContextAnalyzer.PorQueAsksFixed | modules/tts/domain/context_analyzer.py:14-17 | corrected, an unmarked text opening with "Por qué" is a question |
| ContextAnalyzer.SpaceInQuestionWord | modules/tts/domain/context_analyzer.py:14-17 | the only listed question word with a space is "por qué", with its space at position 3 |
| ContextAnalyzer.OpensQuestionWords | modules/tts/domain/context_analyzer.py:14-40 | the corrected test accepts exactly a listed first word or the two words "por" "qué" |
| ContextAnalyzer.FixedOnlyAddsPorQue | modules/tts/domain/context_analyzer.py:24-44 | the correction changes the class of a text only for texts whose first two words are "por qué", and then to question |
| ContextAnalyzer.FixedDiffers | modules/tts/domain/context_analyzer.py:24-44 | the two readings agree except where the words decide |
| ContextAnalyzer.ByWordsDiffer | modules/tts/domain/context_analyzer.py:37-44 | on the words, the readings differ only where the corrected one finds "por qué" |
| ContextAnalyzer.Clean | modules/tts/domain/context_analyzer.py:26 | text.lower().strip(); MarkSurvives, CleanEndsWith and OpeningWord state what it keeps |
| TextUtil.LowerChar | modules/tts/domain/context_analyzer.py:26 | str.lower on one character: never upper case afterwards, cased exactly when the input is, and only upper-case letters change |
| TextUtil.UpperChar | modules/tts/domain/manifest_parser.py:112-118 | str.upper on one character: never lower case afterwards, cased exactly when the input is, and only lower-case letters change |
| TextUtil.Lower | modules/tts/domain/context_analyzer.py:26 | str.lower maps every character on its own and keeps the length |
| TextUtil.Upper | modules/tts/domain/manifest_parser.py:112-118 | str.upper maps every character on its own and keeps the length |
| TextUtil.LowerIdempotent | modules/tts/domain/context_analyzer.py:26 | lower-casing twice is lower-casing once |
| TextUtil.StripLower | modules/tts/domain/context_analyzer.py:26 | stripping and lower-casing commute |
| TextUtil.LStrip | modules/translator/domain/formatting.py:44 | str.lstrip removes exactly the leading whitespace |
| TextUtil.RStrip | modules/translator/domain/formatting.py:45 | str.rstrip removes exactly the trailing whitespace |
| TextUtil.Strip | modules/translator/domain/formatting.py:47 | str.strip leaves no whitespace at either end |
| TextUtil.Words | modules/translator/domain/formatting.py:64 | str.split() gives non-empty words without whitespace |
| TextUtil.WordsOfJoin | modules/translator/domain/formatting.py:97 | splitting words joined by spaces gives the words back |
| TextUtil.WordsOfStrip | modules/translator/domain/formatting.py:63-64 | stripping does not change the words |
| TextUtil.WordsReplaceNewlines | modules/translator/domain/formatting.py:63-64 | replacing newlines by spaces does not change the words |
| TextUtil.SplitOn | modules/tts/domain/text/roman_converter.py:32 | str.split on a character gives at least one piece, none containing it |
| TextUtil.JoinSplitOn | modules/tts/domain/text/roman_converter.py:32-62 | joining the pieces with the character gives the text back |
| TextUtil.SplitOnJoin | modules/tts/domain/text/roman_converter.py:32-62 | splitting pieces joined by a character they lack gives the pieces back |
| TextUtil.Find | modules/translator/domain/chunker.py:38-55 | str.find returns the first occurrence at or after the start, or -1 exactly when there is none |
| TextUtil.FindIsContains | modules/translator/domain/chunker.py:38-55 | find from 0 succeeds exactly when the text contains the pattern |
| TextUtil.PySlice | modules/translator/domain/context.py:19-20 | Python slicing with clamped bounds agrees with the plain slice when the bounds are in range |
| TextUtil.ReplaceFirst | modules/translator/domain/post_processor.py:55-59 | str.replace(old, new, 1) leaves a text without the pattern unchanged |
| TextUtil.ReplaceFirstInserts | modules/translator/domain/post_processor.py:55-59 | after replacing an occurring pattern, the replacement occurs |
| TextUtil.ReplaceAllAbsent | modules/tts/domain/core/enhanced_text_processor.py:65-67 | str.replace of a pattern that does not occur leaves the text unchanged |
| TextUtil.NatToString | modules/tts/domain/chapter_detector.py:20 | the decimal digits of a number: at least one, all digits, exactly one below 10 |
| TextUtil.NatToStringValue | modules/tts/domain/chapter_detector.py:20 | the digits spell the number |
| TextUtil.RoundHalfEvenClose | modules/tts/domain/text/pause_config.py:132 | Python's round of a quotient is within one half of it |
| TextUtil.WordsOfJoinSep | modules/tts/domain/text/pause_aware_chunker.py:39 | joining with whitespace keeps every word of every part, in order |
| SeqUtil.Filter | modules/tts/domain/core/enhanced_text_processor.py:111 | a filter keeps only elements of the input that pass the test |
| SeqUtil.FilterKeeps | modules/tts/domain/core/enhanced_text_processor.py:111 | every element that passes is kept |
| SeqUtil.FilterPartition | modules/grammar/domain/summary.py:49-58 | a test and its negation split a list into two parts that together hold every element once |

## Left out

- GrammarSummary.FixRate: Python computes the rate in binary floating point and rounds that value. The model divides exactly and rounds half to even. The two can differ at a tie: fixed=1 and total=20000 give 0.01 in Python (the float lies just above 0.005) and 0.0 here. GrammarSummary.FixRateBounds and GrammarSummary.RoundedShare are stated about the exact rate.
- LengthValidator.Validate: the length ratio, the band test and the score are exact reals, not floats. A ratio that rounds across 0.4 or 2.5 in floating point is not modelled.
- Formatting.LineQuota: `round(len(trans_words) * ratio)` is exact round-half-to-even of the rational product. A float product that lands just off a tie is not modelled.
- ValidationService.Combine: the weighted sum 0.4/0.6 is exact.
- PauseConfig.GetPauseSeconds: it gives the exact quotient, not the float.
- TextUtil.UpperChar: case mapping covers ASCII and Latin-1 only. 'ß'.upper() is "SS" in Python but stays 'ß' here. 'ÿ' (to U+0178) and 'µ' (to U+039C) are not mapped. Letters outside Latin-1 are uncased.
- TextUtil.Lower: only Latin-1 upper-case letters are lowered. ProperNames.IsSimilar("Ța", "ța") is therefore false here, while proper_name_protector.py:115-116 makes it true.
- TextUtil.IsWordChar: the `\w` class covers the Latin-1 letters, digits and numeric signs and '_'. Word characters beyond U+00FF are not in it.
- TextUtil.IsDigit: `\d` is ASCII '0'-'9'. Python also matches other Unicode decimal digits.
- CacheDeserializer.Restore: ids and timestamps are opaque strings. The failure of `UUID(...)` or `datetime.fromisoformat(...)` on a malformed string is not modelled. Only the language pair's checks can fail.
- ManifestParser.Parser.Parse: the lines of the file are a parameter. `_load_file` reads no file, and encoding errors and missing files are not modelled.
- LengthValidator.Validate, NumberValidator.Validate: issues are a datatype (empty original, suspicious ratio, missing numbers, extra numbers), not formatted strings. The float formatting of the ratio and the repr order of a Python set in the message are not modelled.
- NumberValidator.Numbers: the numbers found are a set of strings, as in the source. Their order matters only in the issue text, which is left out.
- Clocks and ids: `created_at`, `chunk_id`, `Translation.id`, `generate_version` and the summary timestamp are parameters.
- Versioning.VersionedFilename: paths are POSIX pure paths. The name is the text after the last '/', and the suffix starts at its last '.'. Windows separators are not modelled.
- GlossaryService.GlossaryService.UpdateFromChunk: the noun extractor (a regex over capitalised words) is left out. The nouns of the original and the translation are parameters, and the enumeration order of the noun sets is given by the caller.
- ProperNames.ExtractNames: the matches of NAME_PATTERNS are a parameter (the candidates, in match order). The known-name scan and the likelihood filter are modelled.
- TextCorrector.correct_file and TextCorrector.close: file I/O and the LanguageTool session. Only `_apply_corrections` is modelled.
- SummaryGenerator.save_summary: JSON file I/O.
- PauseConfig.print_config: console output.
- EnhancedTextProcessor.prepare_work_text: it calls the hyphenation resolver, the punctuation pauser, the Roman converter and the silence generator's file output. Only its four text steps are modelled.
- TextProcessor.NormalizeNewlinesMatches: it is stated for texts that do not already contain "<!PARAGRAPH!>". TextProcessor.MarkerBecomesBreak shows what happens to a text that does.
- TextProcessor.TitlePauseSplits: it is stated for a title and a body without '<', so that no other silence marker is present.
- TextProcessor.ChunkPart: the processor's chunker is the pause-aware chunker, with the length budget from the constructor (default 500) as a parameter. Its chunks are given as a function of the piece (TextProcessor.Chunker).
- CacheSerializer.Serialize: its own contract covers the glossary and `completed_at`. The chunk fields and the text are covered by CacheDeserializer.RoundTrip.
- ManifestParser.Work: the `text_content` and `chapters` fields of `Work` (modules/tts/domain/manifest.py:17-18) keep their defaults in the parser and are not modelled; nor are its `sanitized_title` and other properties.
- Exceptions are `Failure` results carrying the exception's message. Which exception class Python raises is not modelled.
- Concurrency, the ML translation models, audio and the Celery tasks are outside this core.

## Findings

| source | as written | input that shows it | evidently intended | confidence | as-written member | corrected member |
|---|---|---|---|---|---|---|
| modules/tts/domain/manifest_parser.py:53-58 | the "ÍNDICE" test runs before the "FIN DEL ÍNDICE" test, and the second contains the first, so the closing line only reopens the index and the scan never stops | an index "ÍNDICE", "$ A", "FIN DEL ÍNDICE", "$ B": B is read as an index entry too | stop reading at the closing line | high, not executed | ManifestParser.IndexRunsPastClosing (on ManifestParser.ExtractIndex) | ManifestParser.IndexFixedStopsAtClosing (on ManifestParser.ExtractIndexFixed) |
| modules/tts/domain/core/enhanced_text_processor.py:101 | `re.match(r'[1-9]\d*\.?\d*', part)` tests only a prefix of the part, so its first character decides: a text piece after a silence that starts with a digit 1-9 becomes a silence chunk | a title, the title pause and "1914 fue un año..." | only the captured durations (odd positions) become silences | high, not executed | TextProcessor.DigitTextTakenAsSilence (on TextProcessor.ChunkWithSilences) | TextProcessor.ChunksFixedSpoken (on TextProcessor.ChunkWithSilencesFixed) |
| modules/tts/domain/context_analyzer.py:16-39 | the question word "por qué" is compared with `words[0]`, one word of `split()`, which never contains a space | "Por qué lo hiciste" is narrative | a text opening with "por qué" is a question | high, not executed | ContextAnalyzer.PorQueIsNarrative, ContextAnalyzer.FirstWordNeverPorQue | ContextAnalyzer.PorQueAsksFixed, ContextAnalyzer.FixedOnlyAddsPorQue (on ContextAnalyzer.AnalyzeFixed) |
