# English reading practice: a Dafny model of the core

This project models the logic of an English reading-practice application in Dafny and proves
properties of it. The application asks a language model for an article and five questions built
from the learner's word bank. It asks the model again to grade the learner's answers and keeps a
log of every graded test. The model covers:

- the **language-model pipeline**: building the prompt pair, calling the backend, pulling a JSON
  value out of the reply, checking it against the expected shape, and retrying a bounded number
  of times (`core/content_generator.py`, `core/evaluator.py`);
- the **prompt builders** (`prompts/article_generation.py`, `prompts/evaluation.py`);
- the **word bank**: load and save, case-insensitive deduplication, adding words
  (`core/word_bank.py`);
- the **user profile**: the `key: value` info file and the user listing
  (`core/user_manager.py`);
- the **test logs**: which log files are read and in what order, the markdown display of one
  log, and the score history (`core/log_manager.py`).

Modules, one file each:

| module | file | what it holds |
|---|---|---|
| `Wrappers` | wrappers.dfy | `Option` and `Result`; `Raised` stands for a Python exception |
| `Sequences` | sequences.dfy | generic sequence facts: `Map`, `Flatten`, concatenation lemmas |
| `Text` | text.dfy | Python string helpers: `isspace`, `strip`, line splitting, `join`, `int()`/`str()` of integers |
| `JsonData` | json.dfy | the JSON value type; a dict is an ordered list of pairs in which the last binding of a key wins |
| `Ordering` | ordering.dfy | string order, a stable insertion sort with `reverse=`, distinct keys |
| `Backend` | backend.dfy | a prompt pair and a backend reply (text or a raised error) |
| `Extractor` | extractor.dfy | `parse_json_response`: the whole text, then a fenced block, then a brace span |
| `Retry` | retry.dfy | one attempt, and the bounded retry loop shared by both pipelines |
| `ArticlePrompt`, `EvaluationPrompt` | article_prompt.dfy, evaluation_prompt.dfy | the two prompt builders |
| `ContentGenerator`, `Evaluator` | content_generator.dfy, evaluator.dfy | the validators, the two pipelines, the saved log record |
| `WordBank`, `UserManager`, `LogManager` | word_bank.dfy, user_manager.dfy, log_manager.dfy | the file-backed stores, with file contents and directory listings as values |

How effects are modelled:

- `json.loads` is a parameter `parse: string -> Option<Json>`; `None` means a decoding error.
- The language-model backend is a sequence of replies, one per attempt. Each reply is either
  text or a raised error.
- A file is an `Option<string>`, where `None` means the file does not exist.
- A directory is a listing of entries. A log file's content is `None` when it cannot be read.
- Saving returns the text written.

One property of the source is worth stating on its own. `validate_evaluation_response` does
not look at the type of `overall_feedback` or `suggestions`, but `format_log_for_display` joins
both as strings. A graded test whose suggestions came back as a list is saved, yet its log
cannot be displayed (`LogManager.AcceptedButNotDisplayable`).

## Model

| member | source | states |
|---|---|---|
| `Extractor.ParseJsonResponse` | core/content_generator.py:55-84 | when the whole reply decodes, that value is returned unchanged, whatever its type; otherwise, when a fenced group exists, the result is the decoding of exactly that group's text; otherwise, when some `{` comes before some `}`, the result is the decoding of the span from the first `{` to the last `}`, whether or not that decoding succeeds; with no such span there is no value |
| `Extractor.FencedStage` | core/content_generator.py:75-77 | the decoding of exactly the fenced group's text, which starts with `{` and ends with `}` |
| `Extractor.BraceStage` | core/content_generator.py:80-84 | with a `{` before a `}`, the decoding of the span from the first `{` to the last `}`; with none, no value |
| `Extractor.SkipSpaces` | core/content_generator.py:75 | the greedy `\s*`: every skipped character is whitespace and the first one not skipped is not |
| `Extractor.OpenBrace` | core/content_generator.py:75 | after a fence at `s`, the optional `json` tag and whitespace lead to a `{`, and no `{` comes before it |
| `Extractor.FirstClose` | core/content_generator.py:75 | the lazy `.*?`: the first `}` from a position that is followed by optional whitespace and a closing fence, and none before it; `None` when no `}` closes |
| `Extractor.ClosesAtMeansSpacesThenFence` | core/content_generator.py:75 | a `}` followed by any run of whitespace and then three backticks closes the fenced group |
| `Extractor.FenceSearch` | core/content_generator.py:75 | the leftmost start at which the fenced pattern matches, with the shortest close for it; `None` exactly when no start matches |
| `Extractor.FencedGroup` | core/content_generator.py:75-76 | the captured group runs from a `{` to a `}`, and a group is found exactly when the fenced pattern matches somewhere |
| `Extractor.FirstIndexOf` | core/content_generator.py:80 | the first occurrence of a character, or `None` when it does not occur |
| `Extractor.LastIndexOf` | core/content_generator.py:80 | the last occurrence of a character, or `None` when it does not occur |
| `Extractor.BraceSearch` | core/content_generator.py:80-82 | the greedy `\{.*\}`: from the first `{` to the last `}`; `None` exactly when no `{` comes before a `}` |
| `Extractor.BraceSpan` | core/content_generator.py:80-82 | the span found starts with `{` and ends with `}` |
| `Extractor.FencedFailureIsFinal` | core/content_generator.py:75-77 | when the fenced group matches but does not decode, the whole extraction fails; there is no fall-back to the brace stage |
| `Extractor.NoBracesNoValue` | core/content_generator.py:80-84 | a reply that does not decode and has no `{` before a `}` yields no value |
| `Extractor.NoBacktickNoFence` | core/content_generator.py:75 | text without a backtick has no fenced group |
| `Extractor.FencedOpensAt` | core/content_generator.py:75 | in a block fenced as ```` ```json ```` the object opens right after the tag line |
| `Extractor.FencedClosesAt` | core/content_generator.py:75 | a fenced object without backticks closes at its own last `}` |
| `Extractor.FencedBlockFound` | core/content_generator.py:75-77 | the fenced group of such a block is exactly the object |
| `Extractor.BraceSpanFound` | core/content_generator.py:80-82 | an object with no `{` before it and no `}` after it is the brace span |
| `Extractor.FencedReplyDecoded` | core/content_generator.py:68-77 | a fenced object is decoded from its body |
| `Extractor.EmbeddedReplyDecoded` | core/content_generator.py:68-82 | an object embedded in prose without backticks or other braces is decoded from the brace span |
| `Extractor.WrappingDoesNotMatter` | core/content_generator.py:55-84 | the bare object, the fenced object and the object embedded in prose all give the same value |
| `Retry.Attempt` | core/content_generator.py:35-45 | an attempt succeeds exactly on a text reply whose extracted value passes the validator, and then returns that value; a raised backend error gives nothing |
| `Retry.RetryLoop` | core/content_generator.py:32-52 | the same prompt is sent on every attempt, at most `max(max_retries, 0)` times; the first passing value is returned; `None` only after every attempt failed |
| `ContentGenerator.RejectsShortArticleOrWrongCount` | core/content_generator.py:101-111 | an article shorter than 50 characters, a non-string article, a missing key, or a `questions` value that is not a list of exactly 5 is rejected |
| `ContentGenerator.ValidQuestion` | core/content_generator.py:113-130 | a question must be a dict with `type`, `question` and `correct_answer`; a `multiple_choice` question needs an `options` list of length 4; any other type must be `fill_blank` or `true_false`. The encoded forms it accepts are stated by `EncodedQuestionValid` |
| `ContentGenerator.ValidArticle` | core/content_generator.py:87-132 | the reply must be a dict whose `article` is a string of at least 50 characters and whose `questions` is a list of exactly 5 valid questions. `EncodedArticleValidIff` gives the exact set of encoded articles it accepts |
| `ContentGenerator.EncodedQuestionValid` | core/content_generator.py:113-130 | an encoded question is accepted exactly when a multiple choice question has 4 options |
| `ContentGenerator.EncodedChoiceQuestion` | core/content_generator.py:123-127 | a multiple choice question is accepted exactly when its options list has length 4 |
| `ContentGenerator.EncodedOpenQuestion` | core/content_generator.py:129-130 | fill-in-the-blank and true/false questions are always accepted; the correct answer is not checked |
| `ContentGenerator.EncodedArticleValidIff` | core/content_generator.py:97-132 | an encoded article is accepted exactly when the article has at least 50 characters, there are 5 questions and each choice question has 4 options; the mix of question types is not checked |
| `ContentGenerator.GenerateArticleAndQuestions` | core/content_generator.py:12-52 | the article prompt is built once and sent on every attempt; the result passes `validate_article_response`; `None` only after all attempts failed |
| `Evaluator.EncodedEvaluationValidIff` | core/evaluator.py:56-81 | an encoded evaluation is accepted exactly when its score is numeric (a boolean counts) and lies in 0..100, both ends included |
| `Evaluator.ValidEvaluation` | core/evaluator.py:56-81 | the reply must be a dict with all four keys, a numeric `score` (booleans count) in 0..100 and a list `item_analysis`; feedback and suggestions may be of any type. `EncodedEvaluationValidIff` states the accepted encodings |
| `Evaluator.ScoreEdgeCases` | core/evaluator.py:74-75 | scores `true`, `0` and `100.0` pass; `101` and the string `"90"` fail |
| `Evaluator.EvaluateAnswers` | core/evaluator.py:14-53 | the evaluation prompt is built once and sent on every attempt; the result passes `validate_evaluation_response`; `None` only after all attempts failed |
| `Evaluator.AnswerList` | core/evaluator.py:118 | the answers as the JSON list stored under `user_answers`, one string per answer in order; `TestLogRecordFields` states that the record stores this list, and `LogManager.RecordGet` that the display reads it back as the answers |
| `Evaluator.TestLogRecord` | core/evaluator.py:114-123 | the record holds exactly the eight keys, in the written order |
| `Evaluator.LogFieldLookup` | core/evaluator.py:114-123 | looking up one of the record's keys finds the value stored under it |
| `Evaluator.TestLogRecordFields` | core/evaluator.py:114-123 | the record copies the timestamp, article, questions and answers from the arguments, and score, item analysis, overall feedback and suggestions verbatim from the evaluation |
| `ArticlePrompt.Build` | prompts/article_generation.py:20-32 | the system prompt is the fixed text; the age, the Lexile level and the word display all appear in the user prompt |
| `ArticlePrompt.WordsDisplay` | prompts/article_generation.py:22-24 | the first 50 words joined by `", "`, then `(and k more words)` when there are more; its properties are `ShownWordsDisplayed`, `FewWordsAllShown` and `HiddenWordsCounted` |
| `ArticlePrompt.BuildInjective` | prompts/article_generation.py:20-32 | two equal prompts come from the same age, the same Lexile level and the same word display: each value can be read back from its own place in the template |
| `ArticlePrompt.ShownWordsDisplayed` | prompts/article_generation.py:22 | each of the first 50 words appears in the word display |
| `ArticlePrompt.ShownWordsAppear` | prompts/article_generation.py:22-32 | each of the first 50 words appears in the user prompt |
| `ArticlePrompt.HiddenWordsCounted` | prompts/article_generation.py:23-24 | with more than 50 words, the note `(and k more words)` with `k = n - 50` appears in the user prompt |
| `ArticlePrompt.FewWordsAllShown` | prompts/article_generation.py:22-24 | with at most 50 words, the display is all of them joined by `", "`, with no note |
| `ArticlePrompt.OnlyShownWordsMatter` | prompts/article_generation.py:22-24 | two word banks of the same size that agree on their first 50 words give the same prompt |
| `ArticlePrompt.SystemPromptFixed` | prompts/article_generation.py:20 | the system prompt does not depend on any input |
| `EvaluationPrompt.Build` | prompts/evaluation.py:19-34 | the system prompt is the fixed text and the blocks joined by newlines appear in the user prompt |
| `EvaluationPrompt.Block` | prompts/evaluation.py:24-28 | the block for one pair: number, type, question, correct answer and student answer in the template's order; what it shows is stated by `PairedByPosition` |
| `EvaluationPrompt.Blocks` | prompts/evaluation.py:23-28 | one block per position of `zip(questions, user_answers)`, numbered from `first`, which the prompt passes as 1; `PairedByPosition` states that block `i + 1` pairs question `i` with answer `i`, and `ExtraItemsIgnored` that items past the shorter list are dropped |
| `EvaluationPrompt.PairedByPosition` | prompts/evaluation.py:23-34 | block `i + 1` is in the user prompt and shows question `i`'s type, question and correct answer next to answer `i` |
| `EvaluationPrompt.ExtraItemsIgnored` | prompts/evaluation.py:23 | questions or answers beyond the shorter list do not change the prompt |
| `WordBank.KeysAppend` | core/word_bank.py:91-98 | appending a word adds its lower-case form to the set of keys |
| `WordBank.KeyIn` | core/word_bank.py:91 | every word's lower-case form is among the keys |
| `WordBank.KeyWitness` | core/word_bank.py:91 | every key is the lower-case form of some word |
| `WordBank.LoadWords` | core/word_bank.py:10-28 | a missing file gives no words; every loaded word is stripped, non-blank and on one line |
| `WordBank.Clean` | core/word_bank.py:26 | each entry stripped, blank ones dropped, order kept; stated by `CleanIsTidy`, `CleanCountsNonBlank` and `CleanOfTidy` |
| `WordBank.SaveWords` | core/word_bank.py:44-47 | each non-blank word, stripped, followed by a newline; `SaveLoadRoundTrip` states what loading it gives back |
| `WordBank.CleanIsTidy` | core/word_bank.py:26 | the kept words are stripped and non-blank |
| `WordBank.CleanKeepsLineFree` | core/word_bank.py:44-47 | stripping keeps words free of line breaks |
| `WordBank.CleanOfTidy` | core/word_bank.py:26 | a list of stripped non-blank words is kept as it is |
| `WordBank.SaveLoadRoundTrip` | core/word_bank.py:10-47 | loading what was saved gives the stripped non-blank words, in order, when no word holds a line break |
| `WordBank.StoredRoundTrip` | core/word_bank.py:10-47 | a list as loaded comes back unchanged after saving and loading again |
| `WordBank.CleanCountsNonBlank` | core/word_bank.py:26 | the kept words are exactly as many as the non-blank ones |
| `WordBank.WordCount` | core/word_bank.py:106-116 | the length of the loaded list; `SavedWordCount` states its value after a save |
| `WordBank.SavedWordCount` | core/word_bank.py:106-116 | after saving, the word count is the number of non-blank words saved |
| `WordBank.Dedupe` | core/word_bank.py:65-72 | the result is the subsequence of the input made of the first word with each lower-case key, in input order, in its own spelling: it keeps every key and repeats none |
| `WordBank.DedupeExample` | core/word_bank.py:65-72 | `["Cat", "cat", "dog"]` deduplicates to `["Cat", "dog"]` |
| `WordBank.LaterSpellingDropped` | core/word_bank.py:68-72 | of two spellings of one word the first is kept and the second dropped, and a different word after them stays |
| `WordBank.DedupeKeepsFirst` | core/word_bank.py:68-72 | the first word with a given lower-case form is kept, in its own spelling |
| `WordBank.DedupeOfDistinct` | core/word_bank.py:65-72 | a list without repeated keys is unchanged |
| `WordBank.KeepFirstSpellings` | core/word_bank.py:66-72 | the loop with the `seen` set computes the deduplicated list |
| `WordBank.DeduplicateWords` | core/word_bank.py:52-76 | the deduplicated list is saved, and the number removed is the difference in length, never negative |
| `WordBank.DedupeIdempotent` | core/word_bank.py:52-76 | deduplicating a second time, after saving and loading, changes nothing |
| `WordBank.AddAllKeepsExisting` | core/word_bank.py:90-99 | the existing words are a prefix of the result, so none are removed or deduplicated |
| `WordBank.AddAllAppendsTidy` | core/word_bank.py:95-97 | every appended word is stripped and non-empty |
| `WordBank.AddAllAppendsFresh` | core/word_bank.py:96-98 | no appended word shares a lower-case form with any word before it |
| `WordBank.AddAllKeys` | core/word_bank.py:90-99 | the keys afterwards are the existing keys plus those of the stripped non-blank new words |
| `WordBank.AddOne` | core/word_bank.py:95-98 | one turn of the `add_words` loop: the stripped word is appended when it is not blank and its key is new |
| `WordBank.AddAll` | core/word_bank.py:94-99 | the loop over all new words in order; stated by `AddAllKeepsExisting`, `AddAllAppendsFresh`, `AddAllKeys` and `AddAllIsDedupe` |
| `WordBank.DedupeOfDedupedPrefix` | core/word_bank.py:66-72 | deduplicating a deduplicated prefix first changes nothing |
| `WordBank.AddAllIsDedupe` | core/word_bank.py:90-99 | on a list without repeated keys, adding words is deduplicating the list followed by the stripped new words |
| `WordBank.AppendNewWords` | core/word_bank.py:90-99 | the loop computes the added list; the count is the number of words appended |
| `WordBank.AddWords` | core/word_bank.py:79-103 | the extended list is saved and the count returned is the number of words appended |
| `WordBank.AddAgainIsNoop` | core/word_bank.py:94-99 | adding words whose keys are all present changes nothing |
| `WordBank.AddKeepsDistinct` | core/word_bank.py:90-99 | adding keeps keys distinct, and adding the same words twice is the same as adding them once |
| `UserManager.FirstColon` | core/user_manager.py:72-73 | the first `:` of a line, or `None` exactly when there is none |
| `UserManager.Field` | core/user_manager.py:71-75 | the stripped line split at its first `:` into a stripped key and value, or nothing for a line without `:`; `FieldOfWritten` states it on written lines |
| `UserManager.Classify` | core/user_manager.py:76-79 | an `age` or `lexile_level` key takes `int(value)`; any other line is skipped; `AgeLineRead`, `LexileLineRead` and `BlankLineSkipped` state it on the saver's lines |
| `UserManager.Apply` | core/user_manager.py:76-79 | an `age` or `lexile_level` line sets that field and nothing else; `int()` failing raises; any other line changes nothing |
| `UserManager.Run` | core/user_manager.py:70-79 | the reading loop: settings applied in file order, the first `ValueError` escaping; stated by `RunAppend`, `SkippedLines`, `SetKeysStay` and `NothingSetIff` |
| `UserManager.LoadUserInfo` | core/user_manager.py:52-81 | a missing info file gives no info |
| `UserManager.RunAppend` | core/user_manager.py:70-79 | reading lines `a` then `b` is reading `a`, then reading `b` from the state it left, and an error in `a` stops the read |
| `UserManager.SkippedLines` | core/user_manager.py:72-79 | lines that set no key leave the info unchanged |
| `UserManager.SetKeysStay` | core/user_manager.py:76-81 | once a key is set, later lines cannot empty the info |
| `UserManager.NothingSetIff` | core/user_manager.py:81 | the info is empty after reading exactly when no line set a key |
| `UserManager.NoInfoIff` | core/user_manager.py:68-81 | a readable file gives no info exactly when none of its lines has an `age` or `lexile_level` key |
| `UserManager.FieldOfWritten` | core/user_manager.py:72-75 | a line `key: n` splits into `key` and the digits of `n` |
| `UserManager.WrittenTidy` | core/user_manager.py:71 | stripping a written line leaves it unchanged |
| `UserManager.ColonAfterKey` | core/user_manager.py:73 | in a line that starts with a key without colons followed by `:`, the split falls right after the key |
| `UserManager.WrittenOneLine` | core/user_manager.py:104-105 | a written line has no line break |
| `UserManager.SaveUserInfo` | core/user_manager.py:103-105 | the text written: the age line and the Lexile line, each ended by a newline; `SaveLoadRoundTrip` states what loading it gives back |
| `UserManager.AgeLineRead` | core/user_manager.py:76-77 | the written age line sets the age to the written value |
| `UserManager.LexileLineRead` | core/user_manager.py:78-79 | the written Lexile line sets the Lexile level to the written value |
| `UserManager.BlankLineSkipped` | core/user_manager.py:72 | an empty line sets nothing |
| `UserManager.SavedLines` | core/user_manager.py:103-105 | the saved file splits into the age line, the Lexile line and an empty remainder |
| `UserManager.SavedSettings` | core/user_manager.py:70-79 | the saved lines read as: set the age, set the Lexile level, skip |
| `UserManager.RunSaved` | core/user_manager.py:76-81 | reading those settings gives exactly the saved age and Lexile level |
| `UserManager.SaveLoadRoundTrip` | core/user_manager.py:52-107 | loading the saved file gives back exactly the saved age and Lexile level |
| `UserManager.AppendedLines` | core/user_manager.py:70 | appending a written line adds that line and an empty remainder to the file's lines |
| `UserManager.AppendedSettings` | core/user_manager.py:70-79 | an appended written line adds its own setting and one skip |
| `UserManager.RunAgeTail` | core/user_manager.py:76-77 | reading an age setting overrides the age and keeps the Lexile level |
| `UserManager.RunLexileTail` | core/user_manager.py:78-79 | reading a Lexile setting overrides the Lexile level and keeps the age |
| `UserManager.LaterLexileWins` | core/user_manager.py:76-79 | a `lexile_level` line appended to a readable file overrides any earlier Lexile level and keeps the rest |
| `UserManager.LaterAgeWins` | core/user_manager.py:76-79 | an `age` line appended to a readable file overrides any earlier age and keeps the rest |
| `UserManager.Directories` | core/user_manager.py:21 | a name is listed exactly when some directory entry has it |
| `UserManager.ListUsers` | core/user_manager.py:11-22 | no users without a users directory; otherwise the directory names, each as often as it occurs, sorted ascending |
| `UserManager.ListedIff` | core/user_manager.py:21-22 | a name is listed exactly when it names a directory |
| `UserManager.ListedOnce` | core/user_manager.py:21-22 | with distinct entry names, no user is listed twice |
| `UserManager.DirectoriesDistinct` | core/user_manager.py:21 | with distinct entry names, the directory names are distinct |
| `LogManager.LogFiles` | core/log_manager.py:35 | the glob `test_*.json` keeps exactly the files whose names start with `test_` and end with `.json` |
| `LogManager.Sources` | core/log_manager.py:30-35 | every file the scan reads is a matching file of a directory entry |
| `LogManager.DateSourcesFrom` | core/log_manager.py:35 | the files of one date are that date's matching files |
| `LogManager.Candidates` | core/log_manager.py:30-35 | the files the scan tries, date entries by name descending, then each date's matching files by name descending; stated by `CandidatesAreLogFiles`, `EveryLogFileConsidered` and `CandidatesNewestFirst` |
| `LogManager.ReadLog` | core/log_manager.py:36-43 | a file that reads and decodes to a dict is returned with `file_path` set to its path; anything that raises skips it |
| `LogManager.ReadAll` | core/log_manager.py:35-43 | no more records than files; every record is a dict with `file_path` |
| `LogManager.UserLogs` | core/log_manager.py:12-45 | a missing log directory gives no logs; every log is a dict with `file_path` |
| `LogManager.CandidatesAreLogFiles` | core/log_manager.py:30-35 | every file read is a matching file of a date directory of the listing |
| `LogManager.EveryLogFileConsidered` | core/log_manager.py:30-35 | every matching file of every date directory is read |
| `LogManager.SourcesHave` | core/log_manager.py:30-35 | the outer loop reaches every matching file of every directory it visits |
| `LogManager.DateSourcesNewestFirst` | core/log_manager.py:35 | within a date, files come in descending name order |
| `LogManager.SourcesNewestFirst` | core/log_manager.py:30-35 | date directories in descending order with distinct names give files newest first |
| `LogManager.AppendNewestFirst` | core/log_manager.py:30-35 | two newest-first runs, the first entirely newer, join into one |
| `LogManager.CandidatesNewestFirst` | core/log_manager.py:30-35 | the scan reads dates newest first, and within a date file names newest first |
| `LogManager.ReadAllAppend` | core/log_manager.py:30-43 | reading two runs of files is reading each in turn |
| `LogManager.UnreadableSkipped` | core/log_manager.py:41-43 | a file that cannot be read or decoded is skipped and the scan continues |
| `LogManager.AllReadable` | core/log_manager.py:36-40 | when every file reads, there is one record per file, in scan order |
| `LogManager.ParsedObjectRead` | core/log_manager.py:38-39 | a file decoding to a dict is read back with every other key unchanged |
| `LogManager.SavedRecordReadBack` | core/log_manager.py:36-40 | a record written by `save_test_log` reads back with its timestamp, its score and its path |
| `LogManager.ScoreHistory` | core/log_manager.py:114-120 | one `(timestamp, score)` pair per log, in order, with defaults `''` and `0` |
| `LogManager.UserScoreHistory` | core/log_manager.py:102-120 | one entry per log; none without a log directory |
| `LogManager.SavedScoreInHistory` | core/log_manager.py:112-120 | a saved test's timestamp and score appear in the history as written |
| `JsonData.DictKeys` | core/log_manager.py:71 | iterating a dict yields exactly its keys, each once |
| `LogManager.Chars` | core/log_manager.py:71 | iterating a string yields its characters, in order |
| `LogManager.Iterate` | core/log_manager.py:71 | a list iterates over its items; only lists, strings and dicts are iterable |
| `LogManager.VerdictAt` | core/log_manager.py:85-91 | with an analysis list, an entry exists exactly when `i - 1 < len(item_analysis)`; feedback is kept exactly when the entry has a `feedback` key; a non-dict entry raises |
| `LogManager.SectionOf` | core/log_manager.py:71-91 | a section is numbered from 1 and lists options exactly when the question is multiple choice and has `options`; with an analysis list it has a verdict exactly when the list has that entry |
| `LogManager.Sections` | core/log_manager.py:71 | exactly `min(len(questions), len(user_answers))` sections, section `k` built from question `k` and answer `k` |
| `LogManager.Render` | core/log_manager.py:72-91 | a section's lines start with its `### Question n` heading; the other lines are stated by `OptionsShownIff` and `VerdictShownIff` |
| `LogManager.RenderMarks` | core/log_manager.py:72-91 | an options, result or feedback line is only rendered for a section that has options, a verdict or feedback |
| `LogManager.OptionsPartMarked` | core/log_manager.py:77-79 | the options lines are only rendered when there are options |
| `LogManager.VerdictPartMarked` | core/log_manager.py:85-91 | the result and feedback lines are only rendered with a verdict and with feedback |
| `LogManager.OptionsShownIff` | core/log_manager.py:76-79 | the `**Options:**` line is shown exactly when options are listed, with every option on its own line |
| `LogManager.VerdictShownIff` | core/log_manager.py:84-91 | a result line is shown exactly when there is a verdict, stating correct or incorrect; a feedback line exactly when the verdict has feedback |
| `LogManager.ShownResultMarked` | core/log_manager.py:85-89 | a shown result line implies that the section has a verdict |
| `LogManager.ShownFeedbackMarked` | core/log_manager.py:90-91 | a shown feedback line implies a verdict with feedback |
| `LogManager.SectionShownAsAnalysed` | core/log_manager.py:71-91 | question `i` lists options exactly when it is multiple choice with `options`, shows a result exactly when `item_analysis` has entry `i`, and shows feedback exactly when that entry has `feedback` |
| `LogManager.DisplayLines` | core/log_manager.py:58-97 | a display is only produced for a dict whose questions and answers are iterable; `Displayed` gives the converse (string texts, iterable lists and a section per pair are enough), and `DisplayStartsWithHeader` that the lines open with the five header lines |
| `LogManager.FormatLog` | core/log_manager.py:48-99 | the displayed text is the display lines joined by newlines, produced exactly when no step raises. What it shows is stated by `SavedLogDisplays` and `ArticleShown` (the article), `SectionHeadingsShown` (a heading per question and answer pair), and `AcceptedButNotDisplayable` (a non-string `suggestions` makes the join raise) |
| `LogManager.TextOr` | core/log_manager.py:93-97 | the value `log_data.get(key, 'N/A')` for the article, the overall feedback and the suggestions, when it is a string; `"\n".join` raises on anything else |
| `LogManager.Header` | core/log_manager.py:60-66 | the five lines above the sections: title with timestamp, score, article heading, article, questions heading |
| `LogManager.Footer` | core/log_manager.py:93-97 | the four lines below the sections: overall feedback heading and text, suggestions heading and text |
| `LogManager.ArticleShown` | core/log_manager.py:63-64 | a displayed log shows its article |
| `LogManager.SectionsDefined` | core/log_manager.py:71-91 | the sections exist when each paired question yields one |
| `LogManager.SavedLogDisplays` | core/log_manager.py:48-99 | a log written by `save_test_log` is displayed, article included, when its questions are dicts with iterable options, every `item_analysis` entry is a dict, and the overall feedback and suggestions are strings |
| `LogManager.AcceptedButNotDisplayable` | core/log_manager.py:96-99 | an evaluation that `validate_evaluation_response` accepts but whose `suggestions` is not a string gives a log that `format_log_for_display` cannot display, because `"\n".join` raises |
| `LogManager.RenderAllHasHeadings` | core/log_manager.py:71-72 | every section's heading is among the rendered lines |
| `LogManager.SectionHeadingsShown` | core/log_manager.py:71-72 | for every `k < min(len(questions), len(user_answers))`, the heading `### Question k+1` is in the formatted display |

## Left out

- The Gradio user interface in `app.py` is not part of this model, with its session state and
  the fewer-than-five-words guard, which lives only in the interface handler.
- `core/ai_client.py` is not part of this model. The provider classes and the API-key file become
  the backend's sequence of replies.
- The config file is not part of this model. Its paths only name directories and files.
- `json.loads` is a parameter, not a parser. The JSON grammar, `NaN`/`Infinity`, and decoding
  errors beyond "no value" are not modelled.
- Floating-point numbers are `real`. A score is only compared, never computed with.
  `JsonData.FloatText` prints a minus sign for a negative float, then the integer part of its
  magnitude, then `.0` for an integral value. Python differs in
  two places: it uses exponent notation from 1e16 on (`1e+16`), and it prints negative zero as
  `-0.0`, which a `real` cannot hold. A float with digits after the point prints as a fixed
  placeholder, because Python's shortest-repr algorithm is not modelled.
- `JsonData.Show` stands for `str()`/f-string formatting. It is exact for strings, integers,
  booleans and `None`. A dict shows each key once, where it was first bound, with the value it
  was last bound to, as the dict `json.loads` builds does. Strings inside containers are always
  shown in single quotes without escaping; Python picks the quote character and escapes.
- `Text.Lower` lower-cases ASCII letters only; Python's `str.lower` is Unicode-aware.
- `Text.ParseInt` reads a stripped string: an optional sign, then ASCII digits with single `_`
  separators between them. Python's `int()` also accepts other Unicode decimal digits.
- Line splitting follows universal newlines on `\n` and `\r` and yields one more, empty, last
  piece than file iteration. Every reader here strips lines and skips blank ones, so the results
  agree.
- The glob for log files is matched on names in one directory. Paths in one directory sort as
  their names sort.
- Timestamps from `datetime.now()` are arguments, the `print` diagnostics are dropped, and the
  file system is values: directories are created implicitly and writes always succeed.
- `create_user`, `get_user_dir` and `user_exists` in `core/user_manager.py` only create or test
  paths. `save_user_info`'s call to `create_user` is not modelled either.
- The fixed instruction text of both prompt templates is a short constant standing for the whole
  template; only the variable parts are modelled exactly.
- `LogManager.CandidatesNewestFirst` needs distinct date-directory names, which always holds of a
  real directory listing.
