# ZBSchools macro: a verified model of answer resolution and bookkeeping

ZBSchools-Macro solves the reading quizzes of zbschools.sg. Two scripts do it:

- `main.py` uses a thread pool.
- `fast.py` is an older variant with one thread per block of IDs.

For each article ID, both scripts do the same steps:

1. Clean the passage text.
2. Answer each question. A title with a blank (`___`) is answered from the text around the blank in the passage. Any other title is answered with the pinyin of its underlined keyword.
3. Map the answer to an option letter A to D.
4. Submit, and read the score back.

Both scripts also keep a checkpoint of the last article ID in `config.json`:

- `main.py` advances its `lastProcessedArticleID` with max semantics and counts the solved articles and the points.
- `fast.py` overwrites its `lastSolvedArticleID` before every article. Its `main` splits the IDs from the checkpoint on into one contiguous block per thread.

The Dafny project models that logic. Page contents and random draws are inputs:

- Each page is a `Resolve.Page`. It holds the passage sentences, the questions with their option texts and keyword readings, and the score text shown after submitting.
- The random draws are a `Resolve.Draw` per question.

The modules:

- `wrappers.dfy`: `Option` and `Result`.
- `text.dfy` (`Text`): the Python string operations the scripts use.
  - `str.replace` of one character.
  - Clamped slicing.
  - `str.strip`, with Python's white-space set.
  - `' '.join`, with `split` as its inverse.
  - `int(...)` on decimal text.
- `normalize.dfy` (`Normalize`): the `clean` loop, with the symbol list as a parameter.
- `ranges.dfy` (`Ranges`): `range(start, start + n)` over article IDs.
- `resolve.dfy` (`Resolve`): the question loop of `solve_article`, shared by both scripts.
  - Splitting a title at its blank.
  - The anchors.
  - The leftmost literal window search.
  - Pinyin joining and respelling.
  - Option choice, the letter, and score parsing.
  - The loop over a question set, which stops at the first exception.
- `main_macro.dfy` (`MainMacro`): `main.py`.
  - Its `clean`: newline, tab, space and 25 punctuation marks.
  - `solve_article` as a method of the class `Macro`. The class holds `CONFIG` and the two global counters.
  - The session over `last + 1 .. last + articlesPerSession`.
  - A worked example of a fill-in-the-blank question.
- `fast_macro.dfy` (`FastMacro`): `fast.py`.
  - Its `clean`: newline, tab, space and 20 punctuation marks.
  - `solve_article` returning the points or the exception that escapes it.
  - `start_thread` as a method of its `Macro` class.
  - The thread plan built by `main`, with the partition proved to cover the IDs exactly.
  - Lemmas relating both scripts.

Faults stand for Python exceptions (`Resolve.Fault`):

- In `main.py` they end as `MainMacro.Suppressed`, because the `suppress_exception` decorator catches them.
- In `fast.py` they come back as `Failure` from `FastMacro.SolveArticle`. `start_thread` catches them and moves on to the next ID.

Behaviour of the code worth knowing:

- The lookup of an answer among the options is exact only. No suffix-tolerant match exists.
- A window search that finds several matches takes the leftmost one. The code has no check for ambiguity.
- Empty anchors are searched like any other anchor, and are not treated as "no match".
- When no window matches, the fallback is `random.choice(mcq)`, an option text. The random index `randint(0, 3)` is used only when the answer text is not an option.
- Resolution can raise:
  - `mcq[0]` on an empty option list;
  - a missing `<u>` keyword;
  - `MCQ_CHOICE[choice]` with a first matching option at index 4 or later.
  `main.py` suppresses such an article, and it counts as neither solved nor scored. In `fast.py` the exception escapes `solve_article`.
- In `main.py` a missing score element suppresses the article and adds nothing to the counters. In `fast.py` it gives 0.
- `fast.py` overwrites its checkpoint with each ID (last write wins). It never updates `ARTICLES_SOLVED` or `TOTAL_SCORE_GAINED`, and discards the return value of `solve_article`.
- `fast.py`'s first thread starts at the checkpoint itself, not at the ID after it. The T threads cover `[L, L + T * n)`.

## Model

| member | source | states |
|---|---|---|
| Text.Filter | main.py:151-153 | removing characters never makes the text longer |
| Text.FilterMembers | main.py:149-153 | a character occurs in the cleaned text exactly when it occurs in the text and is not a removed symbol |
| Text.KeptLength | main.py:151-153 | one kept position per character of the cleaned text |
| Text.KeptIncreasing | main.py:151-153 | the kept positions are in range, hold characters that are not removed, and strictly increase |
| Text.KeptComplete | main.py:151-153 | every position whose character is not a removed symbol is kept |
| Text.KeptReads | main.py:151-153 | the cleaned text reads the characters at the kept positions, in order |
| Text.FilterKeepsOrder | main.py:149-153 | every character that is not a symbol survives in its original order, and nothing else does |
| Text.FilterCons | main.py:151-153 | the first character is kept unless it is a removed symbol, and the rest is cleaned on its own |
| Text.FilterAppend | main.py:196-197 | cleaning joined fragments is joining the cleaned fragments |
| Text.FilterTwice | main.py:151-152 | removing one list and then another is removing both lists |
| Text.FilterSameMembers | main.py:150-151 | only the members of the symbol list matter, not their order or repetition |
| Text.FilterIdempotent | main.py:150-153 | cleaning twice is cleaning once |
| Text.FilterKeepsClean | main.py:151-153 | a text without symbols is left unchanged |
| Text.ReplaceChar | main.py:152 | `str.replace(c, t)` keeps every other character and brings in only the characters of `t` |
| Text.ReplaceByEmpty | main.py:152 | `text.replace(symbol, '')` is removing that one symbol |
| Text.ReplaceAppend | main.py:230 | replacement commutes with concatenation |
| Text.ReplaceAbsent | main.py:230 | replacing a character that does not occur changes nothing |
| Text.TakeFirst | main.py:214 | `s[:3]` is the first `min(3, len(s))` characters |
| Text.TakeLast | main.py:213 | `s[-3:]` is the last `min(3, len(s))` characters |
| Text.TrimLeft | main.py:223 | dropping leading white space never lengthens the text |
| Text.TrimLeftMeaning | main.py:223 | the dropped front holds only white space, and what is left does not start with white space |
| Text.TrimRight | main.py:223 | dropping trailing white space never lengthens the text |
| Text.TrimRightMeaning | main.py:223 | the dropped back holds only white space, and what is left does not end with white space |
| Text.Strip | main.py:223 | `strip()` as dropping the leading and then the trailing white space; what that keeps is stated by `Text.StripMeaning` |
| Text.StripMeaning | main.py:223 | `strip()` gives the infix with only white space around it, and neither of its ends is white space |
| Text.StripUnpadded | main.py:223 | a text with no white space at either end strips to itself |
| Text.StripIdempotent | main.py:223 | stripping twice is stripping once |
| Text.FirstIndex | main.py:212 | the first occurrence of a character: it is there, and not before |
| Text.FirstIndexAfter | main.py:212 | in a text whose first part lacks the character, its first occurrence follows that part |
| Text.Concat | main.py:196 | `''.join(texts)`: the texts one after another |
| Text.Join | main.py:228 | `' '.join(parts)`: the parts with one separator between neighbours and none at the ends; `Text.SplitJoin` and `Text.JoinSplit` relate it to `split` |
| Text.SplitOn | main.py:228 | the inverse of the space join: at least one piece, and no piece holds the separator |
| Text.SplitJoin | main.py:228 | splitting a joined list of parts without the separator gives the parts back |
| Text.JoinSplit | main.py:228 | joining the pieces of a split gives the text back |
| Text.ShowNat | main.py:246 | decimal digits without a leading zero, as the score is shown |
| Text.ShowNatValue | main.py:246 | the digits of `n` have the value `n` |
| Text.ParseDigits | main.py:246 | `int` of unsigned digits is their value |
| Text.ParseInt | main.py:246 | `int(s)`: white space around, an optional `-` or `+`, then one or more ASCII digits give their signed value; any other text is `ValueError` (`None`) |
| Text.ParseSigned | main.py:246 | `int` of stripped text made of a minus sign and digits is the negated value |
| Text.ParseNegative | main.py:246 | `int` of a minus sign followed by digits is the negated value |
| Text.ParseShowInt | main.py:246 | `int(str(n)) == n` for every integer |
| Normalize.CleanWith | main.py:151-153 | the replace loop over the symbol list gives the text with exactly those characters removed |
| Ranges.IdRange | main.py:274 | `range(start, start + n)` holds `max(n, 0)` IDs, the `k`-th being `start + k` |
| Ranges.IdRangeMembers | main.py:274 | an ID is in the range exactly when `start <= id < start + n`, and the IDs strictly increase |
| Ranges.IdRangeSplit | fast.py:247-251 | a range of `a + b` IDs is its first `a` IDs followed by the next `b` |
| Resolve.RunEnd | main.py:212 | `_+` takes the maximal run of underscores |
| Resolve.RunEndAt | main.py:212 | a run of underscores ending before a non-underscore ends there |
| Resolve.SplitAtBlank | main.py:212 | the prefix has no underscore, only underscores lie between prefix and suffix, and the suffix does not start with one |
| Resolve.SplitAtBlankUnique | main.py:212 | text without `_`, then a run of underscores, then text not starting with `_` splits back into that text before and after |
| Resolve.PrefixAnchor | main.py:213 | the prefix anchor is the last `min(3, n)` characters of the cleaned prefix, and none of them is a symbol |
| Resolve.SuffixAnchor | main.py:214 | the suffix anchor is the first `min(3, n)` characters of the cleaned suffix, and none of them is a symbol |
| Resolve.BlankPattern | main.py:212-216 | the pattern `{prefix}(.{len}){suffix}` built from the anchors around the first run of underscores |
| Resolve.MatchAt | main.py:216 | the pattern matches at `i`: the prefix at `i`, any `width` characters, then the suffix |
| Resolve.Captured | main.py:223 | `match.group(1)`: the `width` characters between the prefix and the suffix |
| Resolve.SearchFrom | main.py:216 | a found position matches and no earlier one does; when nothing is found, no position matches |
| Resolve.Search | main.py:216 | `re.search`: the search from position 0, so by `Resolve.SearchFrom` the leftmost match |
| Resolve.FillBlankAnswer | main.py:212-223 | the stripped window of the leftmost match, or the option drawn by `random.choice(mcq)` when nothing matches |
| Resolve.FillBlankLeftmost | main.py:215-223 | with a leftmost match at `i`, the answer is the stripped window of `len(mcq[0])` characters at `i` |
| Resolve.FillBlankFallback | main.py:218-221 | with no match anywhere, the answer is the drawn option, so it is one of the options |
| Resolve.FirstReadings | main.py:228 | one entry per keyword character, each its first reading |
| Resolve.ReplaceHit | main.py:230 | a character replaced in itself gives the replacement |
| Resolve.ToneSpellingChar | main.py:230 | the three replacements on one character respell it on its own |
| Resolve.ToneSpelling | main.py:230 | the three chained replaces of ǘ, ǚ and ǜ by `u:2`, `u:3` and `u:4`; `Resolve.ToneSpellingOnePass` gives its meaning |
| Resolve.ToneSpellingAppend | main.py:230 | the three replacements commute with concatenation |
| Resolve.ToneSpellingOnePass | main.py:230 | the three successive replacements equal one pass that maps ǘ, ǚ, ǜ to u:2, u:3, u:4 and keeps every other character |
| Resolve.ToneSpellingClears | main.py:230 | no ǘ, ǚ or ǜ is left after the replacements |
| Resolve.ToneMapSpaces | main.py:230 | the respelling neither adds nor removes a space |
| Resolve.PinyinAnswer | main.py:228-230 | the pinyin answer holds no ǘ, ǚ or ǜ |
| Resolve.ToneSpellingJoin | main.py:228-230 | respelling the space-joined readings is joining the respelled readings |
| Resolve.PinyinSyllables | main.py:228-230 | split at its spaces, the answer is one syllable per keyword character, each the respelled first reading |
| Resolve.PinyinLv | main.py:228-230 | a keyword read lǚ is answered lu:3 |
| Resolve.IndexOf | main.py:235 | `mcq.index(answer)` is the first position holding the answer |
| Resolve.Choose | main.py:234-238 | the first position of the answer among the options, else the drawn fallback in 0..3; with at most four options it indexes `MCQ_CHOICE` |
| Resolve.Score | main.py:246 | score text of two characters or fewer is not an integer |
| Resolve.ScoreRoundTrip | main.py:246 | a number followed by a two-character unit reads back as that number plus 100 |
| Resolve.ChosenIndex | main.py:209-238 | the chosen index is a position among the options or the drawn fallback |
| Resolve.FillBlankChoice | main.py:210-235 | a leftmost match at `i` chooses the first option equal to the stripped window, else the fallback |
| Resolve.FillBlankFallbackChoice | main.py:218-235 | with no match, the click goes to the first option equal to the drawn one, never to a random index |
| Resolve.AnswerLetter | main.py:233-239 | the letter is one of A to D; it exists exactly when an index below 4 was chosen, always with at most four options; a fault is a question fault |
| Resolve.CollectMeaning | main.py:204-239 | the question loop completes exactly when every question does, giving their letters in order; otherwise it raises the first question's fault |
| Resolve.Collect | main.py:204-239 | the loop over steps that give a value or raise: every value in order, or the first step's fault |
| Resolve.Letters | main.py:204-239 | the result of each question of the set, in order |
| Resolve.AnswerAll | main.py:204-239 | the question loop of `solve_article`: the letters clicked, or the fault of the first question that raises |
| Resolve.CollectSnoc | main.py:204-239 | one more question after a completed prefix adds its letter or raises its fault |
| Resolve.CollectFailureSticks | main.py:204-239 | once a question has raised, the later questions are never reached |
| Resolve.AnswerAllLetters | main.py:204-239 | a completed loop clicks one letter from A to D per question; questions that are all answerable with at most four options complete; a fault comes from a question |
| Resolve.AnswerQuestions | main.py:203-239 | the loop over the questions returns the letters, or the first fault, as the set's definition does |
| Resolve.Passage | main.py:196-197 | the cleaned passage holds none of the removed symbols |
| MainMacro.Clean | main.py:142-153 | `clean` removes exactly main.py's 28 symbols |
| MainMacro.CleanRemovesOnlySymbols | main.py:149-153 | none of the symbols remains; every other character survives, in its original order |
| MainMacro.CleanIdempotent | main.py:150-153 | `clean(clean(s)) == clean(s)` |
| MainMacro.ArticleOutcomeCases | main.py:191-249 | an article is skipped exactly when it has no paragraphs; a solved article was answered in full and carries `int(text[:-2]) + 100`; a missing score element is suppressed |
| MainMacro.ArticleOutcome | main.py:165-249 | what `solve_article` does to an article under the decorator: skipped without paragraphs, suppressed with the fault a question or the submit step raises, else solved with the letters and `int(text[:-2]) + 100` |
| MainMacro.Outcomes | main.py:274 | one outcome per page of the session, in order |
| MainMacro.SolvedCount | main.py:248 | the solved count never exceeds the number of articles |
| MainMacro.Gain | main.py:249 | a solved article adds its score to `TOTAL_SCORE_GAINED`; any other outcome adds 0 |
| MainMacro.ScoreSum | main.py:248-249 | the points all outcomes add, the sum of their gains |
| MainMacro.MaxAll | main.py:177-178 | the checkpoint never falls below where it started, is at least every ID seen, and is the start or one of the IDs |
| MainMacro.MaxAllOrderFree | main.py:271-274 | the checkpoint does not depend on the order in which the pool's workers advance it |
| MainMacro.MaxAllExample | main.py:177-178 | advancing with 7, 3, 9, 5 from a checkpoint of at most 9 leaves 9 |
| MainMacro.SessionCheckpoint | main.py:272-274 | after the session over `last + 1 .. last + n`, the checkpoint is `last + n` |
| MainMacro.SessionStep | main.py:248-249 | one more article adds 1 to the solved count if solved, and its points to the total |
| MainMacro.Macro.constructor | main.py:32-50 | the state after loading config.json, with both counters at zero |
| MainMacro.Macro.Advance | main.py:177-178 | the checkpoint becomes `max(old, id)` and never decreases |
| MainMacro.Macro.SolveArticle | main.py:166-249 | the checkpoint is advanced first, even for an invalid article or one that raises; the outcome is the article's; the counters grow only for a solved article |
| MainMacro.Macro.Run | main.py:270-274 | the IDs passed to `solve_article` are exactly `last + 1 .. last + amount`, each once and in order; the checkpoint ends as the max over them; the counters grow by the solved count and the points |
| MainMacro.IdeographsKept | main.py:150-153 | clean keeps Chinese text unchanged |
| MainMacro.IdeographicPlain | main.py:212-216 | Chinese text holds no line break, underscore or regular-expression metacharacter |
| MainMacro.IdeographicAnchors | main.py:213-214 | the anchors of Chinese text are its last three and first three characters, and read literally |
| MainMacro.IdeographicTitle | main.py:212-216 | a Chinese title around one blank is literal, and its pattern is the last three characters before the blank, the width, and the first three after it |
| MainMacro.WeatherMatch | main.py:216-223 | the pattern 今天, two characters, 很好 matches 今天天气很好 at 0, and the window strips to 天气 |
| MainMacro.WeatherExample | main.py:210-239 | title 今天___很好 on passage 今天天气很好 with 天气 as the first option clicks A |
| FastMacro.Clean | fast.py:77-88 | `clean` removes exactly fast.py's 23 symbols |
| FastMacro.CleanRemovesOnlySymbols | fast.py:84-88 | a character is in the cleaned text exactly when it is in the text and is not a symbol |
| FastMacro.CleanIdempotent | fast.py:84-88 | `clean(clean(s)) == clean(s)` |
| FastMacro.SymbolSets | fast.py:84-85 | main.py's symbols are fast.py's plus full-width space, `／`, `（`, `）` and `—` |
| FastMacro.WideFormsNotSymbols | fast.py:85 | none of those five is among fast.py's symbols |
| FastMacro.CleanKeepsWideForms | fast.py:84-88 | fast.py's clean keeps full-width space, `／`, `（`, `）` and `—` wherever they occur |
| FastMacro.MainCleanAfterFastClean | fast.py:84-88 | main.py's clean after fast.py's is main.py's clean |
| FastMacro.CleansAgree | fast.py:84-88 | on text without those five characters the two cleans agree |
| FastMacro.SolveArticle | fast.py:110-184 | returns 0 without paragraphs, 0 without a score element, else `int(text[:-2]) + 100`; a question fault or a bad score text escapes |
| FastMacro.ArticleScore | fast.py:110-184 | what `solve_article` returns for a page: 0 without paragraphs, 0 on `NoSuchElementException` at submit, else `int(text[:-2]) + 100`; a question fault or a bad score text escapes |
| FastMacro.ArticleScoreCases | fast.py:124-126 | 0 without paragraphs; after a full set of answers, 0 without a score element, else the parsed score or `ScoreNotInteger`; only a question fault or a bad score text escapes, both directions |
| FastMacro.AnswersAgree | fast.py:128-171 | on a page without the five wide forms both scripts click the same letters or stop at the same fault |
| FastMacro.ScoreAgreesWithMain | fast.py:110-184 | on such a page fast.py returns what main.py records: 0 for a skipped article or a missing score element, the points of a solved one, the fault otherwise |
| FastMacro.AnchorsAgree | fast.py:144-146 | text without the wide forms gives the same anchors under either clean |
| FastMacro.TitlesAgree | fast.py:142-171 | a title without the wide forms fits and gives the same letter under either clean |
| FastMacro.BlankChoicesAgree | fast.py:142-155 | a fill-in-the-blank title without the wide forms picks the same option index under either clean |
| FastMacro.BlanksAgree | fast.py:144-148 | a title with a blank and without the wide forms is literal and gives the same pattern under either clean |
| FastMacro.Scores | fast.py:213-217 | one result per page of a thread's range, each that page's result |
| FastMacro.Tasks | fast.py:247-251 | thread `i` in `1..T` gets start `L + (i - 1) * n` and count `n` |
| FastMacro.ThreadStart | fast.py:250 | thread `i` starts at `L + (i - 1) * n` |
| FastMacro.ThreadIds | fast.py:247-251 | the IDs of threads `1..T`, thread after thread, each its range `range(start, start + n)` |
| FastMacro.TaskIds | fast.py:213 | the IDs a list of `start_thread` tasks visits, task after task |
| FastMacro.TasksVisitThreadIds | fast.py:247-251 | the tasks main starts visit exactly the threads' IDs, so the partition lemmas hold of them |
| FastMacro.PartitionCovers | fast.py:247-251 | side by side the threads' ranges are exactly `L .. L + T * n - 1`, in order and each once, starting at the checkpoint itself |
| FastMacro.PartitionDisjoint | fast.py:247-251 | no ID belongs to two threads |
| FastMacro.PartitionExample | fast.py:247-251 | three threads of two from checkpoint 100 visit exactly 100 to 105, each once |
| FastMacro.Macro.constructor | fast.py:33-39 | the state after loading config.json |
| FastMacro.Macro.Plan | fast.py:246-253 | the tasks main starts, one per thread, read from the checkpoint and `articlesPerThread`; together they visit exactly `L .. L + T * n - 1`, in order and each once |
| FastMacro.Macro.StartThread | fast.py:199-222 | every ID of the range is attempted in order, even after one raises, with each page's result recorded; the checkpoint ends at the range's last ID, or is unchanged for an empty range |

## Left out

- Selenium, `requests`, BeautifulSoup, cookies and the browser driver are left out: they are I/O. The page contents they fetch are the `Page` input: paragraphs, questions with options and keyword readings, and the score text.
- The removal of `term_py` spans before reading the paragraphs (main.py:186-187) is left out, because it happens inside the HTML parser. The paragraphs are taken as they are after it.
- Alert handling, the script that sets the bonus display, `driver.refresh` and the radio-button clicks are left out, because they are browser plumbing. A click for a letter that the page does not offer is not modelled as a fault.
- Concurrency is left out: `ThreadPool`, `threading.Thread`, `threadLocal` and `CONFIG_LOCK`. Both scripts are modelled one article after another. `MainMacro.MaxAllOrderFree` shows that main.py's checkpoint does not depend on the order in which whole advances happen. Lost updates to the unsynchronised `ARTICLES_SOLVED` and `TOTAL_SCORE_GAINED` are not modelled.
- MainMacro.Macro.Advance: takes the comparison and the store of main.py:177-178 as one step. In main.py they run without `CONFIG_LOCK`, which is taken only inside `save_config` (main.py:65-68). Two pool workers that interleave between them can leave the smaller ID as the checkpoint. That lost update is not modelled.
- FastMacro.Macro.Plan: reads the checkpoint once, before any thread starts. In fast.py, `main` reads `CONFIG['lastSolvedArticleID']` anew for each thread while earlier threads may already be overwriting it, so later threads can start from a moved checkpoint. That race is not modelled.
- FastMacro.Macro.StartThread: runs a whole thread without interleaving, so it ends with the checkpoint at its own last ID. In fast.py the threads write `CONFIG['lastSolvedArticleID']` concurrently (fast.py:216). The final value is the last ID of whichever thread writes last. It can be lower than IDs other threads have already attempted, and the next run then starts again from there (fast.py:250).
- FastMacro.AnswersAgree and FastMacro.ScoreAgreesWithMain: assume that both scripts receive the same `Page`. They read paragraphs differently. main.py fetches the page with `requests` and BeautifulSoup, removes the `term_py` spans, then reads `zbs_sent` (main.py:182-189). fast.py reads the `zbs_sent` text through Selenium with no removal (fast.py:118-121). So the same article can give the two scripts different paragraph text, and the lemmas do not cover that case.
- `save_config`, the JSON file, `sys.excepthook`, `input()`, logging, timing and `check_for_updates` are left out: they are I/O and network.
- `pypinyin.pinyin` is a foreign library. The per-character readings are an input of the question.
- `random.choice` and `random.randint(0, 3)` are the `Draw` input, with range preconditions.
- The regular-expression engine is modelled as a literal search. `Resolve.LiteralTitle` states what a fill-in-the-blank title must meet for that; a title without `_` never reaches a pattern and always fits.
  - The title has no line break. `(.*?)_+(.*)` matches every title that holds `_`, because `re.search` retries from each position. But `.` does not cross a line break, so a break cuts the groups down to the line of the first blank. That cut is not modelled.
  - Neither anchor holds a regular-expression metacharacter, because the anchors go into the pattern unescaped.
  A fill-in-the-blank title that breaks either condition is outside the model.
- Python's `int()` is modelled on ASCII digits with an optional sign and surrounding white space. Underscores between digits and non-ASCII digits are not modelled.
- Other element lookups that raise, such as a missing title element, are not modelled separately. A missing `<u>` keyword stands for them (`NoKeyword`).

