# Qui3zBot core in Dafny

A model of the core of Qui3zBot, a trivia bot that runs a quiz in one forum
topic of a Telegram group. The model has four parts.

- **The answer normaliser** (`textnorm.normalize`). It strips the text and lower-cases it. It replaces "ё" by "е" and decomposes the text (NFKD). Then it drops combining marks, turns each run of symbols into one space, collapses white space and strips again.
- **The question catalogue** (`QuizEngine`):
  - validation and repair of raw question records;
  - tag and category scopes;
  - draws without replacement from per-scope bags;
  - answer checking;
  - the tag and category listings.
- **The hint planner and scoring** of `main.py`:
  - how many hints an answer gets, and how far apart;
  - how many letters each hint reveals, and the masked hint text;
  - the points a hint level leaves;
  - the clamp on the number of rounds.
- **The round state machine** of `main.py`:
  - starting, stopping and finishing a game, and posting the next question;
  - the hint and timeout watcher ticks, `/skip` and the answer handler.
  It runs over an in-memory model of the SQLite tables of `db.py`: the single `state` row, the `config` row, users, all-time and per-session scores, sessions and the points event log.

Modules (files) follow the source:

- `TextNorm` (textnorm.dfy) is `textnorm.py`.
- `Quiz` (quiz.dfy) is `quiz.py`, with the class `QuizEngine`.
- `Db` (db.dfy) is `db.py`, with the class `Database`.
- `Hints` (hints.dfy) holds the pure helpers of `main.py`.
- `Rounds` (rounds.dfy) holds the handlers of `main.py`, as the class `QuizBot`.
- The helpers are `Wrappers` (Option and Result), `Json` (JSON values and the `str()` of a value) and `Order` (string order and `sorted(set(...))`).

Some things the program gets from its runtime become parameters or fixed choices:

- **Time.** Every handler takes `now` as a parameter.
- **Messages.** A posted message is appended to the bot's `log` of `Post` values.
- **Shuffles.** `random.shuffle` is any permutation. The method picks it with `:|`, and the contract names it as a ghost out-parameter `shuffled`.
- **Seeded shuffle.** The seeded `random.Random(seed).shuffle` of the hint positions is a function parameter `shuffle`, required to return a permutation of the answer's letter and digit positions.
- **Characters.** The Unicode tables behind `str.isspace`, `str.isalnum`, `\w`, `str.lower`, NFKD and `unicodedata.combining` are explicit tables over ASCII, Latin-1 (with its compatibility decompositions, such as ² to 2 and ½ to 1⁄2), the Cyrillic block U+0400-U+04FF and the Greek mu that the micro sign decomposes to. The digit tables behind `str.isdigit` and `int()` cover the ASCII digits and the superscripts ¹ ² ³ only. The shape theorems rely only on the structural facts proved about them.

## Model

| member | source | states |
|---|---|---|
| TextNorm.Strip | textnorm.py:10 | `str.strip()`: the result is a contiguous slice of the input with no white space at either end, and everything cut off before and after it is white space |
| TextNorm.StripBlank | textnorm.py:8-10 | strip gives "" exactly when every character is white space |
| TextNorm.BlankNormalizesEmpty | textnorm.py:8-10 | an input that is empty or only white space normalises to "" |
| TextNorm.SkipRun | textnorm.py:4-5 | the remainder after a maximal run of a class is a suffix that does not start inside the class, and every dropped character is in the class |
| TextNorm.NormalizeShape | textnorm.py:16-25 | the result has no white space at either end, no two white-space characters in a row, and only word characters and single spaces; it never contains a combining mark or "ё" |
| TextNorm.ResultChars | textnorm.py:17-20 | every character of the result is a space, or a character of the decomposed, mark-free text that is neither a symbol nor white space |
| TextNorm.ResultLayout | textnorm.py:23 | after the collapse and the final strip no space is at an edge and spaces are isolated |
| TextNorm.CollapsedLayout | textnorm.py:23 | collapsing white-space runs and then stripping leaves no edge space and no double space, for any string |
| TextNorm.NormalFormFixed | textnorm.py:7-25 | a string already in normal form (no edge space, isolated spaces, only settled word characters) is its own normalisation |
| TextNorm.NormalizeIdempotent | textnorm.py:7-25 | normalising twice equals normalising once |
| TextNorm.NormalizeIgnoresCase | textnorm.py:10 | lower-casing the input first does not change the result |
| TextNorm.NormalizeIgnoresSurroundingSpace | textnorm.py:10 | white space added before and after the input does not change the result |
| TextNorm.NormalizeOfStrip | textnorm.py:10 | normalising the stripped input equals normalising the input |
| TextNorm.NormalizeIgnoresYo | textnorm.py:13 | writing "ё" for "е" (either case) anywhere in the input does not change the result |
| TextNorm.StripCommutes | textnorm.py:10 | a character map that keeps white space white commutes with strip |
| TextNorm.StripIdempotent | textnorm.py:10 | stripping twice equals stripping once |
| TextNorm.DecomposeShape | textnorm.py:16 | NFKD keeps a character, or maps it to settled characters and combining marks: a base letter and its mark, or a compatibility image such as ² to 2 or ½ to 1⁄2 |
| TextNorm.LowerYoSettled | textnorm.py:10-13 | after lower-casing and the "ё" replacement a character is lower-case and never "ё" |
| TextNorm.NoPunctUntouched | textnorm.py:20 | the symbol substitution leaves a text without symbols unchanged |
| TextNorm.IsolatedUntouched | textnorm.py:23 | the white-space collapse leaves a text whose spaces are isolated (and not last) unchanged |
| TextNorm.ParisExamples | textnorm.py:7-25 | "  PARIS  ", "Paris!" and "paris" all normalise to "paris" |
| TextNorm.CapitalParis | textnorm.py:7-25 | "Paris" normalises to "paris": lower-casing is the only step that changes it |
| TextNorm.CompatibilityExamples | textnorm.py:10-20 | "x²" normalises to "x2", "½" to "1 2" (the fraction slash is a symbol) and "Ґ" to "ґ" |
| TextNorm.AsciiWordFixed | textnorm.py:7-25 | a non-empty word of ASCII lower-case letters normalises to itself |
| TextNorm.AsciiWordThenPunct | textnorm.py:7-25 | a lower-case ASCII word followed by one symbol normalises to the word |
| Json.Get | quiz.py:145 | `dict.get`: a value is found exactly when the key is present, and it is the value of the last member with that key, as `json.load` keeps it |
| Json.NatToString | quiz.py:157 | the decimal rendering of a natural number is a non-empty digit string with no leading zero |
| Json.NatToStringRoundTrip | quiz.py:157 | reading back the decimal rendering of n gives n |
| Json.StrOfDigits | quiz.py:191 | `str(x)` is a digit string only for a string or a non-negative integer |
| Order.SortDistinct | quiz.py:49-63 | `sorted(set(xs))`: strictly increasing, with exactly the members of xs |
| Order.SortedUnique | quiz.py:49-63 | two strictly sorted sequences with the same members are equal |
| Order.BelowTransitive | quiz.py:55 | the string order is transitive |
| Order.BelowTotal | quiz.py:55 | the string order is total |
| Quiz.CleanOne | quiz.py:177-181 | one element of `clean_list`: nothing, or one stripped non-empty string |
| Quiz.Cleaned | quiz.py:175-182 | `clean_list` keeps at most as many elements, all stripped and non-empty |
| Quiz.CleanedMembers | quiz.py:175-182 | x is kept exactly when x is non-empty and is the strip of some string element |
| Quiz.CleanedAppend | quiz.py:175-182 | cleaning a concatenation is the concatenation of the cleaned parts, so order is kept |
| Quiz.WithCategoryTag | quiz.py:165-168 | the tags are unchanged, or the normalised category is appended |
| Quiz.TagStep | quiz.py:165-168 | the normalised category is appended exactly when the category is a non-blank string whose non-empty normal form is not among the normalised tags |
| Quiz.CategoryTagReached | quiz.py:165-168 | an accepted record with a string category whose normal form is non-empty is tagged with that normal form |
| Quiz.BaseName | quiz.py:157 | `os.path.basename`: the suffix after the last "/" |
| Quiz.NormalizeQuestion | quiz.py:140-152 | None exactly when the record is not an object, has no non-blank string question, or has no non-blank string answer |
| Quiz.NormalizeQuestionWellFormed | quiz.py:184-195 | an accepted record has a clean question, a non-empty answer list, clean answers, aliases and tags, and a stripped category |
| Quiz.AcceptedText | quiz.py:187 | the stored question is stripped and non-empty |
| Quiz.AcceptedAnswers | quiz.py:150-188 | an accepted record keeps at least one answer |
| Quiz.AcceptedCategory | quiz.py:186 | a stored category is stripped |
| Quiz.CategoryTagged | quiz.py:160-190 | the stored tags are the cleaned tags, plus the normalised category exactly when the rule of lines 165-167 appends it |
| Quiz.MissingIdFallback | quiz.py:154-157 | a missing or null id becomes `basename(path) + "::" + (count + 1)` in decimal |
| Quiz.PresentIdKept | quiz.py:154-185 | a present non-null id is kept: a string id verbatim, an integer id as its decimal numeral; for a non-negative one that numeral is all decimal digits and reads back as the integer |
| Quiz.Difficulty | quiz.py:191 | corrected difficulty: a non-empty string of decimal digits becomes its non-negative integer value; a non-string stays as it is |
| Quiz.DifficultyRoundTrip | quiz.py:191 | the decimal string of n and the integer n both give the integer n |
| Quiz.DifficultyAsWritten | quiz.py:191 | difficulty as written: raises exactly for a string that `isdigit` accepts but that holds a non-decimal digit |
| Quiz.DifficultyAgrees | quiz.py:191 | where the code as written does not raise, it agrees with the corrected difficulty |
| Quiz.SuperscriptDifficultyRaises | quiz.py:191 | "²" makes the code as written raise, while the corrected difficulty keeps the string |
| Quiz.Items | quiz.py:127-133 | a top-level list is the record list; an object gives its "questions" member when that is a list and nothing otherwise; any other value gives nothing |
| Quiz.AdmitOne | quiz.py:136-138 | one raw record appends at most one question and keeps the earlier ones |
| Quiz.Admit | quiz.py:135-138 | a file's records extend the catalogue by at most one question each and keep the earlier ones |
| Quiz.AdmitWellFormed | quiz.py:135-138 | every question a file adds is well formed |
| Quiz.LoadAll | quiz.py:103-108 | loading files in order extends the catalogue and keeps its prefix |
| Quiz.CatalogWellFormed | quiz.py:97-108 | every question of the loaded catalogue is well formed |
| Quiz.ById | quiz.py:110-112 | the keys of `by_id` are exactly the ids of the catalogue |
| Quiz.ByIdLast | quiz.py:111-112 | with duplicate ids, `by_id` keeps the last question with that id |
| Quiz.IdsForTag | quiz.py:199-209 | "all" gives every id in load order; any other tag gives exactly the ids of questions whose normalised tags contain the normalised tag |
| Quiz.CategoryIds | quiz.py:213-218 | exactly the ids of questions whose normalised category (empty when absent) equals the key |
| Quiz.Select | quiz.py:204-209 | a filter keeps exactly the ids of matching questions, and no more ids than questions |
| Quiz.SelectAppend | quiz.py:204-209 | a filter works question by question: it distributes over concatenation and a single question gives its id or nothing, so order and multiplicity are kept |
| Quiz.SelectDistinct | quiz.py:204-209 | a filter over distinct ids gives distinct ids |
| Quiz.Draw | quiz.py:74-79 | the bag is refilled with the shuffled scope only when empty; a pop returns its last id and leaves the rest; an empty scope draws nothing (the same bag logic serves categories, quiz.py:213-226) |
| Quiz.Run | quiz.py:74-79 | a run of draws yields one outcome per draw |
| Quiz.RunOrder | quiz.py:79 | draws from a bag of n ids return them last first |
| Quiz.RunHandsOut | quiz.py:74-79 | n draws from a bag of n ids hand out the bag's ids exactly |
| Quiz.DrawRound | quiz.py:74-80 | with distinct ids, N draws starting from a refill of the N-id scope return every id exactly once |
| Quiz.RefillFirst | quiz.py:74-77 | a run from an empty bag is the run from the first shuffle |
| Quiz.EmptyScopeFails | quiz.py:75-79 | a tag scope without ids leaves nothing to pop, so the draw fails |
| Quiz.CheckAnswer | quiz.py:82-93 | true exactly when the normalised text is non-empty and equals the normalisation of some answer or alias |
| Quiz.CheckAnswerNormalForm | quiz.py:83 | checking the normalised text gives the same verdict as checking the text |
| Quiz.CheckAnswerAccepts | quiz.py:87-93 | any text with the same non-empty normal form as an answer or alias is accepted |
| Quiz.ParisAccepted | quiz.py:82-93 | with "Paris" among the answers, "  PARIS  ", "Paris!" and "paris" are all accepted |
| Quiz.AllTags | quiz.py:50-53 | the collected tags are exactly the tags of the questions |
| Quiz.ListTags | quiz.py:49-55 | sorted and distinct, without "all", with exactly the tags of the questions |
| Quiz.AllCategories | quiz.py:58-62 | the collected categories are exactly the non-empty categories of the questions |
| Quiz.ListCategories | quiz.py:57-63 | sorted and distinct, with exactly the non-empty categories |
| Quiz.DrawKnown | quiz.py:79-80 | a draw keeps every bagged id a key of `by_id` and returns one |
| Quiz.QuizEngine.constructor | quiz.py:37-45 | a new engine holds the catalogue of its files, the id index, and empty bags |
| Quiz.QuizEngine.Load | quiz.py:97-112 | reset, then the catalogue of the files, the id index rebuilt, the bags empty |
| Quiz.QuizEngine.LoadFiles | quiz.py:103-108 | the files are loaded in order into the catalogue |
| Quiz.QuizEngine.LoadFile | quiz.py:123-138 | one file appends its accepted records, in order |
| Quiz.QuizEngine.IndexById | quiz.py:110-112 | the loop builds exactly `ById(questions)` |
| Quiz.QuizEngine.NextQuestion | quiz.py:65-80 | a non-empty category draws from the category bag; otherwise a draw from the tag's bag, the category bags unchanged |
| Quiz.QuizEngine.NextByTag | quiz.py:73-80 | refill from a permutation of the tag's scope only when the bag is absent or empty, pop one id, and return its question; an empty scope is an error |
| Quiz.QuizEngine.NextByCategory | quiz.py:211-227 | the same on the bag keyed by the normalised category; when no question matches, the draw falls back to the tag "all" |
| Db.ColumnNamed | db.py:77-93 | a column name resolves to the column of that name |
| Db.NameRoundTrip | db.py:77-93 | every column of the state table is found by its name |
| Db.NoCategoryColumn | db.py:77-93 | the state table has no "category" column |
| Db.StateUpdate | db.py:220-232 | the UPDATE of named columns: no arguments leave the row unchanged; a failure is an unknown column or a NULL active |
| Db.SetStateChangesOnlyNamed | db.py:220-232 | after a successful update each named column holds its value and every other column keeps its old value |
| Db.UnknownColumnRejected | db.py:229-231 | an assignment to a column the table lacks makes the whole statement fail |
| Db.CategoryRejected | db.py:77-93 | `set_state(category=...)`, as `cb_choose_round` (main.py:466-480) calls it, fails and changes nothing |
| Db.KwOfApplies | db.py:220-232 | an assignment list built from a change map applies exactly that map to the row |
| Db.UpdateComplete | db.py:220-232 | an update keeps every column of the row |
| Db.ViewReads | db.py:243-262 | `get_state` on a missing row is the baseline; on a row, active is its truth value, NULL tag reads "all", NULL counters read 0, and the other columns are read unchanged |
| Db.FreshRowReadsAsBaseline | db.py:96-262 | the row that init_db inserts reads exactly like a missing row |
| Db.Accumulate | db.py:139-157 | the upsert: a new key gets delta and an existing key gains delta; other keys keep their points |
| Db.Cap | db.py:175 | LIMIT: never more rows than exist, nor more than a non-negative limit |
| Db.MaxExists | db.py:174 | a non-empty set of users has one with the most points |
| Db.ThreadScores | db.py:173 | the all-time points of exactly the users of one chat thread |
| Db.SessionPoints | db.py:185 | the points of exactly the users of one session |
| Db.PeriodTotalsAreSums | db.py:191-202 | a user has a period total exactly when they have an event of the chat thread with `from <= ts < to`, and the total is the sum of those deltas |
| Db.WindowsAdd | db.py:197 | adjacent half-open windows add up |
| Db.WindowSumOutside | db.py:197 | a user without events in the window sums to 0 |
| Db.WholeWindow | db.py:197 | a window holding every event sums to the user's total |
| Db.RankingStep | db.py:174 | appending a user with the most remaining points keeps the order descending |
| Db.RankingDone | db.py:174-175 | the ranking, once stopped at the limit or run out of users, is a top-limit ordering by points |
| Db.AwardKeepsLedger | db.py:139-165 | crediting the all-time table, the session table (for a non-zero session) and appending one event keeps both tables equal to the sums of the event log |
| Db.Database.constructor | db.py:7-96 | after init_db, config and state each hold exactly the row with id 1, the state row fresh, the other tables empty |
| Db.Database.InsertSingletons | db.py:95-96 | INSERT OR IGNORE: the row with id 1 is added only when missing |
| Db.Database.SetTopic | db.py:115-121 | the config row holds the given chat and thread, nothing else changes |
| Db.Database.GetTopic | db.py:123-127 | the chat and thread of the config row, NULL without a row |
| Db.Database.UpsertUser | db.py:129-137 | the user's profile is replaced for that (chat, user), nothing else changes |
| Db.Database.AddPointsAlltime | db.py:139-147 | the all-time table is accumulated at (chat, thread, user), nothing else changes |
| Db.Database.AddPointsSession | db.py:149-157 | the session table is accumulated at (session, user), nothing else changes |
| Db.Database.AddPointsEvent | db.py:159-165 | exactly one event with the given fields is appended, nothing else changes |
| Db.Database.CreateSession | db.py:204-212 | a fresh id not used before, the next row id, with a new open session row; nothing else changes |
| Db.Database.EndSession | db.py:214-218 | only that session's `ended_at` is set, and only if it exists |
| Db.Database.SetState | db.py:220-232 | the state row becomes the update's result when it succeeds; on failure the row stays as it was and the error is returned |
| Db.Database.Gather | db.py:222-226 | the loop collects the column names and the values in argument order |
| Db.Database.GetState | db.py:234-262 | the view of the state row, or the baseline when there is no row |
| Db.Database.Rank | db.py:174-175 | ORDER BY points DESC LIMIT: distinct users of the scope, descending by points, at most the limit, and no user left out has more points than one kept |
| Db.Database.RatedRows | db.py:170-172 | each ranked user with their points and, from the LEFT JOIN, their name or nothing |
| Db.Database.TopAlltime | db.py:167-177 | a top-limit rating of the chat thread's all-time points with names |
| Db.Database.TopSession | db.py:179-189 | a top-limit rating of the session's points with names from the given chat |
| Db.Database.TopPeriod | db.py:191-202 | a top-limit rating of the per-user sums over the half-open window |
| Hints.AlnumCount | main.py:108-109 | the number of letters and digits is at most the length |
| Hints.HintTotalFor | main.py:111-120 | 0 for at most 2 letters, 1 for 3-4, 2 for 5-7, 3 for 8-10, 4 for more than 10; with hints there are always at least two more letters than hints |
| Hints.HintTotalGrows | main.py:111-120 | the hint count does not decrease with the number of letters |
| Hints.ChooseHintPlan | main.py:106-130 | the hint count of the answer's letters and digits; interval 9999 without hints, at least 4 in every case, and all hints given within the first 18 seconds |
| Hints.PlanIntervals | main.py:128-129 | the interval is 9, 6, 4 and 4 seconds for 1, 2, 3 and 4 hints |
| Hints.PointsForHintLevel | main.py:154-155 | at least 1 and at most 5 for a level of 0 or more; exactly 5 - level up to level 4, and 1 from level 4 on |
| Hints.PointsShrink | main.py:154-155 | the points do not increase with the hint level |
| Hints.PointsTable | main.py:154-155 | levels 0, 1, 2, 3 and from 4 on give 5, 4, 3, 2 and 1 points |
| Hints.CeilDiv | main.py:295 | the integer ceiling of a quotient |
| Hints.RevealCount | main.py:293-295 | k is 1 when n times level is at most total + 1, and otherwise the ceiling of n times level over total + 1 |
| Hints.RevealGrows | main.py:293-295 | the reveal count does not decrease with the level |
| Hints.RevealBounded | main.py:295 | for a level up to the total, at most n letters are revealed |
| Hints.RevealLeavesOne | main.py:111-295 | with the plan's hint count, even the last hint leaves at least one letter hidden |
| Hints.AlnumPositions | main.py:149 | exactly the positions of letters and digits, increasing |
| Hints.RevealSet | main.py:297 | the positions among the first k of the shuffled order |
| Hints.RevealNested | main.py:297 | a shorter prefix reveals a subset |
| Hints.NotRevealed | main.py:297 | in a shuffle with distinct positions the k-th position is not among the first k revealed |
| Hints.ShuffleDistinct | main.py:147-152 | a permutation of the letter positions has no repeated position |
| Hints.Mask | main.py:132-145 | the same length; a letter or digit is shown iff its position is revealed, otherwise "_"; every other character is kept |
| Hints.MakeHintRandom | main.py:132-145 | the loop builds exactly the mask of the revealed positions |
| Hints.MaskShowsRevealed | main.py:140-141 | a letter shows in the mask exactly when its position is revealed |
| Hints.MaskAllRevealed | main.py:132-145 | with every letter position revealed the mask is the answer |
| Hints.MaskNested | main.py:141 | a letter shown under a smaller reveal set is shown under a larger one |
| Hints.HintText | main.py:290-298 | the hint text has the answer's length |
| Hints.HintsNested | main.py:290-298 | a letter shown by one hint is shown by every later hint of the same question |
| Hints.HintKeepsAMask | main.py:290-298 | every hint of the plan leaves at least one letter of the answer masked |
| Hints.ClampRounds | main.py:401 | a round count between 1 and 50; unchanged inside that range, else the nearer bound (also main.py:448) |
| Rounds.FirstAnswer | main.py:245 | the first answer, or the given fallback ("" for the hint plan, a dash in the winner message at main.py:631) without answers |
| Rounds.FirstHintAt | main.py:246-249 | a next-hint time exactly when the plan has hints, one interval after now |
| Rounds.NextHintAt | main.py:312-315 | one interval after now when hints remain, NULL after the last |
| Rounds.PostOutcome | main.py:222-241 | the game finishes exactly when the round total is set and reached; otherwise question cur + 1 is posted |
| Rounds.Run | main.py:216-261 | an outcome per call of post_next_question |
| Rounds.RunFrom | main.py:225-241 | from round cur of a total, the calls post questions cur + 1 to the total and then finish |
| Rounds.RunUnbounded | main.py:225-241 | without a round total the counter posts cur + 1, cur + 2, ... and never finishes |
| Rounds.PostAdvances | main.py:251-261 | a post writes its number into round_current, keeps round_total, and the next call's outcome is computed from that number |
| Rounds.FinishStays | main.py:225-227 | finishing deactivates the game and keeps round_current and round_total, so the next call finishes again |
| Rounds.TicksKeepRounds | main.py:317 | a hint update, and likewise the win lock of main.py:636, keeps round_current and round_total (SameRounds), so the outcome of the next post_next_question is unchanged |
| Rounds.StepFollowsRun | main.py:218-261 | one post_next_question step with a successful draw is one step of the counter Run: its outcome comes first, and Run continues from the round fields of the new row |
| Rounds.ChainFollowsRun | main.py:218-261 | for any game on the state row (a GameChain: successive post_next_question steps with successful draws, separated by any updates that keep the round fields, such as hint ticks and win locks), the outcomes of the calls are exactly those of the counter Run from the first row's round fields |
| Rounds.RoundsPostExactly | main.py:179-261 | on the state row: after start_quiz with R rounds, and whatever hint ticks and win locks happen between the calls, R + 1 successive post_next_question steps post questions 1 to R (the i-th leaving round_current at i) and the next one ends the game with active = 0 |
| Rounds.UnboundedNeverFinishes | main.py:225 | on the state row: with round_total NULL, and whatever hint ticks and win locks happen between the calls, every post_next_question step posts the next number and none finishes |
| Rounds.StartsAtFirstRound | main.py:181-195 | a game started with at least one round posts question 1 next |
| Rounds.WinBlocksTicks | main.py:282-331 | once the winner is locked by the update of main.py:636, neither the hint tick nor the timeout tick acts, whatever the time |
| Rounds.FinishBlocksTicks | main.py:227-329 | after a game finishes, neither tick acts |
| Rounds.StopReadsAsBaseline | main.py:201-214 | the row after stop_quiz reads exactly as the baseline of get_state |
| Rounds.StopValues | main.py:201-214 | the stop update sets every column to its baseline value |
| Rounds.HintKeepsHints | main.py:317-320 | a hint step keeps `0 <= hint_level <= hint_total` |
| Rounds.WinKeepsHints | main.py:636 | locking the winner keeps the hint counters in range |
| Rounds.PostKeepsHints | main.py:251-261 | posting a question resets the hint counters within range and ties `hint_total` to the answer's plan |
| Rounds.TimeoutAnswer | main.py:332 | the stored hint answer, else the current question's first answer, else a dash |
| Rounds.AwardEvent | main.py:629-642 | the event of a win carries the points of the current hint level (1 to 5), the session id or 0, and reason "correct" |
| Rounds.Ended | db.py:214-218 | only that session gets its end time |
| Rounds.SessionOf | main.py:228-229 | `if session_id:` — a session exactly for a non-zero stored id (also main.py:640) |
| Rounds.OutcomeOf | main.py:219-225 | on a state row, post_next_question finishes exactly when round_total is set and round_current has reached it; otherwise it posts question round_current + 1 |
| Rounds.PostStepOfPost | main.py:238-261 | a posted question on a row that is due to post one is a valid step |
| Rounds.PostStepOfFinish | main.py:225-236 | finishing a row whose total is reached is a valid step |
| Rounds.QuizBot.constructor | main.py:50-51 | the bot starts with a freshly initialised database (main.py:657), the loaded catalogue, no current question and an empty log |
| Rounds.QuizBot.Apply | db.py:220-232 | one set_state with a change map: the row becomes the old row updated by the map, nothing else changes |
| Rounds.QuizBot.EndAndRate | main.py:228-235 | a game with a session ends it and posts its top-ten rating; a game without one posts the bare end message |
| Rounds.QuizBot.FinishGame | main.py:225-236 | the finish: active 0, deadline and next hint cleared, session ended, one game-over post |
| Rounds.QuizBot.Announce | main.py:239-273 | the row of a posted question, the current question set, one question post with its number |
| Rounds.QuizBot.AskNext | main.py:238-273 | a draw from the tag "all"; on success the question is posted, on failure nothing changes |
| Rounds.QuizBot.Proceed | main.py:225-273 | finishes when the total is reached, otherwise posts the next question |
| Rounds.QuizBot.PostNextQuestion | main.py:216-273 | one step of PostStep on the state row, the log only extended, the score tables untouched |
| Rounds.QuizBot.StartQuiz | main.py:179-195 | a fresh session recorded with the game's tag and rounds, the start update (question 1 is due next), then one post_next_question step (the row takes one PostStep; a finished game ends its session and posts the end; otherwise one draw from the "all" bag becomes the current question and is posted under its number), with the catalogue and the category bags unchanged |
| Rounds.QuizBot.StopQuiz | main.py:197-214 | the session, if any, ended; the row reset so that get_state reads the baseline (what that reading means is proved by Db.ViewReads and Rounds.StopReadsAsBaseline) |
| Rounds.QuizBot.Skip | main.py:523-529 | no game: a "not running" post and no change; a game: a "skipping" post, then one post_next_question step (the row takes one PostStep; a finished game ends its session and posts the end; otherwise one draw from the "all" bag becomes the current question and is posted under its number), with the catalogue and the category bags unchanged |
| Rounds.QuizBot.HintTick | main.py:280-320 | acts exactly when the guards of the hint watcher hold; then exactly one hint is given and posted; otherwise nothing changes |
| Rounds.QuizBot.HintMessage | main.py:294-306 | the hint post: level, total, the masked text and the points it leaves |
| Rounds.QuizBot.GiveHint | main.py:286-320 | the hint level rises by one, the next-hint time is set or cleared, and the hint is posted |
| Rounds.QuizBot.TimeoutTick | main.py:329-339 | acts exactly when the guards of the timeout watcher hold; then the answer is posted, followed by one post_next_question step (the row takes one PostStep; a finished game ends its session and posts the end; otherwise one draw from the "all" bag becomes the current question and is posted under its number), with the catalogue and the category bags unchanged; otherwise nothing changes |
| Rounds.QuizBot.Award | main.py:629-648 | the winner locked with deadline and next hint cleared; the same points in the three ledgers; one winner post |
| Rounds.QuizBot.Win | main.py:628-651 | the returned row is the old row with the win locked; the points credited in the three ledgers; the winner post followed by one post_next_question step from the locked row; users, catalogue, category bags, config and session counter unchanged |
| Rounds.QuizBot.Credit | main.py:638-642 | the points of a win in the all-time table, the session table for a real session, and one event |
| Rounds.QuizBot.OnTextAnswer | main.py:605-651 | the user upserted; a win exactly when the answer is accepted, and then the lock, the credit, the winner post and one post_next_question step (the row takes one PostStep; a finished game ends its session and posts the end; otherwise one draw from the "all" bag becomes the current question and is posted under its number), with the catalogue and the category bags unchanged; otherwise nothing else changes |

## Left out

- Telegram transport logic is not modelled, because it is UI and I/O. This covers:
  - command and callback wiring;
  - the topic-binding checks (main.py:61-80);
  - HTML formatting, `format_rows` and the keyboards (main.py:82-104, 157-166);
  - `/set_topic`, `/tags`, `/quiz_start` argument parsing, the setup menus and their `pending_setup` store (main.py:343-498, 585-603);
  - the rating commands, `/my` (main.py:531-583), and the messages of `cmd_quiz_stop` (main.py:506-516).
  The pure parts those handlers use are modelled.
- asyncio is not modelled: the `while True` polling loops, the sleeps and the interleaving of the watchers with the handlers (main.py:275-341, 653-660). Interleavings at `await` points are not modelled; each tick or handler is taken as one atomic step. The code takes no lock, so the program itself can interleave them (for example, a correct answer arriving during the timeout path's pause is still accepted, and both paths then post a question); the model does not capture such races. The time after the pause before the next question is the parameter `resumedAt`.
- `day_range_ts` and `week_range_ts` (main.py:168-177) are not modelled, because they depend on time-zone and calendar arithmetic. `TopPeriod` takes the window bounds as parameters.
- The internals of `random` are abstracted as follows:
  - `random.shuffle` is any permutation;
  - `random.Random(seed).shuffle` is the parameter `shuffle`;
  - which question a draw returns, or which letters a hint reveals, is therefore not pinned down.
- Python's float `frac` and `math.ceil` (main.py:294-295) are replaced by integer ceiling division. This differs only where float rounding would matter.
- Directory walking, file reading and JSON parsing (quiz.py:103-125) are not modelled. A catalogue is built from already-parsed files in the given order.
  - `json.load` errors are not caught (quiz.py:125); the model has no malformed files.
- JSON numbers are integers only; floating-point values (a difficulty of `2.5`, say) are not modelled.
- SQLite itself is not modelled: connections, SQL text, column type affinity, and the migration `try/except` (db.py:97-111).
- `time.time()` and `now_ts()` are not modelled; they are the parameter `now`.
- TextNorm.IsAlnum, TextNorm.Lower, TextNorm.Decompose: Unicode coverage is limited to ASCII, Latin-1 with its compatibility decompositions, the Cyrillic block U+0400-U+04FF and Greek mu. Other characters (Latin Extended letters such as "ł" or "ő", Greek other than mu, ligatures, full-width forms, Cyrillic Supplement) are treated as having no case, no decomposition and no combining marks, and letters among them are treated as symbols.
- Draws on an empty scope:
  - `Quiz.QuizEngine.NextByTag` returns `Err(EmptyScope)` where the code's `pop` raises an exception.
  - `Rounds.QuizBot.AskNext` then leaves the state unchanged, where the code's handler would abort with the exception.
  - On the finishing path, the ghost draw result `Err(EmptyScope)` only says that no question was drawn.
- `Rounds.QuizBot.PostNextQuestion` always draws with the tag "all". This follows the code: `get_state` never returns a `category` key (db.py:236-262), so `st.get("category")` (main.py:220) is always None.
- The tag that `start_quiz` stores (main.py:186) is recorded but, as in the code, never used for drawing.
- `cb_choose_round`'s `set_state(category=...)` (main.py:466-480) is modelled only as the failing update `Db.CategoryRejected`. Its `create_session` call, evaluated as an argument before the update raises, opens a session row that is never ended; that row is not modelled. No question is posted on this path, since the exception stops the handler before `post_next_question` (main.py:482).
- Duplicate question ids are allowed, as in the code. Non-repetition (`Quiz.DrawRound`) is stated only for scopes with distinct ids.
- `Json.Repr`: the `str()` of a non-string id follows Python's `repr` for None, booleans, integers, lists and dicts, but does not model the escaping of quotes inside strings.
- Json.IsDigit, Json.IsDecimal, Quiz.Difficulty, Quiz.DifficultyAsWritten: the digit tables cover the ASCII digits '0'-'9' (decimal) and the superscripts ¹ ² ³ (digits that are not decimal) only. Python's `str.isdigit` and `int()` accept every Unicode digit, so a difficulty such as "٣" (Arabic-Indic three), which Python converts to 3, stays a string in the model, and one such as "⁴" or "①", on which `int()` raises, is kept as a string instead of failing.
- `Quiz.DifficultyAsWritten`: the exception `int()` raises is the error value `NotAnInteger`.
- Quiz.NormalizeQuestion builds the catalogue with the corrected `Quiz.Difficulty` (see Findings), so `LoadFile`, `LoadAll` and the engine constructor accept a record with `"difficulty": "²"`, where the code raises at quiz.py:191 and the import-time load (main.py:50) aborts.

## Findings

| source | as written | input that shows it | evidently intended | confidence | as-written member | corrected member |
|---|---|---|---|---|---|---|
| quiz.py:191 | `int(d) if str(d).isdigit() else d`: `isdigit` accepts digit characters that are not decimal, such as superscripts, and `int()` raises on them, so the whole load fails | a record with `"difficulty": "²"` | only strings of decimal digits are converted; any other difficulty is kept as given | not executed | Quiz.DifficultyAsWritten, Quiz.SuperscriptDifficultyRaises | Quiz.Difficulty, Quiz.DifficultyRoundTrip |
