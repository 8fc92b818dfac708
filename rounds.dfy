/*
 * The round state machine of main.py: starting and stopping a game, posting
 * the next question, the bodies of the hint and timeout watchers, /skip and
 * the answer handler. Each handler or tick body is one atomic step on class
 * QuizBot, which owns the database, the question engine and the in-memory
 * current question; the clock is a parameter and posted messages are appended
 * to a log.
 *
 * Every write to the state row goes through set_state with a keyword list
 * built from a column order and a change map (StartChanges, StopChanges,
 * FinishChanges, PostChanges, HintChanges, WinChanges); Db.KwOfApplies turns
 * such a call into `row + changes`.
 */
module Rounds {
  import opened Wrappers
  import opened TextNorm
  import opened Db
  import opened Quiz
  import opened Hints

  /** The integer a column holds, 0 for NULL (the `or 0` of the handlers). */
  function Num(v: Value): int {
    if v.Int? then v.i else 0
  }

  // ----------------------------------------------------------------------
  // What the handlers write
  // ----------------------------------------------------------------------

  /** The SQL type each column is written with: qid, tag and hint answer are text, the rest integers. */
  predicate Fits(c: Column, v: Value) {
    match c
    case Active => v.Int?
    case CurrentQid => v.Null? || v.Text?
    case Tag => v.Null? || v.Text?
    case HintAnswer => v.Null? || v.Text?
    case _ => v.Null? || v.Int?
  }

  predicate Typed(row: map<Column, Value>) {
    forall c :: c in row ==> Fits(c, row[c])
  }

  lemma TypedUpdate(row: map<Column, Value>, m: map<Column, Value>)
    requires Typed(row) && Typed(m)
    ensures Typed(row + m)
  {
  }

  /**
   * hint_level never passes hint_total, and a stored hint answer carries the
   * hint_total of its own hint plan.
   */
  predicate HintsInRange(row: Row)
    requires Complete(row)
  {
    0 <= Num(row[HintLevel]) <= Num(row[HintTotal])
    && (row[HintAnswer].Text? ==> Num(row[HintTotal]) == ChooseHintPlan(row[HintAnswer].s).hintTotal)
  }

  /** The columns in the order start_quiz and stop_quiz name them. */
  const AllColumns: seq<Column> :=
    [Active, CurrentQid, WinnerUserId, DeadlineTs, Tag, RoundTotal, RoundCurrent, SessionId,
     HintLevel, HintTotal, HintAnswer, NextHintTs]

  /** start_quiz (main.py:181-194): a running game of `rounds` rounds, nothing asked yet. */
  function StartChanges(tag: string, rounds: int, session: int): (m: map<Column, Value>)
  {
    map[Active := Int(1), CurrentQid := Null, WinnerUserId := Null, DeadlineTs := Null,
        Tag := Text(tag), RoundTotal := Int(rounds), RoundCurrent := Int(0), SessionId := Int(session),
        HintLevel := Int(0), HintTotal := Int(0), HintAnswer := Null, NextHintTs := Null]
  }

  /** stop_quiz (main.py:201-214): back to the state of a fresh row. */
  function StopChanges(): (m: map<Column, Value>)
  {
    map[Active := Int(0), CurrentQid := Null, WinnerUserId := Null, DeadlineTs := Null,
        Tag := Text("all"), RoundTotal := Null, RoundCurrent := Int(0), SessionId := Null,
        HintLevel := Int(0), HintTotal := Int(0), HintAnswer := Null, NextHintTs := Null]
  }

  const FinishOrder: seq<Column> := [Active, DeadlineTs, NextHintTs]

  /** The end of the last round (main.py:227). */
  function FinishChanges(): (m: map<Column, Value>)
  {
    map[Active := Int(0), DeadlineTs := Null, NextHintTs := Null]
  }

  const PostOrder: seq<Column> :=
    [Active, CurrentQid, WinnerUserId, DeadlineTs, RoundCurrent, HintLevel, HintTotal, HintAnswer, NextHintTs]

  /**
   * The first answer of `q`, or `fallback` when it has none: the hint plan
   * uses "" as fallback (main.py:245), the winner message a dash (main.py:631).
   */
  function FirstAnswer(q: Question, fallback: string): (a: string)
    ensures |q.answers| > 0 ==> a == q.answers[0]
    ensures |q.answers| == 0 ==> a == fallback
  {
    if |q.answers| > 0 then q.answers[0] else fallback
  }

  const Dash: string := "\U{2014}"

  /** When the first hint is due: one interval from now, only for a plan with hints. */
  function FirstHintAt(answer: string, now: int): (v: Value)
    ensures v.Null? || v.Int?
    ensures v != Null <==> ChooseHintPlan(answer).hintTotal > 0
    ensures v != Null ==> v == Int(now + ChooseHintPlan(answer).intervalSec)
  {
    var plan := ChooseHintPlan(answer);
    if plan.hintTotal > 0 then Int(now + plan.intervalSec) else Null
  }

  /** Question number `number` is posted (main.py:251-261). */
  function PostChanges(q: Question, now: int, number: int): (m: map<Column, Value>)
  {
    var answer := FirstAnswer(q, "");
    map[Active := Int(1), CurrentQid := Text(q.id), WinnerUserId := Null, DeadlineTs := Int(now + QuestionTtl),
        RoundCurrent := Int(number), HintLevel := Int(0), HintTotal := Int(ChooseHintPlan(answer).hintTotal),
        HintAnswer := Text(answer), NextHintTs := FirstHintAt(answer, now)]
  }

  const HintOrder: seq<Column> := [HintLevel, NextHintTs]

  /** A hint was given (main.py:314-317). */
  function HintChanges(level: int, next: Value): (m: map<Column, Value>)
    requires next.Null? || next.Int?
  {
    map[HintLevel := Int(level), NextHintTs := next]
  }

  const WinOrder: seq<Column> := [WinnerUserId, DeadlineTs, NextHintTs]

  /** The winner is locked in and the timers stop (main.py:634). */
  function WinChanges(user: int): (m: map<Column, Value>)
  {
    map[WinnerUserId := Int(user), DeadlineTs := Null, NextHintTs := Null]
  }

  /** Each update is well typed and names exactly the columns of its keyword list. */
  lemma StartShape(tag: string, rounds: int, session: int)
    ensures Typed(StartChanges(tag, rounds, session))
    ensures forall c :: c in StartChanges(tag, rounds, session) <==> c in AllColumns
  {
  }

  lemma StopShape()
    ensures Typed(StopChanges()) && forall c :: c in StopChanges() <==> c in AllColumns
  {
  }

  lemma FinishShape()
    ensures Typed(FinishChanges()) && forall c :: c in FinishChanges() <==> c in FinishOrder
  {
  }

  lemma PostShape(q: Question, now: int, number: int)
    ensures Typed(PostChanges(q, now, number))
    ensures forall c :: c in PostChanges(q, now, number) <==> c in PostOrder
  {
  }

  lemma HintShape(level: int, next: Value)
    requires next.Null? || next.Int?
    ensures Typed(HintChanges(level, next)) && forall c :: c in HintChanges(level, next) <==> c in HintOrder
  {
  }

  lemma WinShape(user: int)
    ensures Typed(WinChanges(user)) && forall c :: c in WinChanges(user) <==> c in WinOrder
  {
  }

  // ----------------------------------------------------------------------
  // When the watchers act
  // ----------------------------------------------------------------------

  /** The guards of the hint watcher's body (main.py:282-286). */
  predicate HintActs(v: StateView, chat: Value, thread: Value, now: int) {
    v.active && Truthy(chat) && Truthy(thread)
    && v.winnerUserId == Null && Truthy(v.hintTotal) && Num(v.hintLevel) < Num(v.hintTotal)
    && Truthy(v.nextHintTs) && now >= Num(v.nextHintTs) && Truthy(v.hintAnswer)
  }

  /** The guards of the timeout watcher's body (main.py:329-331). */
  predicate TimeoutActs(v: StateView, chat: Value, thread: Value, now: int) {
    v.active && Truthy(chat) && Truthy(thread)
    && Truthy(v.deadlineTs) && now >= Num(v.deadlineTs) && v.winnerUserId == Null
  }

  /** Once a winner is locked in, neither watcher acts on the question, at any time. */
  lemma WinBlocksTicks(row: Row, user: int, chat: Value, thread: Value, now: int)
    requires Complete(row)
    ensures Complete(row + WinChanges(user))
    ensures !HintActs(View(Some(row + WinChanges(user))), chat, thread, now)
    ensures !TimeoutActs(View(Some(row + WinChanges(user))), chat, thread, now)
  {
  }

  /** Without a deadline (a finished or stopped game) the timeout watcher does not act. */
  lemma FinishBlocksTicks(row: Row, chat: Value, thread: Value, now: int)
    requires Complete(row)
    ensures Complete(row + FinishChanges())
    ensures !HintActs(View(Some(row + FinishChanges())), chat, thread, now)
    ensures !TimeoutActs(View(Some(row + FinishChanges())), chat, thread, now)
  {
  }

  /** After stop_quiz, get_state reads exactly as on a missing row. */
  lemma StopReadsAsBaseline(row: Row)
    requires Complete(row)
    ensures Complete(row + StopChanges())
    ensures View(Some(row + StopChanges())) == Baseline
  {
    StopCoversRow(row);
    var r := StopChanges();
    assert r[Active] == Int(0) && r[CurrentQid] == Null && r[WinnerUserId] == Null && r[DeadlineTs] == Null
      && r[Tag] == Text("all") && r[RoundTotal] == Null && r[RoundCurrent] == Int(0) && r[SessionId] == Null
      && r[HintLevel] == Int(0) && r[HintTotal] == Int(0) && r[HintAnswer] == Null && r[NextHintTs] == Null
      by { StopValues(); }
    BaselineValues(r);
  }

  lemma InAllColumns(c: Column)
    ensures c in AllColumns
  {
    match c
    case Active =>
    case CurrentQid =>
    case WinnerUserId =>
    case DeadlineTs =>
    case Tag =>
    case RoundTotal =>
    case RoundCurrent =>
    case SessionId =>
    case HintLevel =>
    case HintTotal =>
    case HintAnswer =>
    case NextHintTs =>
  }

  /** stop_quiz names every column, so nothing of the old row survives. */
  lemma StopCoversRow(row: Row)
    ensures Complete(StopChanges()) && row + StopChanges() == StopChanges()
  {
    forall c ensures c in StopChanges() {
      InAllColumns(c);
      StopShape();
    }
  }

  lemma StopValues()
    ensures var r := StopChanges();
      r[Active] == Int(0) && r[CurrentQid] == Null && r[WinnerUserId] == Null && r[DeadlineTs] == Null
      && r[Tag] == Text("all") && r[RoundTotal] == Null && r[RoundCurrent] == Int(0) && r[SessionId] == Null
      && r[HintLevel] == Int(0) && r[HintTotal] == Int(0) && r[HintAnswer] == Null && r[NextHintTs] == Null
  {
  }

  /** A row holding the values of the baseline reads as the baseline. */
  lemma BaselineValues(r: Row)
    requires Complete(r)
    requires r[Active] == Int(0) && r[CurrentQid] == Null && r[WinnerUserId] == Null && r[DeadlineTs] == Null
    requires r[Tag] == Text("all") && r[RoundTotal] == Null && r[RoundCurrent] == Int(0) && r[SessionId] == Null
    requires r[HintLevel] == Int(0) && r[HintTotal] == Int(0) && r[HintAnswer] == Null && r[NextHintTs] == Null
    ensures View(Some(r)) == Baseline
  {
  }

  // ----------------------------------------------------------------------
  // Counting rounds
  // ----------------------------------------------------------------------

  /** What post_next_question does: post question number n, or finish the game. */
  datatype Outcome = Posts(number: int) | Finishes

  /** `if total is not None and cur >= total` (main.py:225). */
  function PostOutcome(total: Value, cur: int): (o: Outcome)
    ensures o == Finishes <==> total != Null && cur >= Num(total)
    ensures o.Posts? ==> o.number == cur + 1
  {
    if total != Null && cur >= Num(total) then Finishes else Posts(cur + 1)
  }

  /**
   * The outcomes of `calls` calls of post_next_question in a row, starting
   * from round_current `cur`, every draw succeeding; only a posted question
   * moves round_current.
   */
  function {:induction false} Run(total: Value, cur: int, calls: nat): (r: seq<Outcome>)
    ensures |r| == calls
    decreases calls
  {
    if calls == 0 then []
    else match PostOutcome(total, cur)
      case Posts(n) => [Posts(n)] + Run(total, n, calls - 1)
      case Finishes => [Finishes] + Run(total, cur, calls - 1)
  }

  /** The questions 1 to R: a game of R rounds posts exactly these, then finishes. */
  function Numbered(from: int, count: nat): (r: seq<Outcome>)
    ensures |r| == count && forall i :: 0 <= i < count ==> r[i] == Posts(from + i)
  {
    seq(count, i => Posts(from + i))
  }

  lemma {:induction false} RunFrom(total: int, cur: int)
    requires 0 <= cur <= total
    ensures Run(Int(total), cur, total - cur + 1) == Numbered(cur + 1, total - cur) + [Finishes]
    decreases total - cur
  {
    if cur == total {
      assert Run(Int(total), cur, 1) == [Finishes] + Run(Int(total), cur, 0);
    } else {
      RunFrom(total, cur + 1);
      assert Numbered(cur + 1, total - cur) == [Posts(cur + 1)] + Numbered(cur + 2, total - cur - 1);
    }
  }

  /** Without a round total the counter only ever posts. */
  lemma {:induction false} RunUnbounded(cur: int, calls: nat)
    ensures Run(Null, cur, calls) == Numbered(cur + 1, calls)
    decreases calls
  {
    if calls > 0 {
      RunUnbounded(cur + 1, calls - 1);
      assert Numbered(cur + 1, calls) == [Posts(cur + 1)] + Numbered(cur + 2, calls - 1);
    }
  }

  // ----------------------------------------------------------------------
  // The invariant under each update
  // ----------------------------------------------------------------------

  predicate DistinctColumns(order: seq<Column>) {
    forall i, j :: 0 <= i < j < |order| ==> order[i] != order[j]
  }

  /** The position of a column in the table. */
  function Index(c: Column): (n: nat) {
    match c
    case Active => 0
    case CurrentQid => 1
    case WinnerUserId => 2
    case DeadlineTs => 3
    case Tag => 4
    case RoundTotal => 5
    case RoundCurrent => 6
    case SessionId => 7
    case HintLevel => 8
    case HintTotal => 9
    case HintAnswer => 10
    case NextHintTs => 11
  }

  /** An order whose columns stand at increasing table positions names no column twice. */
  lemma {:induction false} IncreasingDistinct(order: seq<Column>)
    requires forall i :: 0 <= i < |order| - 1 ==> Index(order[i]) < Index(order[i + 1])
    ensures DistinctColumns(order)
  {
    forall i, j | 0 <= i < j < |order| ensures Index(order[i]) < Index(order[j]) {
      IncreasingFrom(order, i, j);
    }
  }

  lemma {:induction false} IncreasingFrom(order: seq<Column>, i: int, j: int)
    requires forall k :: 0 <= k < |order| - 1 ==> Index(order[k]) < Index(order[k + 1])
    requires 0 <= i < j < |order|
    ensures Index(order[i]) < Index(order[j])
    decreases j - i
  {
    if j > i + 1 {
      IncreasingFrom(order, i, j - 1);
    }
  }

  lemma OrdersDistinct()
    ensures DistinctColumns(AllColumns) && DistinctColumns(FinishOrder) && DistinctColumns(PostOrder)
    ensures DistinctColumns(HintOrder) && DistinctColumns(WinOrder)
  {
    IncreasingDistinct(AllColumns);
    IncreasingDistinct(FinishOrder);
    IncreasingDistinct(PostOrder);
    IncreasingDistinct(HintOrder);
    IncreasingDistinct(WinOrder);
  }

  /** The row init_db inserts satisfies the invariant. */
  lemma FreshRowFits()
    ensures Complete(FreshRow) && Typed(FreshRow) && HintsInRange(FreshRow)
  {
    FreshRowComplete();
  }

  lemma StartKeepsHints(row: Row, tag: string, rounds: int, session: int)
    requires Complete(row)
    ensures Complete(row + StartChanges(tag, rounds, session))
    ensures HintsInRange(row + StartChanges(tag, rounds, session))
  {
  }

  lemma StopKeepsHints(row: Row)
    requires Complete(row)
    ensures Complete(row + StopChanges()) && HintsInRange(row + StopChanges())
  {
  }

  lemma FinishKeepsHints(row: Row)
    requires Complete(row) && HintsInRange(row)
    ensures Complete(row + FinishChanges()) && HintsInRange(row + FinishChanges())
  {
  }

  lemma PostKeepsHints(row: Row, q: Question, now: int, number: int)
    requires Complete(row)
    ensures Complete(row + PostChanges(q, now, number)) && HintsInRange(row + PostChanges(q, now, number))
  {
  }

  /** A hint tick raises hint_level by one, to at most hint_total. */
  lemma HintKeepsHints(row: Row, level: int, next: Value)
    requires Complete(row) && HintsInRange(row)
    requires next.Null? || next.Int?
    requires level == Num(row[HintLevel]) + 1 && level <= Num(row[HintTotal])
    ensures Complete(row + HintChanges(level, next)) && HintsInRange(row + HintChanges(level, next))
  {
  }

  lemma WinKeepsHints(row: Row, user: int)
    requires Complete(row) && HintsInRange(row)
    ensures Complete(row + WinChanges(user)) && HintsInRange(row + WinChanges(user))
  {
  }

  // ----------------------------------------------------------------------
  // The bot
  // ----------------------------------------------------------------------

  /** A message the bot posts in the topic. */
  datatype Post =
    | QuestionPost(number: int, rounds: Value, text: string)
    | HintPost(level: int, total: int, hint: string, points: int)
    | TimeUp(answer: string)
    | GameOver(rating: Option<seq<Rated>>)
    | Winner(name: string, points: int, hints: int, answer: string)
    | Skipping
    | NotRunning

  /** The answer the timeout announces: the hint answer, else the current question's first answer, else a dash. */
  function TimeoutAnswer(hintAnswer: Value, current: Option<Question>): (a: string)
    ensures Truthy(hintAnswer) && hintAnswer.Text? ==> a == hintAnswer.s
    ensures !Truthy(hintAnswer) && current.Some? && |current.value.answers| > 0 ==> a == current.value.answers[0]
    ensures !Truthy(hintAnswer) && (current.None? || |current.value.answers| == 0) ==> a == Dash
  {
    if Truthy(hintAnswer) && hintAnswer.Text? then hintAnswer.s
    else if current.Some? && |current.value.answers| > 0 then current.value.answers[0]
    else Dash
  }

  /** The event a correct answer is recorded with: the points of the hints so far, in the game's session or 0. */
  function AwardEvent(row: Row, chat: int, thread: int, user: int, now: int): (e: Event)
    requires Complete(row)
    ensures e.delta == PointsForHintLevel(Num(row[HintLevel])) && MinPoints <= e.delta
    ensures Num(row[HintLevel]) >= 0 ==> e.delta <= MaxPoints
    ensures e.sessionId == Num(row[SessionId]) && e.reason == "correct"
    ensures (e.ts, e.chatId, e.threadId, e.userId) == (now, chat, thread, user)
  {
    Event(now, chat, thread, Num(row[SessionId]), user, PointsForHintLevel(Num(row[HintLevel])), "correct")
  }

  /** end_session on a session table. */
  function Ended(sessions: map<int, Session>, id: int, now: int): (r: map<int, Session>)
    ensures r.Keys == sessions.Keys
    ensures id in sessions ==> r[id] == sessions[id].(endedAt := Some(now))
    ensures forall k :: k in sessions && k != id ==> r[k] == sessions[k]
  {
    if id in sessions then sessions[id := sessions[id].(endedAt := Some(now))] else sessions
  }

  /** `if session_id:` on a stored session id. */
  function SessionOf(v: Value): (r: Option<int>)
    ensures r.Some? <==> v.Int? && v.i != 0
    ensures r.Some? ==> r.value == v.i
  {
    if Truthy(v) && v.Int? then Some(v.i) else None
  }

  /** The session table after end_session on the game's session, if it has one. */
  function EndedIf(sessions: map<int, Session>, session: Option<int>, now: int): map<int, Session> {
    match session
    case None => sessions
    case Some(id) => Ended(sessions, id, now)
  }

  /** The end-of-game post: with the session's rating of ten exactly when the game had a session. */
  ghost predicate GameOverPost(p: Post, session: Option<int>, sessionScores: map<(int, int), int>,
                               users: map<(int, int), User>, chat: int) {
    p.GameOver? && (p.rating.Some? <==> session.Some?)
    && (p.rating.Some? ==> Rating(p.rating.value, SessionPoints(sessionScores, session.value), users, chat, 10))
  }

  /** The row after a question is posted as number `number`. */
  ghost predicate Posted(before: Row, after: Row, q: Question, now: int, number: int) {
    after == before + PostChanges(q, now, number)
  }

  /** What post_next_question does on a state row. */
  function OutcomeOf(row: Row): (o: Outcome)
    requires Complete(row)
    ensures o == Finishes <==> row[RoundTotal] != Null && Num(row[RoundCurrent]) >= Num(row[RoundTotal])
    ensures o.Posts? ==> o.number == Num(row[RoundCurrent]) + 1
  {
    PostOutcome(row[RoundTotal], Num(row[RoundCurrent]))
  }

  /**
   * What one post_next_question does to the state row: finish the game, or
   * post the next question when one was drawn (a failed draw changes nothing).
   */
  ghost predicate PostStep(before: Row, after: Row, drawn: Result<Question>, now: int)
    requires Complete(before)
  {
    match OutcomeOf(before)
    case Finishes => after == before + FinishChanges()
    case Posts(n) =>
      (drawn.Ok? ==> Posted(before, after, drawn.value, now, n))
      && (drawn.Err? ==> after == before)
  }

  /** A game started with at least one round posts question 1 next. */
  lemma StartsAtFirstRound(row: Row, tag: string, rounds: int, session: int)
    requires Complete(row)
    ensures Complete(row + StartChanges(tag, rounds, session))
    ensures rounds >= 1 ==> OutcomeOf(row + StartChanges(tag, rounds, session)) == Posts(1)
  {
  }

  lemma PostStepOfPost(before: Row, after: Row, drawn: Result<Question>, now: int, n: int)
    requires Complete(before) && OutcomeOf(before) == Posts(n)
    requires drawn.Ok? ==> Posted(before, after, drawn.value, now, n)
    requires drawn.Err? ==> after == before
    ensures PostStep(before, after, drawn, now)
  {
  }

  lemma PostStepOfFinish(before: Row, after: Row, drawn: Result<Question>, now: int)
    requires Complete(before) && OutcomeOf(before) == Finishes
    requires after == before + FinishChanges()
    ensures PostStep(before, after, drawn, now)
  {
  }

  // ----------------------------------------------------------------------
  // Rounds on the state row
  // ----------------------------------------------------------------------

  /** Two rows agree on round_current and round_total. */
  predicate SameRounds(a: Row, b: Row)
    requires Complete(a) && Complete(b)
  {
    a[RoundCurrent] == b[RoundCurrent] && a[RoundTotal] == b[RoundTotal]
  }

  /**
   * The state rows of a game between successive post_next_question calls:
   * `rows[i]` is the row the i-th post left (the start row for i = 0), then
   * whatever happens before the next call (hint ticks, a win lock) leads to
   * `mids[i]` without touching the round fields, and the next call, drawing
   * `draws[i]` at `times[i]`, turns `mids[i]` into `rows[i + 1]`.
   */
  ghost predicate GameChain(rows: seq<Row>, mids: seq<Row>, draws: seq<Question>, times: seq<int>) {
    |rows| == |draws| + 1 && |mids| == |draws| && |times| == |draws|
    && forall i :: 0 <= i < |draws| ==>
         Complete(rows[i]) && Complete(mids[i]) && SameRounds(rows[i], mids[i])
         && PostStep(mids[i], rows[i + 1], Ok(draws[i]), times[i])
  }

  /** What each call of a chain does: the outcome read off the row before it. */
  function Outcomes(rows: seq<Row>): (r: seq<Outcome>)
    requires |rows| > 0 && forall i :: 0 <= i < |rows| ==> Complete(rows[i])
    ensures |r| == |rows| - 1
  {
    seq(|rows| - 1, i requires 0 <= i < |rows| - 1 => OutcomeOf(rows[i]))
  }

  /** A post writes its number into round_current and leaves round_total alone. */
  lemma PostAdvances(before: Row, q: Question, now: int, n: int)
    requires Complete(before)
    ensures Complete(before + PostChanges(q, now, n))
    ensures (before + PostChanges(q, now, n))[RoundCurrent] == Int(n)
    ensures (before + PostChanges(q, now, n))[RoundTotal] == before[RoundTotal]
    ensures OutcomeOf(before + PostChanges(q, now, n)) == PostOutcome(before[RoundTotal], n)
  {
  }

  /** Finishing leaves both round fields alone, so a finished game stays finished, and deactivates it. */
  lemma FinishStays(before: Row)
    requires Complete(before)
    ensures Complete(before + FinishChanges())
    ensures (before + FinishChanges())[RoundCurrent] == before[RoundCurrent]
    ensures (before + FinishChanges())[RoundTotal] == before[RoundTotal]
    ensures (before + FinishChanges())[Active] == Int(0)
  {
  }

  /** A hint or a win between two posts leaves the round count alone. */
  lemma TicksKeepRounds(row: Row, level: int, next: Value, user: int)
    requires Complete(row) && (next.Null? || next.Int?)
    ensures Complete(row + HintChanges(level, next)) && SameRounds(row, row + HintChanges(level, next))
    ensures OutcomeOf(row + HintChanges(level, next)) == OutcomeOf(row)
    ensures Complete(row + WinChanges(user)) && SameRounds(row, row + WinChanges(user))
    ensures OutcomeOf(row + WinChanges(user)) == OutcomeOf(row)
  {
  }

  /** One post_next_question step with a successful draw is one step of the counter Run. */
  lemma StepFollowsRun(before: Row, after: Row, q: Question, now: int, calls: nat)
    requires Complete(before) && PostStep(before, after, Ok(q), now)
    ensures Complete(after)
    ensures Run(before[RoundTotal], Num(before[RoundCurrent]), calls + 1)
         == [OutcomeOf(before)] + Run(after[RoundTotal], Num(after[RoundCurrent]), calls)
  {
    match OutcomeOf(before) {
      case Posts(n) =>
        PostAdvances(before, q, now, n);
      case Finishes =>
        FinishStays(before);
    }
  }

  /** The posts of a game on the state row meet exactly the outcomes of the counter Run. */
  lemma {:induction false} ChainFollowsRun(rows: seq<Row>, mids: seq<Row>, draws: seq<Question>, times: seq<int>)
    requires GameChain(rows, mids, draws, times) && Complete(rows[0])
    ensures forall i :: 0 <= i < |rows| ==> Complete(rows[i])
    ensures Outcomes(rows) == Run(rows[0][RoundTotal], Num(rows[0][RoundCurrent]), |draws|)
    decreases |draws|
  {
    if draws != [] {
      ChainHead(rows, mids, draws, times);
      ChainTail(rows, mids, draws, times);
      ChainFollowsRun(rows[1..], mids[1..], draws[1..], times[1..]);
      OutcomesCons(rows);
    }
  }

  /** The first call of a game is one step of Run from the first row. */
  lemma ChainHead(rows: seq<Row>, mids: seq<Row>, draws: seq<Question>, times: seq<int>)
    requires GameChain(rows, mids, draws, times) && draws != []
    ensures Complete(rows[0]) && Complete(rows[1])
    ensures Run(rows[0][RoundTotal], Num(rows[0][RoundCurrent]), |draws|)
         == [OutcomeOf(rows[0])] + Run(rows[1][RoundTotal], Num(rows[1][RoundCurrent]), |draws| - 1)
  {
    assert Complete(rows[0]) && Complete(mids[0]) && SameRounds(rows[0], mids[0]);
    StepFollowsRun(mids[0], rows[1], draws[0], times[0], |draws| - 1);
  }

  lemma ChainTail(rows: seq<Row>, mids: seq<Row>, draws: seq<Question>, times: seq<int>)
    requires GameChain(rows, mids, draws, times) && draws != []
    ensures GameChain(rows[1..], mids[1..], draws[1..], times[1..])
  {
    forall i | 0 <= i < |draws| - 1
      ensures Complete(rows[1..][i]) && Complete(mids[1..][i]) && SameRounds(rows[1..][i], mids[1..][i])
      ensures PostStep(mids[1..][i], rows[1..][i + 1], Ok(draws[1..][i]), times[1..][i])
    {
      assert rows[1..][i] == rows[i + 1] && rows[1..][i + 1] == rows[i + 2];
      assert mids[1..][i] == mids[i + 1] && draws[1..][i] == draws[i + 1] && times[1..][i] == times[i + 1];
    }
  }

  lemma OutcomesCons(rows: seq<Row>)
    requires |rows| > 1 && forall i :: 0 <= i < |rows| ==> Complete(rows[i])
    ensures Outcomes(rows) == [OutcomeOf(rows[0])] + Outcomes(rows[1..])
  {
    assert forall i :: 0 <= i < |rows| - 1 ==> rows[1..][i] == rows[i + 1];
  }

  /** The call of a game that posts question n leaves round_current at n. */
  lemma ChainPostNumber(rows: seq<Row>, mids: seq<Row>, draws: seq<Question>, times: seq<int>, i: int, n: int)
    requires GameChain(rows, mids, draws, times) && 0 <= i < |draws|
    requires OutcomeOf(rows[i]) == Posts(n)
    ensures rows[i + 1][RoundCurrent] == Int(n)
  {
    assert SameRounds(rows[i], mids[i]) && PostStep(mids[i], rows[i + 1], Ok(draws[i]), times[i]);
    PostAdvances(mids[i], draws[i], times[i], n);
  }

  /** The call of a game that finishes leaves the game inactive. */
  lemma ChainFinishes(rows: seq<Row>, mids: seq<Row>, draws: seq<Question>, times: seq<int>, i: int)
    requires GameChain(rows, mids, draws, times) && 0 <= i < |draws|
    requires OutcomeOf(rows[i]) == Finishes
    ensures rows[i + 1][Active] == Int(0)
  {
    assert SameRounds(rows[i], mids[i]) && PostStep(mids[i], rows[i + 1], Ok(draws[i]), times[i]);
    FinishStays(mids[i]);
  }

  /**
   * A game started with R >= 1 rounds posts exactly the questions 1 to R,
   * question i leaving round_current at i, and the call after them ends the
   * game, whatever hints and wins happen between the calls.
   */
  lemma RoundsPostExactly(row: Row, tag: string, rounds: int, session: int,
                          rows: seq<Row>, mids: seq<Row>, draws: seq<Question>, times: seq<int>)
    requires Complete(row) && rounds >= 1
    requires GameChain(rows, mids, draws, times) && |draws| == rounds + 1
    requires rows[0] == row + StartChanges(tag, rounds, session)
    ensures forall i :: 0 <= i < |rows| ==> Complete(rows[i])
    ensures Outcomes(rows) == Numbered(1, rounds) + [Finishes]
    ensures forall i :: 1 <= i <= rounds ==> rows[i][RoundCurrent] == Int(i)
    ensures rows[rounds + 1][Active] == Int(0)
  {
    StartsAtFirstRound(row, tag, rounds, session);
    ChainFollowsRun(rows, mids, draws, times);
    RunFrom(rounds, 0);
    var outcomes := Outcomes(rows);
    forall i | 1 <= i <= rounds
      ensures rows[i][RoundCurrent] == Int(i)
    {
      assert outcomes[i - 1] == Posts(i);
      ChainPostNumber(rows, mids, draws, times, i - 1, i);
    }
    assert outcomes[rounds] == Finishes;
    ChainFinishes(rows, mids, draws, times, rounds);
  }

  /** A game without a round total never finishes by itself: every call posts the next number. */
  lemma UnboundedNeverFinishes(rows: seq<Row>, mids: seq<Row>, draws: seq<Question>, times: seq<int>)
    requires GameChain(rows, mids, draws, times) && Complete(rows[0]) && rows[0][RoundTotal] == Null
    ensures forall i :: 0 <= i < |rows| ==> Complete(rows[i])
    ensures Outcomes(rows) == Numbered(Num(rows[0][RoundCurrent]) + 1, |draws|)
  {
    ChainFollowsRun(rows, mids, draws, times);
    RunUnbounded(Num(rows[0][RoundCurrent]), |draws|);
  }

  /** When the next hint is due after hint `level` of `total`: one interval on, none after the last. */
  function NextHintAt(answer: string, level: int, total: int, now: int): (v: Value)
    ensures v.Null? || v.Int?
    ensures v != Null <==> level < total
    ensures level < total ==> v == Int(now + ChooseHintPlan(answer).intervalSec)
  {
    if level < total then Int(now + ChooseHintPlan(answer).intervalSec) else Null
  }

  /**
   * One hint given on the row `before` (main.py:286-320): the next level, at
   * most the total the answer's plan gives, is posted with the hint text and
   * the points it leaves; the level is stored with the time of the next hint.
   */
  ghost predicate HintGiven(shuffle: (string, Value) -> seq<nat>, before: Row, after: Row, posted: Post, now: int)
    requires Complete(before)
  {
    var level := Num(before[HintLevel]) + 1;
    var total := Num(before[HintTotal]);
    before[HintAnswer].Text? && 0 < level <= total
    && total == ChooseHintPlan(before[HintAnswer].s).hintTotal
    && after == before + HintChanges(level, NextHintAt(before[HintAnswer].s, level, total, now))
    && posted == HintPost(level, total, HintText(shuffle, before[HintAnswer].s, Or(before[CurrentQid], Int(0)), level, total),
                          PointsForHintLevel(level))
  }

  /** The checks of on_text_answer before a correct answer counts (main.py:613-628). */
  predicate Accepted(row: Row, current: Option<Question>, text: string)
    requires Complete(row)
  {
    Truthy(row[Active]) && row[WinnerUserId] == Null && current.Some?
    && |Normalize(text)| >= 1 && CheckAnswer(current.value, text)
  }

  /**
   * The credit of a correct answer on the row `before` (main.py:629-642): the
   * same points in the all-time table, in the session table for a real
   * session, and in one new event.
   */
  ghost predicate Credited(before: Row, chat: int, thread: int, user: int, now: int,
                           scores: map<(int, int, int), int>, scores': map<(int, int, int), int>,
                           sessionScores: map<(int, int), int>, sessionScores': map<(int, int), int>,
                           events: seq<Event>, events': seq<Event>)
    requires Complete(before)
  {
    var e := AwardEvent(before, chat, thread, user, now);
    scores' == Accumulate(scores, (chat, thread, user), e.delta)
    && sessionScores' == SessionCredit(sessionScores, e)
    && events' == events + [e]
  }

  /** What the bot keeps true of the state row and the score tables. */
  ghost predicate Inv(row: Row, scores: map<(int, int, int), int>, sessionScores: map<(int, int), int>, events: seq<Event>) {
    Complete(row) && Typed(row) && HintsInRange(row) && Ledger(scores, sessionScores, events)
  }

  class QuizBot {
    const db: Database
    const engine: QuizEngine
    /** shuffled_alnum_positions: random.Random(seed).shuffle over an answer's letter and digit positions. */
    const shuffle: (string, Value) -> seq<nat>
    /** current_question, held in memory only. */
    var current: Option<Question>
    var log: seq<Post>

    ghost predicate Valid()
      reads db, engine
    {
      db.Valid() && engine.Valid() && IsShuffle(shuffle)
      && Inv(db.state[1], db.scores, db.sessionScores, db.events)
    }


    /** The session part of the end of a game: a game with a session ends it and posts its rating of ten. */
    method EndAndRate(chat: int, now: int, session: Option<int>)
      requires Valid()
      modifies this, db
      ensures Valid()
      ensures db.sessions == EndedIf(old(db.sessions), session, now)
      ensures |log| == |old(log)| + 1 && log[..|old(log)|] == old(log)
      ensures GameOverPost(log[|old(log)|], session, db.sessionScores, db.users, chat)
      ensures db.config == old(db.config) && db.users == old(db.users) && db.scores == old(db.scores)
      ensures db.sessionScores == old(db.sessionScores) && db.lastSessionId == old(db.lastSessionId)
      ensures db.events == old(db.events) && current == old(current) && db.state == old(db.state)
    {
      if session.Some? {
        db.EndSession(session.value, now);
        var rows := db.TopSession(session.value, chat, 10);
        log := log + [GameOver(Some(rows))];
      } else {
        log := log + [GameOver(None)];
      }
    }


    /**
     * What one post_next_question did, started from the row `before`, the
     * current question `cur`, the log `told`, the session table `sessions` and
     * the tag bags `bags`: the row took one PostStep; a finished game kept the
     * bags and the current question, ended its session and posted the end; a
     * posted round drew from the "all" bag, kept the sessions and, when a
     * question was drawn, made it the current one and posted it under its
     * number; a failed draw changed neither the current question nor the log.
     */
    ghost predicate NextPosted(chat: int, now: int, before: Row, cur: Option<Question>, told: seq<Post>,
                               sessions: map<int, Session>, bags: map<string, seq<string>>,
                               drawn: Result<Question>, shuffled: seq<string>)
      requires db.Valid() && Complete(before)
      reads this, db, engine
    {
      PostStep(before, db.Row(), drawn, now)
      && |log| >= |told| && log[..|told|] == told
      && (OutcomeOf(before).Finishes? ==>
            engine.bagByTag == bags && current == cur
            && db.sessions == EndedIf(sessions, SessionOf(before[SessionId]), now)
            && |log| == |told| + 1
            && GameOverPost(log[|told|], SessionOf(before[SessionId]), db.sessionScores, db.users, chat))
      && (OutcomeOf(before).Posts? ==>
            TagDraw(engine.questions, engine.byId, bags, engine.bagByTag, "all", shuffled, drawn)
            && db.sessions == sessions
            && (drawn.Err? ==> current == cur && log == told)
            && (drawn.Ok? ==>
                  current == Some(drawn.value)
                  && log == told + [QuestionPost(OutcomeOf(before).number, before[RoundTotal], drawn.value.text)]))
    }

    /** The bot's start: init_db on an empty database and the questions loaded from the files. */
    constructor (files: seq<SourceFile>, shuffle: (string, Value) -> seq<nat>)
      requires IsShuffle(shuffle)
      ensures Valid() && fresh(db) && fresh(engine)
      ensures db.Row() == FreshRow && engine.questions == Catalog(files)
      ensures current == None && log == [] && this.shuffle == shuffle
    {
      db := new Database();
      engine := new QuizEngine(files);
      this.shuffle := shuffle;
      current, log := None, [];
      EmptyLedger();
      FreshRowFits();
    }

    /** set_state with the keyword list of a change map; none of the bot's calls fails. */
    method Apply(order: seq<Column>, m: map<Column, Value>)
      requires Valid()
      requires order != [] && DistinctColumns(order) && (forall c :: c in m <==> c in order)
      requires Active in m ==> m[Active] != Null
      requires Typed(m) && Complete(db.Row() + m) && HintsInRange(db.Row() + m)
      modifies db
      ensures Valid()
      ensures db.Row() == old(db.Row()) + m
      ensures db.config == old(db.config) && db.users == old(db.users) && db.scores == old(db.scores)
      ensures db.sessionScores == old(db.sessionScores) && db.sessions == old(db.sessions)
      ensures db.lastSessionId == old(db.lastSessionId) && db.events == old(db.events)
    {
      KwOfApplies(db.Row(), order, m);
      TypedUpdate(db.Row(), m);
      var _ := db.SetState(KwOf(order, m));
    }
 
    /**
     * The last round is over (main.py:225-236): active is cleared with the
     * deadline and the hint time; a game with a session ends it and posts its
     * rating of ten, one without a session posts only the end.
     */
    method FinishGame(chat: int, now: int)
      requires Valid()
      modifies this, db
      ensures Valid()
      ensures db.Row() == old(db.Row()) + FinishChanges()
      ensures db.sessions == EndedIf(old(db.sessions), SessionOf(old(db.Row())[SessionId]), now)
      ensures |log| == |old(log)| + 1 && log[..|old(log)|] == old(log)
      ensures GameOverPost(log[|old(log)|], SessionOf(old(db.Row())[SessionId]), db.sessionScores, db.users, chat)
      ensures db.config == old(db.config) && db.users == old(db.users) && db.scores == old(db.scores)
      ensures db.sessionScores == old(db.sessionScores) && db.lastSessionId == old(db.lastSessionId)
      ensures db.events == old(db.events) && current == old(current)
    {
      var st := db.GetState();
      var session := SessionOf(st.sessionId);
      FinishShape();
      OrdersDistinct();
      FinishKeepsHints(db.Row());
      Apply(FinishOrder, FinishChanges());
      EndAndRate(chat, now, session);
    }

    /**
     * Another round (main.py:238-273): one draw from the "all" scope, since
     * get_state has no category; the question becomes the current one and is
     * posted under the next number with a fresh deadline and hint plan.
     */
    method AskNext(now: int, number: int, total: Value) returns (drawn: Result<Question>, ghost shuffled: seq<string>)
      requires Valid()
      modifies this, db, engine
      ensures Valid()
      ensures engine.questions == old(engine.questions) && engine.byId == old(engine.byId)
      ensures engine.bagByCategory == old(engine.bagByCategory)
      ensures TagDraw(engine.questions, engine.byId, old(engine.bagByTag), engine.bagByTag, "all", shuffled, drawn)
      ensures drawn.Err? ==> (db.Row() == old(db.Row()) && current == old(current) && log == old(log))
      ensures drawn.Ok? ==>
        (Posted(old(db.Row()), db.Row(), drawn.value, now, number) && current == Some(drawn.value)
         && log == old(log) + [QuestionPost(number, total, drawn.value.text)])
      ensures db.config == old(db.config) && db.users == old(db.users) && db.scores == old(db.scores)
      ensures db.sessionScores == old(db.sessionScores) && db.sessions == old(db.sessions)
      ensures db.lastSessionId == old(db.lastSessionId) && db.events == old(db.events)
    {
      ghost var fallback;
      drawn, shuffled, fallback := engine.NextQuestion("all", None);
      if drawn.Ok? {
        Announce(drawn.value, now, number, total);
      }
    }

    /**
     * post_next_question (main.py:216-273): the last round over, the game
     * finishes; otherwise the next question is drawn and posted. A failed
     * draw (no question at all) propagates and changes nothing else.
     */
    method PostNextQuestion(chat: int, now: int) returns (r: Result<()>, ghost drawn: Result<Question>, ghost shuffled: seq<string>)
      requires Valid()
      modifies this, db, engine
      ensures Valid()
      ensures NextPosted(chat, now, old(db.Row()), old(current), old(log), old(db.sessions), old(engine.bagByTag), drawn, shuffled)
      ensures r == if OutcomeOf(old(db.Row())).Posts? && drawn.Err? then Err(drawn.error) else Ok(())
      ensures engine.questions == old(engine.questions) && engine.byId == old(engine.byId)
      ensures engine.bagByCategory == old(engine.bagByCategory)
      ensures db.config == old(db.config) && db.users == old(db.users) && db.scores == old(db.scores)
      ensures db.sessionScores == old(db.sessionScores) && db.lastSessionId == old(db.lastSessionId)
      ensures db.events == old(db.events)
    {
      var st := db.GetState();
      var total := st.roundTotal;
      var cur := Num(st.roundCurrent);
      assert total == db.Row()[RoundTotal] && cur == Num(db.Row()[RoundCurrent]);
      r, drawn, shuffled := Proceed(chat, now, cur, total);
    }

    /** post_next_question once round_current and round_total are read (main.py:225-273). */
    method Proceed(chat: int, now: int, cur: int, total: Value) returns (r: Result<()>, ghost drawn: Result<Question>, ghost shuffled: seq<string>)
      requires Valid()
      requires cur == Num(db.Row()[RoundCurrent]) && total == db.Row()[RoundTotal]
      modifies this, db, engine
      ensures Valid()
      ensures NextPosted(chat, now, old(db.Row()), old(current), old(log), old(db.sessions), old(engine.bagByTag), drawn, shuffled)
      ensures r == if OutcomeOf(old(db.Row())).Posts? && drawn.Err? then Err(drawn.error) else Ok(())
      ensures engine.questions == old(engine.questions) && engine.byId == old(engine.byId)
      ensures engine.bagByCategory == old(engine.bagByCategory)
      ensures db.config == old(db.config) && db.users == old(db.users) && db.scores == old(db.scores)
      ensures db.sessionScores == old(db.sessionScores) && db.lastSessionId == old(db.lastSessionId)
      ensures db.events == old(db.events)
    {
      ghost var row := db.Row();
      var o := PostOutcome(total, cur);
      assert o == OutcomeOf(row);
      match o
      case Finishes =>
        FinishGame(chat, now);
        r, drawn, shuffled := Ok(()), Err(EmptyScope), [];
        PostStepOfFinish(row, db.Row(), drawn, now);
      case Posts(n) =>
        var next;
        next, shuffled := AskNext(now, n, total);
        drawn := next;
        r := if next.Ok? then Ok(()) else Err(next.error);
        assert log[..|old(log)|] == old(log);
        PostStepOfPost(row, db.Row(), drawn, now, n);
    }

    /**
     * A drawn question becomes the current one and is posted as number
     * `number` of `total`; PostChanges holds the deadline, the display answer
     * and its hint plan.
     */
    method Announce(q: Question, now: int, number: int, total: Value)
      requires Valid()
      modifies this, db
      ensures Valid()
      ensures Posted(old(db.Row()), db.Row(), q, now, number)
      ensures current == Some(q) && log == old(log) + [QuestionPost(number, total, q.text)]
      ensures db.config == old(db.config) && db.users == old(db.users) && db.scores == old(db.scores)
      ensures db.sessionScores == old(db.sessionScores) && db.sessions == old(db.sessions)
      ensures db.lastSessionId == old(db.lastSessionId) && db.events == old(db.events)
    {
      current := Some(q);
      PostShape(q, now, number);
      OrdersDistinct();
      PostKeepsHints(db.Row(), q, now, number);
      Apply(PostOrder, PostChanges(q, now, number));
      log := log + [QuestionPost(number, total, q.text)];
    }

    /**
     * start_quiz (main.py:179-195): a new session, every column set for the
     * first round (the counter at 0, no hints yet), then post_next_question.
     */
    method StartQuiz(chat: int, thread: int, tag: string, rounds: int, now: int)
      returns (r: Result<()>, session: int, ghost started: Row, ghost drawn: Result<Question>, ghost shuffled: seq<string>)
      requires Valid()
      modifies this, db, engine
      ensures Valid()
      ensures session !in old(db.sessions) && session >= 1 && db.lastSessionId == session
      ensures started == old(db.Row()) + StartChanges(tag, rounds, session) && Complete(started)
      ensures rounds >= 1 ==> OutcomeOf(started) == Posts(1)
      ensures NextPosted(chat, now, started, old(current), old(log),
                         old(db.sessions)[session := Session(chat, thread, tag, rounds, now, None)],
                         old(engine.bagByTag), drawn, shuffled)
      ensures r == if OutcomeOf(started).Posts? && drawn.Err? then Err(drawn.error) else Ok(())
      ensures rounds >= 1 ==> db.sessions == old(db.sessions)[session := Session(chat, thread, tag, rounds, now, None)]
      ensures engine.questions == old(engine.questions) && engine.byId == old(engine.byId)
      ensures engine.bagByCategory == old(engine.bagByCategory)
      ensures db.config == old(db.config) && db.users == old(db.users) && db.scores == old(db.scores)
      ensures db.sessionScores == old(db.sessionScores) && db.events == old(db.events)
    {
      session := db.CreateSession(chat, thread, tag, rounds, now);
      StartShape(tag, rounds, session);
      OrdersDistinct();
      StartKeepsHints(db.Row(), tag, rounds, session);
      Apply(AllColumns, StartChanges(tag, rounds, session));
      started := db.Row();
      StartsAtFirstRound(old(db.Row()), tag, rounds, session);
      r, drawn, shuffled := PostNextQuestion(chat, now);
    }

    /**
     * stop_quiz (main.py:197-214): the game's session, if any, is ended; then
     * every column goes back to the value a fresh row reads as.
     */
    method StopQuiz(now: int)
      requires Valid()
      modifies db
      ensures Valid()
      ensures db.Row() == old(db.Row()) + StopChanges() && View(Some(db.Row())) == Baseline
      ensures db.sessions == EndedIf(old(db.sessions), SessionOf(old(db.Row())[SessionId]), now)
      ensures db.config == old(db.config) && db.users == old(db.users) && db.scores == old(db.scores)
      ensures db.sessionScores == old(db.sessionScores) && db.lastSessionId == old(db.lastSessionId)
      ensures db.events == old(db.events)
    {
      var st := db.GetState();
      var session := SessionOf(st.sessionId);
      if session.Some? {
        db.EndSession(session.value, now);
      }
      StopShape();
      OrdersDistinct();
      StopKeepsHints(db.Row());
      StopReadsAsBaseline(db.Row());
      Apply(AllColumns, StopChanges());
    }

    /**
     * /skip (main.py:523-529): without a running game only a notice; otherwise
     * the next question, posted at `now`, the time after the one-second pause
     * of main.py:528.
     */
    method Skip(chat: int, now: int) returns (ghost drawn: Result<Question>, ghost shuffled: seq<string>)
      requires Valid()
      modifies this, db, engine
      ensures Valid()
      ensures !Truthy(old(db.Row())[Active]) ==>
        (log == old(log) + [NotRunning] && db.Row() == old(db.Row()) && db.sessions == old(db.sessions)
         && current == old(current) && engine.bagByTag == old(engine.bagByTag))
      ensures Truthy(old(db.Row())[Active]) ==>
        NextPosted(chat, now, old(db.Row()), old(current), old(log) + [Skipping], old(db.sessions),
                   old(engine.bagByTag), drawn, shuffled)
      ensures engine.questions == old(engine.questions) && engine.byId == old(engine.byId)
      ensures engine.bagByCategory == old(engine.bagByCategory)
      ensures db.config == old(db.config) && db.users == old(db.users) && db.scores == old(db.scores)
      ensures db.sessionScores == old(db.sessionScores) && db.events == old(db.events)
      ensures db.lastSessionId == old(db.lastSessionId)
    {
      var st := db.GetState();
      if !st.active {
        log := log + [NotRunning];
        drawn, shuffled := Err(EmptyScope), [];
        return;
      }
      log := log + [Skipping];
      var posted;
      posted, drawn, shuffled := PostNextQuestion(chat, now);
    }

    /**
     * The body of the hint watcher (main.py:277-320): with the game running
     * in a bound topic, no winner yet, hints left and the next one due, one
     * hint is given; otherwise nothing changes.
     */
    method HintTick(now: int) returns (acted: bool)
      requires Valid()
      modifies this, db
      ensures Valid()
      ensures acted <==> HintActs(View(Some(old(db.Row()))), db.config[1].allowedChatId, db.config[1].allowedThreadId, now)
      ensures !acted ==> db.Row() == old(db.Row()) && log == old(log)
      ensures acted ==>
        (|log| == |old(log)| + 1 && log[..|old(log)|] == old(log)
         && HintGiven(shuffle, old(db.Row()), db.Row(), log[|old(log)|], now))
      ensures db.config == old(db.config) && db.users == old(db.users) && db.scores == old(db.scores)
      ensures db.sessionScores == old(db.sessionScores) && db.sessions == old(db.sessions)
      ensures db.lastSessionId == old(db.lastSessionId) && db.events == old(db.events) && current == old(current)
    {
      var st := db.GetState();
      var chat, thread := db.GetTopic();
      acted := false;
      if st.active && Truthy(chat) && Truthy(thread) {
        if st.winnerUserId == Null && Truthy(st.hintTotal) && Num(st.hintLevel) < Num(st.hintTotal) {
          var nht := st.nextHintTs;
          if Truthy(nht) && now >= Num(nht) && Truthy(st.hintAnswer) {
            GiveHint(now, Num(st.hintLevel) + 1, Num(st.hintTotal), st.hintAnswer.s, Or(st.currentQid, Int(0)));
            acted := true;
          }
        }
      }
    }

    /**
     * The hint message (main.py:286-300): the positions of the answer's
     * letters and digits in the order seeded by the question id, as many of
     * them revealed as the level's share of the total calls for.
     */
    method HintMessage(level: nat, total: nat, answer: string, seed: Value) returns (p: Post)
      ensures p == HintPost(level, total, HintText(shuffle, answer, seed, level, total), PointsForHintLevel(level))
    {
      var order := shuffle(answer, seed);
      var k := RevealCount(|order|, level, total);
      var text := MakeHintRandom(answer, RevealSet(order, k));
      p := HintPost(level, total, text, PointsForHintLevel(level));
    }

    /** Hint `level` of `total` on the answer: posted, then stored with the time of the next one. */
    method GiveHint(now: int, level: int, total: int, answer: string, seed: Value)
      requires Valid()
      requires level == Num(db.Row()[HintLevel]) + 1 && level <= total && total == Num(db.Row()[HintTotal])
      requires db.Row()[HintAnswer] == Text(answer) && seed == Or(db.Row()[CurrentQid], Int(0))
      modifies this, db
      ensures Valid()
      ensures |log| == |old(log)| + 1 && log[..|old(log)|] == old(log)
      ensures HintGiven(shuffle, old(db.Row()), db.Row(), log[|old(log)|], now)
      ensures db.config == old(db.config) && db.users == old(db.users) && db.scores == old(db.scores)
      ensures db.sessionScores == old(db.sessionScores) && db.sessions == old(db.sessions)
      ensures db.lastSessionId == old(db.lastSessionId) && db.events == old(db.events) && current == old(current)
    {
      var p := HintMessage(level, total, answer, seed);
      log := log + [p];
      var next := NextHintAt(answer, level, total, now);
      HintShape(level, next);
      OrdersDistinct();
      HintKeepsHints(db.Row(), level, next);
      Apply(HintOrder, HintChanges(level, next));
    }

    /**
     * The body of the timeout watcher (main.py:326-339): with the game
     * running in a bound topic, the deadline passed and no winner, the answer
     * is posted and, after the pause (ending at `resumedAt`), the next question.
     */
    method TimeoutTick(now: int, resumedAt: int) returns (acted: bool, ghost drawn: Result<Question>, ghost shuffled: seq<string>)
      requires Valid()
      modifies this, db, engine
      ensures Valid()
      ensures acted <==> TimeoutActs(View(Some(old(db.Row()))), old(db.config)[1].allowedChatId, old(db.config)[1].allowedThreadId, now)
      ensures !acted ==>
        (db.Row() == old(db.Row()) && log == old(log) && current == old(current) && db.sessions == old(db.sessions)
         && engine.bagByTag == old(engine.bagByTag))
      ensures acted ==>
        NextPosted(Num(old(db.config)[1].allowedChatId), resumedAt, old(db.Row()), old(current),
                   old(log) + [TimeUp(TimeoutAnswer(old(db.Row())[HintAnswer], old(current)))],
                   old(db.sessions), old(engine.bagByTag), drawn, shuffled)
      ensures engine.questions == old(engine.questions) && engine.byId == old(engine.byId)
      ensures engine.bagByCategory == old(engine.bagByCategory)
      ensures db.config == old(db.config) && db.users == old(db.users) && db.scores == old(db.scores)
      ensures db.sessionScores == old(db.sessionScores) && db.events == old(db.events)
      ensures db.lastSessionId == old(db.lastSessionId)
    {
      var st := db.GetState();
      var chat, thread := db.GetTopic();
      acted, drawn, shuffled := false, Err(EmptyScope), [];
      if st.active && Truthy(chat) && Truthy(thread) {
        if Truthy(st.deadlineTs) && now >= Num(st.deadlineTs) {
          if st.winnerUserId == Null {
            log := log + [TimeUp(TimeoutAnswer(st.hintAnswer, current))];
            var posted;
            posted, drawn, shuffled := PostNextQuestion(Num(chat), resumedAt);
            acted := true;
          }
        }
      }
    }

    /**
     * The winner of a question (main.py:629-648): one update locks the winner
     * in and clears the deadline and the hint time; the points of the hint
     * level go to the all-time table, to the session table for a real session
     * and to one event; the win is posted.
     */
    method Award(chat: int, thread: int, user: int, name: string, now: int, q: Question, level: int, session: int)
      requires Valid()
      requires level == Num(db.Row()[HintLevel]) && session == Num(db.Row()[SessionId])
      modifies this, db
      ensures Valid()
      ensures db.Row() == old(db.Row()) + WinChanges(user)
      ensures Credited(old(db.Row()), chat, thread, user, now, old(db.scores), db.scores,
                       old(db.sessionScores), db.sessionScores, old(db.events), db.events)
      ensures log == old(log) + [Winner(name, PointsForHintLevel(level), level, FirstAnswer(q, Dash))]
      ensures db.config == old(db.config) && db.users == old(db.users) && db.sessions == old(db.sessions)
      ensures db.lastSessionId == old(db.lastSessionId) && current == old(current)
    {
      var pts := PointsForHintLevel(level);
      var ans := FirstAnswer(q, Dash);
      ghost var e := AwardEvent(db.Row(), chat, thread, user, now);
      WinShape(user);
      OrdersDistinct();
      WinKeepsHints(db.Row(), user);
      Apply(WinOrder, WinChanges(user));
      Credit(chat, thread, user, now, pts, session, e);
      log := log + [Winner(name, pts, level, ans)];
    }

    /** The points of a win in the three ledgers (main.py:636-641): all-time, the game's session if any, the event log. */
    method Credit(chat: int, thread: int, user: int, now: int, pts: int, session: int, ghost e: Event)
      requires Valid()
      requires e == Event(now, chat, thread, session, user, pts, "correct")
      modifies db
      ensures Valid()
      ensures db.scores == Accumulate(old(db.scores), (e.chatId, e.threadId, e.userId), e.delta)
      ensures db.sessionScores == SessionCredit(old(db.sessionScores), e) && db.events == old(db.events) + [e]
      ensures db.state == old(db.state) && db.config == old(db.config) && db.users == old(db.users)
      ensures db.sessions == old(db.sessions) && db.lastSessionId == old(db.lastSessionId)
    {
      ghost var scores, sessionScores, events := db.scores, db.sessionScores, db.events;
      db.AddPointsAlltime(chat, thread, user, pts);
      if session != 0 {
        db.AddPointsSession(session, user, pts);
      }
      db.AddPointsEvent(now, chat, thread, session, user, pts, "correct");
      AwardKeepsLedger(scores, sessionScores, events, e);
    }

    /**
     * on_text_answer (main.py:605-651): the sender is recorded; a correct
     * answer to the running question, while no one has won it, wins it and,
     * after the pause (ending at `resumedAt`), the next question follows.
     */
    method OnTextAnswer(chat: int, thread: int, user: int, fullName: string, username: Option<string>,
                        text: string, now: int, resumedAt: int)
      returns (won: bool, ghost locked: Row, ghost drawn: Result<Question>, ghost shuffled: seq<string>)
      requires Valid()
      modifies this, db, engine
      ensures Valid()
      ensures db.users == old(db.users)[(chat, user) := User(fullName, username, now)]
      ensures won <==> Accepted(old(db.Row()), old(current), text)
      ensures !won ==>
        (db.Row() == old(db.Row()) && log == old(log) && current == old(current) && db.scores == old(db.scores)
         && db.sessionScores == old(db.sessionScores) && db.events == old(db.events) && db.sessions == old(db.sessions)
         && engine.bagByTag == old(engine.bagByTag))
      ensures won ==>
        (locked == old(db.Row()) + WinChanges(user)
         && Credited(old(db.Row()), chat, thread, user, now, old(db.scores), db.scores,
                     old(db.sessionScores), db.sessionScores, old(db.events), db.events)
         && NextPosted(chat, resumedAt, locked, old(current),
                       old(log) + [Winner(fullName, PointsForHintLevel(Num(old(db.Row())[HintLevel])),
                                          Num(old(db.Row())[HintLevel]), FirstAnswer(old(current).value, Dash))],
                       old(db.sessions), old(engine.bagByTag), drawn, shuffled))
      ensures engine.questions == old(engine.questions) && engine.byId == old(engine.byId)
      ensures engine.bagByCategory == old(engine.bagByCategory)
      ensures db.config == old(db.config) && db.lastSessionId == old(db.lastSessionId)
    {
      db.UpsertUser(chat, user, fullName, username, now);
      won, locked, drawn, shuffled := false, db.Row(), Err(EmptyScope), [];
      var st := db.GetState();
      if !st.active {
        return;
      }
      if st.winnerUserId != Null {
        return;
      }
      var q := current;
      if q.None? {
        return;
      }
      if |Normalize(text)| < 1 {
        return;
      }
      if CheckAnswer(q.value, text) {
        won := true;
        locked, drawn, shuffled := Win(chat, thread, user, fullName, now, resumedAt, q.value, Num(st.hintLevel), Num(st.sessionId));
      }
    }

    /**
     * The winning branch of on_text_answer (main.py:628-651): the win is
     * locked, credited and posted, and after the pause the next question
     * follows; `locked` is the row as the win left it.
     */
    method Win(chat: int, thread: int, user: int, name: string, now: int, resumedAt: int, q: Question, level: int, session: int)
      returns (locked: Row, ghost drawn: Result<Question>, ghost shuffled: seq<string>)
      requires Valid()
      requires level == Num(db.Row()[HintLevel]) && session == Num(db.Row()[SessionId])
      modifies this, db, engine
      ensures Valid()
      ensures locked == old(db.Row()) + WinChanges(user)
      ensures Credited(old(db.Row()), chat, thread, user, now, old(db.scores), db.scores,
                       old(db.sessionScores), db.sessionScores, old(db.events), db.events)
      ensures NextPosted(chat, resumedAt, locked, old(current),
                         old(log) + [Winner(name, PointsForHintLevel(level), level, FirstAnswer(q, Dash))],
                         old(db.sessions), old(engine.bagByTag), drawn, shuffled)
      ensures db.users == old(db.users)
      ensures engine.questions == old(engine.questions) && engine.byId == old(engine.byId)
      ensures engine.bagByCategory == old(engine.bagByCategory)
      ensures db.config == old(db.config) && db.lastSessionId == old(db.lastSessionId)
    {
      Award(chat, thread, user, name, now, q, level, session);
      locked := db.Row();
      var posted;
      posted, drawn, shuffled := PostNextQuestion(chat, resumedAt);
    }
  }
}
