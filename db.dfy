/**
 * The bot's SQLite database as in-memory tables. The writes of db.py are
 * methods of class Database; its reads are functions and methods that change
 * nothing.
 *
 * Every table keeps its primary key as a map key. The tables are config, state,
 * users, scores, session_scores, sessions and points_events. A value of a
 * nullable column is a Value, with Null for SQL NULL. The single state row is
 * a map from its columns to their values.
 */
module Db {
  import opened Wrappers

  /** A value stored in a column (SQLite is dynamically typed; NULL is Null). */
  datatype Value = Null | Int(i: int) | Text(s: string)

  /** Python truthiness of a value read back from a column: None, 0 and "" are false. */
  predicate Truthy(v: Value) {
    match v
    case Null => false
    case Int(i) => i != 0
    case Text(s) => s != []
  }

  // ----------------------------------------------------------------------
  // The state table (db.py:77-93)
  // ----------------------------------------------------------------------

  /** The columns of the state table besides its key id. */
  datatype Column =
    | Active | CurrentQid | WinnerUserId | DeadlineTs | Tag | RoundTotal
    | RoundCurrent | SessionId | HintLevel | HintTotal | HintAnswer | NextHintTs

  /** The SQL name of a column. */
  function Name(c: Column): string {
    match c
    case Active => "active"
    case CurrentQid => "current_qid"
    case WinnerUserId => "winner_user_id"
    case DeadlineTs => "deadline_ts"
    case Tag => "tag"
    case RoundTotal => "round_total"
    case RoundCurrent => "round_current"
    case SessionId => "session_id"
    case HintLevel => "hint_level"
    case HintTotal => "hint_total"
    case HintAnswer => "hint_answer"
    case NextHintTs => "next_hint_ts"
  }

  /** How SQLite resolves a column name of an UPDATE on the state table. */
  function ColumnNamed(name: string): (r: Option<Column>)
    ensures r.Some? ==> Name(r.value) == name
  {
    match name
    case "active" => Some(Active)
    case "current_qid" => Some(CurrentQid)
    case "winner_user_id" => Some(WinnerUserId)
    case "deadline_ts" => Some(DeadlineTs)
    case "tag" => Some(Tag)
    case "round_total" => Some(RoundTotal)
    case "round_current" => Some(RoundCurrent)
    case "session_id" => Some(SessionId)
    case "hint_level" => Some(HintLevel)
    case "hint_total" => Some(HintTotal)
    case "hint_answer" => Some(HintAnswer)
    case "next_hint_ts" => Some(NextHintTs)
    case _ => None
  }

  /** Every column is found under its own name: names and columns correspond one to one. */
  lemma NameRoundTrip(c: Column)
    ensures ColumnNamed(Name(c)) == Some(c)
  {
    match c
    case Active =>
    case CurrentQid =>
    case WinnerUserId =>
    case DeadlineTs =>
    case Tag =>
    case RoundTotal =>
    case RoundCurrent =>
    case SessionId =>
    case HintLevel =>
    case HintTotal =>
    case HintAnswer =>
    case NextHintTs =>
  }

  /** A name denotes a column exactly when it is that column's name. */
  lemma NamedIff(name: string, c: Column)
    ensures ColumnNamed(name) == Some(c) <==> Name(c) == name
  {
    NameRoundTrip(c);
  }

  /** The table has no category column. */
  lemma NoCategoryColumn()
    ensures ColumnNamed("category") == None
    ensures forall c: Column :: Name(c) != "category"
  {
    forall c: Column ensures Name(c) != "category" {
      NameRoundTrip(c);
    }
  }

  /** One row of the state table: a value for each column. */
  type Row = map<Column, Value>

  predicate Complete(row: Row) {
    forall c: Column :: c in row
  }

  /** The row INSERT OR IGNORE INTO state(id) VALUES (1) creates: active takes its DEFAULT 0, the rest are NULL. */
  const FreshRow: Row := map[
    Active := Int(0), CurrentQid := Null, WinnerUserId := Null, DeadlineTs := Null,
    Tag := Null, RoundTotal := Null, RoundCurrent := Null, SessionId := Null,
    HintLevel := Null, HintTotal := Null, HintAnswer := Null, NextHintTs := Null]

  lemma FreshRowComplete()
    ensures Complete(FreshRow)
  {
    forall c: Column ensures c in FreshRow {
      match c
      case Active =>
      case CurrentQid =>
      case WinnerUserId =>
      case DeadlineTs =>
      case Tag =>
      case RoundTotal =>
      case RoundCurrent =>
      case SessionId =>
      case HintLevel =>
      case HintTotal =>
      case HintAnswer =>
      case NextHintTs =>
    }
  }

  // ----------------------------------------------------------------------
  // set_state (db.py:220-232)
  // ----------------------------------------------------------------------

  /** One keyword argument of set_state: a column name and the value for it. */
  datatype Assignment = Assignment(key: string, value: Value)

  /** The keyword names of a call, in order. */
  function Keys(kw: seq<Assignment>): (r: seq<string>)
    ensures |r| == |kw| && forall i :: 0 <= i < |kw| ==> r[i] == kw[i].key
  {
    seq(|kw|, i requires 0 <= i < |kw| => kw[i].key)
  }

  /** The values of a call, in order. */
  function Values(kw: seq<Assignment>): (r: seq<Value>)
    ensures |r| == |kw| && forall i :: 0 <= i < |kw| ==> r[i] == kw[i].value
  {
    seq(|kw|, i requires 0 <= i < |kw| => kw[i].value)
  }

  /** Keyword arguments of a Python call have distinct names. */
  predicate DistinctKeys(kw: seq<Assignment>) {
    forall i, j :: 0 <= i < j < |kw| ==> kw[i].key != kw[j].key
  }

  /** Every name of the SET clause is a column of the state table. */
  predicate Compiles(cols: seq<string>) {
    forall i :: 0 <= i < |cols| ==> ColumnNamed(cols[i]).Some?
  }

  /** The columns the SET clause assigns, each to its (last) value; names that are not columns assign nothing. */
  function Changes(kw: seq<Assignment>): map<Column, Value> {
    if kw == [] then map[]
    else
      var init := Changes(kw[..|kw| - 1]);
      var last := kw[|kw| - 1];
      match ColumnNamed(last.key)
      case Some(c) => init[c := last.value]
      case None => init
  }

  /**
   * What UPDATE state SET k1=?, k2=?, ... WHERE id=1 makes of the row: no
   * statement at all for an empty call, an error that changes nothing for a
   * name that is not a column or for NULL in active, and otherwise the row with
   * the named columns replaced.
   */
  function StateUpdate(row: Row, kw: seq<Assignment>): (r: Result<Row>)
    ensures kw == [] ==> r == Ok(row)
    ensures r.Err? ==> r.error == NoSuchColumn || r.error == NotNullViolated
  {
    if kw == [] then Ok(row)
    else if !Compiles(Keys(kw)) then Err(NoSuchColumn)
    else
      var changes := Changes(kw);
      if Active in changes && changes[Active] == Null then Err(NotNullViolated)
      else Ok(row + changes)
  }

  /** A column is assigned exactly when the call names it. */
  lemma {:induction false} ChangesDomain(kw: seq<Assignment>, c: Column)
    ensures c in Changes(kw) <==> Name(c) in Keys(kw)
  {
    if kw != [] {
      var init := kw[..|kw| - 1];
      var last := kw[|kw| - 1];
      ChangesDomain(init, c);
      NamedIff(last.key, c);
      assert Keys(kw) == Keys(init) + [last.key];
    }
  }

  /** With distinct names, each named column gets the value given for it. */
  lemma {:induction false} ChangesValue(kw: seq<Assignment>, i: int, c: Column)
    requires DistinctKeys(kw) && 0 <= i < |kw| && kw[i].key == Name(c)
    ensures c in Changes(kw) && Changes(kw)[c] == kw[i].value
  {
    var init := kw[..|kw| - 1];
    var last := kw[|kw| - 1];
    NamedIff(last.key, c);
    if i < |kw| - 1 {
      assert init[i] == kw[i];
      assert DistinctKeys(init) by {
        forall a, b | 0 <= a < b < |init| ensures init[a].key != init[b].key {
          assert init[a] == kw[a] && init[b] == kw[b];
        }
      }
      ChangesValue(init, i, c);
      assert last.key != Name(c);
      assert Changes(kw)[c] == Changes(init)[c];
    } else {
      NameRoundTrip(c);
    }
  }

  /** set_state changes only the columns it names, and gives each of them its value. */
  lemma SetStateChangesOnlyNamed(row: Row, kw: seq<Assignment>, c: Column)
    requires DistinctKeys(kw) && c in row
    requires StateUpdate(row, kw).Ok?
    ensures var r := StateUpdate(row, kw).value;
      c in r
      && (Name(c) !in Keys(kw) ==> r[c] == row[c])
      && (forall i :: 0 <= i < |kw| && kw[i].key == Name(c) ==> r[c] == kw[i].value)
  {
    ChangesDomain(kw, c);
    forall i | 0 <= i < |kw| && kw[i].key == Name(c) {
      ChangesValue(kw, i, c);
    }
  }

  /** A call naming a column the table lacks, such as category, fails as a whole. */
  lemma UnknownColumnRejected(row: Row, kw: seq<Assignment>, i: int)
    requires 0 <= i < |kw| && ColumnNamed(kw[i].key).None?
    ensures StateUpdate(row, kw) == Err(NoSuchColumn)
  {
    assert Keys(kw)[i] == kw[i].key;
  }

  lemma CategoryRejected(row: Row, kw: seq<Assignment>, i: int)
    requires 0 <= i < |kw| && kw[i].key == "category"
    ensures StateUpdate(row, kw) == Err(NoSuchColumn)
  {
    NoCategoryColumn();
    UnknownColumnRejected(row, kw, i);
  }

  /** A call naming each column of `order` (distinct columns) with its value in m. */
  function KwOf(order: seq<Column>, m: map<Column, Value>): (kw: seq<Assignment>)
    requires forall i :: 0 <= i < |order| ==> order[i] in m
    ensures |kw| == |order|
    ensures forall i :: 0 <= i < |order| ==> kw[i] == Assignment(Name(order[i]), m[order[i]])
  {
    seq(|order|, i requires 0 <= i < |order| => Assignment(Name(order[i]), m[order[i]]))
  }

  /** Such a call replaces exactly the columns of m by their values in m. */
  lemma KwOfApplies(row: Row, order: seq<Column>, m: map<Column, Value>)
    requires order != [] && forall i, j :: 0 <= i < j < |order| ==> order[i] != order[j]
    requires forall c :: c in m <==> c in order
    requires Active in m ==> m[Active] != Null
    ensures StateUpdate(row, KwOf(order, m)) == Ok(row + m)
  {
    var kw := KwOf(order, m);
    forall i | 0 <= i < |kw| ensures ColumnNamed(Keys(kw)[i]).Some? {
      NameRoundTrip(order[i]);
    }
    KwOfDistinct(order, m);
    forall c | true ensures (c in Changes(kw) <==> c in m) && (c in m ==> Changes(kw)[c] == m[c]) {
      KwOfChanges(order, m, c);
    }
    assert Changes(kw) == m;
  }

  lemma KwOfDistinct(order: seq<Column>, m: map<Column, Value>)
    requires forall i, j :: 0 <= i < j < |order| ==> order[i] != order[j]
    requires forall c :: c in m <==> c in order
    ensures DistinctKeys(KwOf(order, m))
  {
    var kw := KwOf(order, m);
    forall i, j | 0 <= i < j < |kw| ensures kw[i].key != kw[j].key {
      NameRoundTrip(order[i]);
      NameRoundTrip(order[j]);
    }
  }

  lemma KwOfChanges(order: seq<Column>, m: map<Column, Value>, c: Column)
    requires forall c :: c in m <==> c in order
    requires DistinctKeys(KwOf(order, m))
    ensures var kw := KwOf(order, m);
      (c in Changes(kw) <==> c in m) && (c in m ==> Changes(kw)[c] == m[c])
  {
    var kw := KwOf(order, m);
    ChangesDomain(kw, c);
    if Name(c) in Keys(kw) {
      var i :| 0 <= i < |kw| && Keys(kw)[i] == Name(c);
      NamedIff(Name(order[i]), c);
      NameRoundTrip(order[i]);
      ChangesValue(kw, i, c);
    }
    if c in m {
      var i :| 0 <= i < |order| && order[i] == c;
      assert Keys(kw)[i] == Name(c);
    }
  }

  /** An update keeps the row complete. */
  lemma UpdateComplete(row: Row, kw: seq<Assignment>)
    requires Complete(row) && StateUpdate(row, kw).Ok?
    ensures Complete(StateUpdate(row, kw).value)
  {
  }

  // ----------------------------------------------------------------------
  // get_state (db.py:234-262)
  // ----------------------------------------------------------------------

  /** The dictionary get_state returns; it has no category entry. */
  datatype StateView = StateView(
    active: bool,
    currentQid: Value,
    winnerUserId: Value,
    deadlineTs: Value,
    tag: Value,
    roundTotal: Value,
    roundCurrent: Value,
    sessionId: Value,
    hintLevel: Value,
    hintTotal: Value,
    hintAnswer: Value,
    nextHintTs: Value)

  /** What get_state returns when the row is missing. */
  const Baseline: StateView :=
    StateView(false, Null, Null, Null, Text("all"), Null, Int(0), Null, Int(0), Int(0), Null, Null)

  /** `v or d` */
  function Or(v: Value, d: Value): Value {
    if Truthy(v) then v else d
  }

  /** get_state over the row with id 1, if there is one. */
  function View(row: Option<Row>): (v: StateView)
    requires row.Some? ==> Complete(row.value)
  {
    match row
    case None => Baseline
    case Some(r) =>
      StateView(
        Truthy(r[Active]), r[CurrentQid], r[WinnerUserId], r[DeadlineTs],
        Or(r[Tag], Text("all")), r[RoundTotal], Or(r[RoundCurrent], Int(0)), r[SessionId],
        Or(r[HintLevel], Int(0)), Or(r[HintTotal], Int(0)), r[HintAnswer], r[NextHintTs])
  }

  /**
   * What get_state reads: a missing row reads as the baseline; active as a
   * bool; the columns without a default as stored; NULL (or another false
   * value) in tag, round_current, hint_level and hint_total as "all" and 0.
   */
  lemma ViewReads(row: Option<Row>)
    requires row.Some? ==> Complete(row.value)
    ensures var v := View(row);
      (row.None? ==> v == Baseline)
      && (row.Some? ==> v.active == Truthy(row.value[Active]))
      && (row.Some? ==>
            v.currentQid == row.value[CurrentQid] && v.winnerUserId == row.value[WinnerUserId]
            && v.deadlineTs == row.value[DeadlineTs] && v.roundTotal == row.value[RoundTotal]
            && v.sessionId == row.value[SessionId] && v.hintAnswer == row.value[HintAnswer]
            && v.nextHintTs == row.value[NextHintTs])
      && Truthy(v.tag)
      && (!Truthy(v.roundCurrent) ==> v.roundCurrent == Int(0))
      && (!Truthy(v.hintLevel) ==> v.hintLevel == Int(0))
      && (!Truthy(v.hintTotal) ==> v.hintTotal == Int(0))
      && (row.Some? && row.value[Tag] == Null ==> v.tag == Text("all"))
      && (row.Some? && Truthy(row.value[Tag]) ==> v.tag == row.value[Tag])
      && (row.Some? && Truthy(row.value[RoundCurrent]) ==> v.roundCurrent == row.value[RoundCurrent])
      && (row.Some? && Truthy(row.value[HintLevel]) ==> v.hintLevel == row.value[HintLevel])
      && (row.Some? && Truthy(row.value[HintTotal]) ==> v.hintTotal == row.value[HintTotal])
  {
  }

  /** The row init_db inserts reads exactly like a missing row. */
  lemma FreshRowReadsAsBaseline()
    ensures Complete(FreshRow) && View(Some(FreshRow)) == View(None)
  {
    FreshRowComplete();
  }

  // ----------------------------------------------------------------------
  // The other tables
  // ----------------------------------------------------------------------

  /** The config row: the chat and the thread the bot is bound to. */
  datatype Config = Config(allowedChatId: Value, allowedThreadId: Value)

  datatype User = User(fullName: string, username: Option<string>, updatedAt: int)

  /** A sessions row: one quiz run. */
  datatype Session = Session(
    chatId: int, threadId: int, tag: string, roundTotal: int, startedAt: int, endedAt: Option<int>)

  /** A points_events row (its AUTOINCREMENT id is its position plus one). */
  datatype Event = Event(
    ts: int, chatId: int, threadId: int, sessionId: int, userId: int, delta: int, reason: string)

  /** One row of a rating: a user, their points and their name from users, if known. */
  datatype Rated = Rated(userId: int, points: int, fullName: Option<string>, username: Option<string>)

  /** INSERT ... ON CONFLICT DO UPDATE SET points = points + excluded.points. */
  function Accumulate<K(==)>(m: map<K, int>, k: K, delta: int): (r: map<K, int>)
    ensures r.Keys == m.Keys + {k}
    ensures r[k] == (if k in m then m[k] + delta else delta)
    ensures forall j :: j in m && j != k ==> r[j] == m[j]
  {
    m[k := if k in m then m[k] + delta else delta]
  }

  // ----------------------------------------------------------------------
  // Ratings (db.py:167-202)
  // ----------------------------------------------------------------------

  /** How many rows LIMIT n keeps of count rows (SQLite reads a negative limit as no limit). */
  function Cap(limit: int, count: nat): (r: nat)
    ensures r <= count
    ensures limit >= 0 ==> r <= limit
    ensures r < count ==> r == limit
  {
    if limit < 0 || count <= limit then count else limit
  }

  /**
   * users ordered as by ORDER BY points DESC LIMIT limit: distinct users of the
   * scope, as many as the limit allows, in descending order of points, and none
   * left out that has more points than one kept.
   */
  ghost predicate RankedBy(users: seq<int>, points: map<int, int>, limit: int) {
    |users| == Cap(limit, |points.Keys|)
    && (forall i :: 0 <= i < |users| ==> users[i] in points)
    && (forall i, j :: 0 <= i < j < |users| ==> users[i] != users[j])
    && (forall i, j :: 0 <= i < j < |users| ==> points[users[i]] >= points[users[j]])
    && (forall u, i :: u in points && u !in users && 0 <= i < |users| ==> points[u] <= points[users[i]])
  }

  /** A non-empty set has an element. */
  lemma SomeElement(s: set<int>)
    requires s != {}
    ensures exists u :: u in s
  {
    if forall u :: u !in s {
      assert false;
    }
  }

  lemma {:induction false} MaxExists(s: set<int>, points: map<int, int>)
    requires s != {} && s <= points.Keys
    ensures exists u :: u in s && forall v :: v in s ==> points[v] <= points[u]
  {
    SomeElement(s);
    var x :| x in s;
    if s != {x} {
      MaxExists(s - {x}, points);
      var m :| m in s - {x} && forall v :: v in s - {x} ==> points[v] <= points[m];
      if points[x] > points[m] {
        assert forall v :: v in s ==> points[v] <= points[x];
      } else {
        assert forall v :: v in s ==> points[v] <= points[m];
      }
    }
  }

  /** The users of a rating, in order. */
  function UsersOf(rows: seq<Rated>): (r: seq<int>)
    ensures |r| == |rows| && forall i :: 0 <= i < |rows| ==> r[i] == rows[i].userId
  {
    seq(|rows|, i requires 0 <= i < |rows| => rows[i].userId)
  }

  /** The name columns of the LEFT JOIN with users: NULL when the user is not known in the chat. */
  function NameOf(users: map<(int, int), User>, chat: int, user: int): (r: (Option<string>, Option<string>))
    ensures (chat, user) !in users ==> r == (None, None)
    ensures (chat, user) in users ==> r == (Some(users[(chat, user)].fullName), users[(chat, user)].username)
  {
    if (chat, user) in users then (Some(users[(chat, user)].fullName), users[(chat, user)].username)
    else (None, None)
  }

  /** A rating: users ranked by their points, each row with those points and the user's name. */
  ghost predicate Rating(rows: seq<Rated>, points: map<int, int>, users: map<(int, int), User>, chat: int, limit: int) {
    RankedBy(UsersOf(rows), points, limit)
    && forall i :: 0 <= i < |rows| ==>
      rows[i].userId in points && rows[i].points == points[rows[i].userId]
      && (rows[i].fullName, rows[i].username) == NameOf(users, chat, rows[i].userId)
  }

  /** The all-time points of one chat thread, by user. */
  function ThreadScores(scores: map<(int, int, int), int>, chat: int, thread: int): (r: map<int, int>)
    ensures forall u :: u in r <==> (chat, thread, u) in scores
    ensures forall u :: u in r ==> r[u] == scores[(chat, thread, u)]
  {
    map k | k in scores && k.0 == chat && k.1 == thread :: k.2 := scores[k]
  }

  /** The points of one session, by user. */
  function SessionPoints(sessionScores: map<(int, int), int>, session: int): (r: map<int, int>)
    ensures forall u :: u in r <==> (session, u) in sessionScores
    ensures forall u :: u in r ==> r[u] == sessionScores[(session, u)]
  {
    map k | k in sessionScores && k.0 == session :: k.1 := sessionScores[k]
  }

  /** The WHERE clause of top_period: chat, thread and ts_from <= ts < ts_to. */
  predicate InWindow(e: Event, chat: int, thread: int, from: int, to: int) {
    e.chatId == chat && e.threadId == thread && from <= e.ts < to
  }

  /** The points a user gained in the window: the sum of the deltas of their events in it. */
  function {:induction false} WindowSum(events: seq<Event>, chat: int, thread: int, from: int, to: int, user: int): int {
    if events == [] then 0
    else
      var e := events[|events| - 1];
      WindowSum(events[..|events| - 1], chat, thread, from, to, user)
      + (if InWindow(e, chat, thread, from, to) && e.userId == user then e.delta else 0)
  }

  /** GROUP BY user_id with SUM(delta), built event by event. */
  function {:induction false} PeriodTotals(events: seq<Event>, chat: int, thread: int, from: int, to: int): (r: map<int, int>)
  {
    if events == [] then map[]
    else
      var e := events[|events| - 1];
      var init := PeriodTotals(events[..|events| - 1], chat, thread, from, to);
      if InWindow(e, chat, thread, from, to) then Accumulate(init, e.userId, e.delta) else init
  }

  /** The grouped sums are the per-user window sums, for exactly the users with an event in the window. */
  lemma {:induction false} PeriodTotalsAreSums(events: seq<Event>, chat: int, thread: int, from: int, to: int, user: int)
    ensures var r := PeriodTotals(events, chat, thread, from, to);
      (user in r <==> exists i :: 0 <= i < |events| && InWindow(events[i], chat, thread, from, to) && events[i].userId == user)
      && (user in r ==> r[user] == WindowSum(events, chat, thread, from, to, user))
  {
    if events != [] {
      var init := events[..|events| - 1];
      PeriodTotalsAreSums(init, chat, thread, from, to, user);
      if exists i :: 0 <= i < |events| && InWindow(events[i], chat, thread, from, to) && events[i].userId == user {
        var i :| 0 <= i < |events| && InWindow(events[i], chat, thread, from, to) && events[i].userId == user;
        if i < |events| - 1 {
          assert init[i] == events[i];
        }
      }
      if user !in PeriodTotals(init, chat, thread, from, to) {
        WindowSumOutside(init, chat, thread, from, to, user);
      }
    }
  }

  /** A user with no event in the window gained nothing in it. */
  lemma {:induction false} WindowSumOutside(events: seq<Event>, chat: int, thread: int, from: int, to: int, user: int)
    requires forall i :: 0 <= i < |events| ==> !(InWindow(events[i], chat, thread, from, to) && events[i].userId == user)
    ensures WindowSum(events, chat, thread, from, to, user) == 0
  {
    if events != [] {
      WindowSumOutside(events[..|events| - 1], chat, thread, from, to, user);
    }
  }

  /** Half-open windows split cleanly: the sums over [a, b) and [b, c) make the sum over [a, c). */
  lemma {:induction false} WindowsAdd(events: seq<Event>, chat: int, thread: int, a: int, b: int, c: int, user: int)
    requires a <= b <= c
    ensures WindowSum(events, chat, thread, a, b, user) + WindowSum(events, chat, thread, b, c, user)
         == WindowSum(events, chat, thread, a, c, user)
  {
    if events != [] {
      WindowsAdd(events[..|events| - 1], chat, thread, a, b, c, user);
    }
  }

  /** The loop state of Rank: order holds the best users so far in descending order, rest the others. */
  ghost predicate Ranking(order: seq<int>, rest: set<int>, points: map<int, int>) {
    rest <= points.Keys
    && (forall u :: u in points ==> (u in rest <==> u !in order))
    && |order| + |rest| == |points.Keys|
    && (forall i :: 0 <= i < |order| ==> order[i] in points)
    && (forall i, j :: 0 <= i < j < |order| ==> order[i] != order[j])
    && (forall i, j :: 0 <= i < j < |order| ==> points[order[i]] >= points[order[j]])
    && (forall u, i :: u in rest && 0 <= i < |order| ==> points[u] <= points[order[i]])
  }

  lemma RankingStart(points: map<int, int>)
    ensures Ranking([], points.Keys, points)
  {
  }

  /** Moving a user with the most points of rest to the end of order keeps the loop state. */
  lemma RankingStep(order: seq<int>, rest: set<int>, points: map<int, int>, u: int)
    requires Ranking(order, rest, points)
    requires u in rest && forall v :: v in rest ==> points[v] <= points[u]
    ensures Ranking(order + [u], rest - {u}, points)
  {
    assert |rest - {u}| == |rest| - 1;
    var next := order + [u];
    assert forall i :: 0 <= i < |order| ==> next[i] == order[i];
    forall w | w in points
      ensures w in rest - {u} <==> w !in next
    {
      assert w in next <==> w in order || w == u;
    }
  }

  /** The loop ends with the whole scope or with as many users as the limit allows. */
  lemma RankingDone(order: seq<int>, rest: set<int>, points: map<int, int>, limit: int)
    requires Ranking(order, rest, points)
    requires limit >= 0 ==> |order| <= limit
    requires rest == {} || (limit >= 0 && |order| == limit)
    ensures RankedBy(order, points, limit)
  {
    forall u, i | u in points && u !in order && 0 <= i < |order|
      ensures points[u] <= points[order[i]]
    {
      assert u in rest;
    }
  }

  // ----------------------------------------------------------------------
  // The score ledger: scores and session_scores against points_events
  // ----------------------------------------------------------------------

  /** The deltas of all events of a user in a thread, summed. */
  function {:induction false} EventTotal(events: seq<Event>, chat: int, thread: int, user: int): int {
    if events == [] then 0
    else
      var e := events[|events| - 1];
      EventTotal(events[..|events| - 1], chat, thread, user)
      + (if e.chatId == chat && e.threadId == thread && e.userId == user then e.delta else 0)
  }

  /** The deltas of all events of a user in a session, summed. */
  function {:induction false} SessionTotal(events: seq<Event>, session: int, user: int): int {
    if events == [] then 0
    else
      var e := events[|events| - 1];
      SessionTotal(events[..|events| - 1], session, user)
      + (if e.sessionId == session && e.userId == user then e.delta else 0)
  }

  /**
   * The tables agree with the events: every all-time score is the sum of its
   * user's events in the thread, every session score (of a real session, id
   * not 0) the sum of its user's events in the session, and every event is
   * counted in both.
   */
  ghost predicate Ledger(scores: map<(int, int, int), int>, sessionScores: map<(int, int), int>, events: seq<Event>) {
    (forall k :: k in scores ==> scores[k] == EventTotal(events, k.0, k.1, k.2))
    && (forall i :: 0 <= i < |events| ==> (events[i].chatId, events[i].threadId, events[i].userId) in scores)
    && (forall k :: k in sessionScores ==> k.0 != 0 && sessionScores[k] == SessionTotal(events, k.0, k.1))
    && (forall i :: 0 <= i < |events| && events[i].sessionId != 0 ==>
          (events[i].sessionId, events[i].userId) in sessionScores)
  }

  /** The session table after an award: only a real session is credited. */
  function SessionCredit(sessionScores: map<(int, int), int>, e: Event): map<(int, int), int> {
    if e.sessionId != 0 then Accumulate(sessionScores, (e.sessionId, e.userId), e.delta) else sessionScores
  }

  lemma EmptyLedger()
    ensures Ledger(map[], map[], [])
  {
  }

  /**
   * Crediting the same delta to the all-time table, to the session table when
   * the session id is not 0, and to one new event keeps the tables in agreement.
   */
  lemma AwardKeepsLedger(scores: map<(int, int, int), int>, sessionScores: map<(int, int), int>, events: seq<Event>, e: Event)
    requires Ledger(scores, sessionScores, events)
    ensures Ledger(Accumulate(scores, (e.chatId, e.threadId, e.userId), e.delta), SessionCredit(sessionScores, e), events + [e])
  {
    var events' := events + [e];
    assert events'[..|events'| - 1] == events;
    var scores' := Accumulate(scores, (e.chatId, e.threadId, e.userId), e.delta);
    var sessions' := SessionCredit(sessionScores, e);
    forall k | k in scores' ensures scores'[k] == EventTotal(events', k.0, k.1, k.2) {
      if k !in scores {
        NoEventTotal(events, k.0, k.1, k.2, scores, sessionScores);
      }
    }
    forall k | k in sessions' ensures k.0 != 0 && sessions'[k] == SessionTotal(events', k.0, k.1) {
      if k !in sessionScores {
        NoSessionTotal(events, k.0, k.1, scores, sessionScores);
      }
    }
    forall i | 0 <= i < |events'| ensures (events'[i].chatId, events'[i].threadId, events'[i].userId) in scores' {
      if i < |events| { assert events'[i] == events[i]; }
    }
    forall i | 0 <= i < |events'| && events'[i].sessionId != 0
      ensures (events'[i].sessionId, events'[i].userId) in sessions'
    {
      if i < |events| { assert events'[i] == events[i]; }
    }
  }

  /** A key without a score has no events. */
  lemma NoEventTotal(events: seq<Event>, chat: int, thread: int, user: int,
                     scores: map<(int, int, int), int>, sessionScores: map<(int, int), int>)
    requires Ledger(scores, sessionScores, events) && (chat, thread, user) !in scores
    ensures EventTotal(events, chat, thread, user) == 0
  {
    NoEvents(events, chat, thread, user, scores);
  }

  lemma {:induction false} NoEvents(events: seq<Event>, chat: int, thread: int, user: int, scores: map<(int, int, int), int>)
    requires forall i :: 0 <= i < |events| ==> (events[i].chatId, events[i].threadId, events[i].userId) in scores
    requires (chat, thread, user) !in scores
    ensures EventTotal(events, chat, thread, user) == 0
  {
    if events != [] {
      var init := events[..|events| - 1];
      assert forall i :: 0 <= i < |init| ==> init[i] == events[i];
      NoEvents(init, chat, thread, user, scores);
      assert (events[|events| - 1].chatId, events[|events| - 1].threadId, events[|events| - 1].userId) in scores;
    }
  }

  /** A (session, user) without a session score has no events. */
  lemma NoSessionTotal(events: seq<Event>, session: int, user: int,
                       scores: map<(int, int, int), int>, sessionScores: map<(int, int), int>)
    requires Ledger(scores, sessionScores, events) && session != 0 && (session, user) !in sessionScores
    ensures SessionTotal(events, session, user) == 0
  {
    NoSessionEvents(events, session, user, sessionScores);
  }

  lemma {:induction false} NoSessionEvents(events: seq<Event>, session: int, user: int, sessionScores: map<(int, int), int>)
    requires forall i :: 0 <= i < |events| && events[i].sessionId != 0 ==> (events[i].sessionId, events[i].userId) in sessionScores
    requires session != 0 && (session, user) !in sessionScores
    ensures SessionTotal(events, session, user) == 0
  {
    if events != [] {
      var init := events[..|events| - 1];
      assert forall i :: 0 <= i < |init| ==> init[i] == events[i];
      NoSessionEvents(init, session, user, sessionScores);
      assert events[|events| - 1].sessionId != session || events[|events| - 1].userId != user;
    }
  }

  /** Over a window that holds every event, the period sum is the all-time sum. */
  lemma {:induction false} WholeWindow(events: seq<Event>, chat: int, thread: int, from: int, to: int, user: int)
    requires forall i :: 0 <= i < |events| ==> from <= events[i].ts < to
    ensures WindowSum(events, chat, thread, from, to, user) == EventTotal(events, chat, thread, user)
  {
    if events != [] {
      var init := events[..|events| - 1];
      assert forall i :: 0 <= i < |init| ==> init[i] == events[i];
      WholeWindow(init, chat, thread, from, to, user);
    }
  }

  // ----------------------------------------------------------------------
  // The database
  // ----------------------------------------------------------------------

  class Database {
    var config: map<int, Config>
    var state: map<int, Row>
    var users: map<(int, int), User>
    var scores: map<(int, int, int), int>
    var sessionScores: map<(int, int), int>
    var sessions: map<int, Session>
    /** The largest session id ever handed out (sqlite_sequence of AUTOINCREMENT). */
    var lastSessionId: int
    var events: seq<Event>

    /** What the CHECK (id = 1) constraints and AUTOINCREMENT guarantee at all times. */
    ghost predicate Checked()
      reads this
    {
      config.Keys <= {1} && state.Keys <= {1} && (1 in state ==> Complete(state[1]))
      && 0 <= lastSessionId && forall id :: id in sessions ==> 1 <= id <= lastSessionId
    }

    /** After init_db: config and state each hold exactly one row, the one with id 1. */
    ghost predicate Valid()
      reads this
    {
      Checked() && config.Keys == {1} && state.Keys == {1}
    }

    /** The state row's columns. */
    function Row(): (r: Row)
      requires Valid()
      reads this
      ensures Complete(r)
    {
      state[1]
    }

    /** init_db on an empty database file. */
    constructor ()
      ensures Valid()
      ensures config[1] == Config(Null, Null) && state[1] == FreshRow
      ensures users == map[] && scores == map[] && sessionScores == map[] && sessions == map[]
      ensures lastSessionId == 0 && events == []
    {
      config, state, users, scores, sessionScores, sessions := map[], map[], map[], map[], map[], map[];
      lastSessionId, events := 0, [];
      new;
      InsertSingletons();
    }

    /**
     * The INSERT OR IGNORE statements of init_db: the row with id 1 is added
     * to config and to state where it is missing; an existing row is kept.
     */
    method InsertSingletons()
      requires Checked()
      modifies this
      ensures Valid()
      ensures 1 in old(config) ==> config == old(config)
      ensures 1 !in old(config) ==> config == map[1 := Config(Null, Null)]
      ensures 1 in old(state) ==> state == old(state)
      ensures 1 !in old(state) ==> state == map[1 := FreshRow]
      ensures users == old(users) && scores == old(scores) && sessionScores == old(sessionScores)
      ensures sessions == old(sessions) && lastSessionId == old(lastSessionId) && events == old(events)
    {
      if 1 !in config {
        config := map[1 := Config(Null, Null)];
      }
      if 1 !in state {
        FreshRowComplete();
        state := map[1 := FreshRow];
      }
    }

    /** set_topic: UPDATE config SET allowed_chat_id=?, allowed_thread_id=? WHERE id=1. */
    method SetTopic(chat: int, thread: int)
      requires Valid()
      modifies this
      ensures Valid()
      ensures config == map[1 := Config(Int(chat), Int(thread))]
      ensures state == old(state) && users == old(users) && scores == old(scores)
      ensures sessionScores == old(sessionScores) && sessions == old(sessions)
      ensures lastSessionId == old(lastSessionId) && events == old(events)
    {
      config := config[1 := Config(Int(chat), Int(thread))];
    }

    /** get_topic: the bound chat and thread, or (None, None) without a config row. */
    method GetTopic() returns (chat: Value, thread: Value)
      ensures 1 in config ==> chat == config[1].allowedChatId && thread == config[1].allowedThreadId
      ensures 1 !in config ==> chat == Null && thread == Null
    {
      if 1 in config {
        chat, thread := config[1].allowedChatId, config[1].allowedThreadId;
      } else {
        chat, thread := Null, Null;
      }
    }

    /** upsert_user: the user's name and username as last seen in the chat. */
    method UpsertUser(chat: int, user: int, fullName: string, username: Option<string>, now: int)
      requires Valid()
      modifies this
      ensures Valid()
      ensures users == old(users)[(chat, user) := User(fullName, username, now)]
      ensures config == old(config) && state == old(state) && scores == old(scores)
      ensures sessionScores == old(sessionScores) && sessions == old(sessions)
      ensures lastSessionId == old(lastSessionId) && events == old(events)
    {
      users := users[(chat, user) := User(fullName, username, now)];
    }

    /** add_points_alltime: delta for a new (chat, thread, user), else added to the points there. */
    method AddPointsAlltime(chat: int, thread: int, user: int, delta: int)
      requires Valid()
      modifies this
      ensures Valid()
      ensures scores == Accumulate(old(scores), (chat, thread, user), delta)
      ensures config == old(config) && state == old(state) && users == old(users)
      ensures sessionScores == old(sessionScores) && sessions == old(sessions)
      ensures lastSessionId == old(lastSessionId) && events == old(events)
    {
      scores := Accumulate(scores, (chat, thread, user), delta);
    }

    /** add_points_session: delta for a new (session, user), else added to the points there. */
    method AddPointsSession(session: int, user: int, delta: int)
      requires Valid()
      modifies this
      ensures Valid()
      ensures sessionScores == Accumulate(old(sessionScores), (session, user), delta)
      ensures config == old(config) && state == old(state) && users == old(users)
      ensures scores == old(scores) && sessions == old(sessions)
      ensures lastSessionId == old(lastSessionId) && events == old(events)
    {
      sessionScores := Accumulate(sessionScores, (session, user), delta);
    }

    /** add_points_event: exactly one event row is appended. */
    method AddPointsEvent(ts: int, chat: int, thread: int, session: int, user: int, delta: int, reason: string)
      requires Valid()
      modifies this
      ensures Valid()
      ensures events == old(events) + [Event(ts, chat, thread, session, user, delta, reason)]
      ensures config == old(config) && state == old(state) && users == old(users)
      ensures scores == old(scores) && sessionScores == old(sessionScores)
      ensures sessions == old(sessions) && lastSessionId == old(lastSessionId)
    {
      events := events + [Event(ts, chat, thread, session, user, delta, reason)];
    }

    /** create_session: a row under an id never used before, not yet ended; the id is returned. */
    method CreateSession(chat: int, thread: int, tag: string, roundTotal: int, now: int) returns (id: int)
      requires Valid()
      modifies this
      ensures Valid()
      ensures id !in old(sessions) && id >= 1
      ensures sessions == old(sessions)[id := Session(chat, thread, tag, roundTotal, now, None)]
      ensures id == lastSessionId
      ensures config == old(config) && state == old(state) && users == old(users)
      ensures scores == old(scores) && sessionScores == old(sessionScores) && events == old(events)
    {
      lastSessionId := lastSessionId + 1;
      id := lastSessionId;
      sessions := sessions[id := Session(chat, thread, tag, roundTotal, now, None)];
    }

    /** end_session: ended_at is set on that session's row, if there is one, and nowhere else. */
    method EndSession(id: int, now: int)
      requires Valid()
      modifies this
      ensures Valid()
      ensures id in old(sessions) ==> sessions == old(sessions)[id := old(sessions)[id].(endedAt := Some(now))]
      ensures id !in old(sessions) ==> sessions == old(sessions)
      ensures config == old(config) && state == old(state) && users == old(users)
      ensures scores == old(scores) && sessionScores == old(sessionScores)
      ensures lastSessionId == old(lastSessionId) && events == old(events)
    {
      if id in sessions {
        sessions := sessions[id := sessions[id].(endedAt := Some(now))];
      }
    }

    /**
     * set_state: the loop gathers the column names and values of the call; an
     * empty call returns before any statement, otherwise one UPDATE on the row
     * with id 1 either fails as a whole or replaces the named columns.
     */
    method SetState(kw: seq<Assignment>) returns (r: Result<()>)
      requires Valid()
      modifies this
      ensures Valid()
      ensures StateUpdate(old(state[1]), kw).Ok? ==> r.Ok? && state == map[1 := StateUpdate(old(state[1]), kw).value]
      ensures StateUpdate(old(state[1]), kw).Err? ==> r == Err(StateUpdate(old(state[1]), kw).error) && state == old(state)
      ensures config == old(config) && users == old(users) && scores == old(scores)
      ensures sessionScores == old(sessionScores) && sessions == old(sessions)
      ensures lastSessionId == old(lastSessionId) && events == old(events)
    {
      var cols, vals := Gather(kw);
      if cols == [] {
        return Ok(());
      }
      match StateUpdate(state[1], kw)
      case Ok(row) =>
        UpdateComplete(state[1], kw);
        state := state[1 := row];
        r := Ok(());
      case Err(e) =>
        r := Err(e);
    }

    /** The loop of set_state: the names and the values of the call, in order. */
    static method Gather(kw: seq<Assignment>) returns (cols: seq<string>, vals: seq<Value>)
      ensures cols == Keys(kw) && vals == Values(kw)
    {
      cols, vals := [], [];
      var i := 0;
      while i < |kw|
        invariant 0 <= i <= |kw|
        invariant cols == Keys(kw[..i]) && vals == Values(kw[..i])
      {
        cols := cols + [kw[i].key];
        vals := vals + [kw[i].value];
        i := i + 1;
      }
      assert kw[..i] == kw;
    }

    /** get_state. */
    method GetState() returns (v: StateView)
      requires Checked()
      ensures v == View(if 1 in state then Some(state[1]) else None)
    {
      if 1 in state {
        v := View(Some(state[1]));
      } else {
        v := View(None);
      }
    }

    /** ORDER BY points DESC LIMIT limit over the points of a scope; ties come in any order. */
    static method Rank(points: map<int, int>, limit: int) returns (order: seq<int>)
      ensures RankedBy(order, points, limit)
    {
      order := [];
      var rest := points.Keys;
      RankingStart(points);
      while rest != {} && (limit < 0 || |order| < limit)
        invariant Ranking(order, rest, points)
        invariant limit >= 0 ==> |order| <= limit
        decreases rest
      {
        MaxExists(rest, points);
        var u :| u in rest && forall v :: v in rest ==> points[v] <= points[u];
        RankingStep(order, rest, points, u);
        order := order + [u];
        rest := rest - {u};
      }
      RankingDone(order, rest, points, limit);
    }

    /** The rating rows for a scope's points, in the order given. */
    function RatedRows(order: seq<int>, points: map<int, int>, chat: int): (rows: seq<Rated>)
      requires forall i :: 0 <= i < |order| ==> order[i] in points
      reads this
      ensures UsersOf(rows) == order
      ensures forall i :: 0 <= i < |rows| ==>
        rows[i].points == points[order[i]] && (rows[i].fullName, rows[i].username) == NameOf(users, chat, order[i])
    {
      var known := users;
      seq(|order|, i requires 0 <= i < |order| =>
        Rated(order[i], points[order[i]], NameOf(known, chat, order[i]).0, NameOf(known, chat, order[i]).1))
    }

    /** top_alltime: the thread's all-time rating. */
    method TopAlltime(chat: int, thread: int, limit: int) returns (rows: seq<Rated>)
      ensures Rating(rows, ThreadScores(scores, chat, thread), users, chat, limit)
    {
      var points := ThreadScores(scores, chat, thread);
      var order := Rank(points, limit);
      rows := RatedRows(order, points, chat);
    }

    /** top_session: the rating of one session, with names as known in the given chat. */
    method TopSession(session: int, chatForNames: int, limit: int) returns (rows: seq<Rated>)
      ensures Rating(rows, SessionPoints(sessionScores, session), users, chatForNames, limit)
    {
      var points := SessionPoints(sessionScores, session);
      var order := Rank(points, limit);
      rows := RatedRows(order, points, chatForNames);
    }

    /** top_period: the rating of the points gained in the window [from, to) of a thread. */
    method TopPeriod(chat: int, thread: int, from: int, to: int, limit: int) returns (rows: seq<Rated>)
      ensures Rating(rows, PeriodTotals(events, chat, thread, from, to), users, chat, limit)
    {
      var points := PeriodTotals(events, chat, thread, from, to);
      var order := Rank(points, limit);
      rows := RatedRows(order, points, chat);
    }
  }
}
