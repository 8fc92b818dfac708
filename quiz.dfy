/**
 * The question catalogue (QuizEngine): validation and repair of the records of
 * the question files, tag and category scopes, draw bags that hand out every id
 * of a scope once before they are refilled, answer checking and the tag and
 * category listings.
 *
 * random.shuffle is "some permutation": the engine's methods choose one with
 * `:|` and report their choice in a ghost out-parameter.
 */
module Quiz {
  import opened Wrappers
  import opened Json
  import opened TextNorm
  import opened Order

  /** A question as the loader stores it. */
  datatype Question = Question(
    id: string,
    category: Option<string>,
    text: string,
    answers: seq<string>,
    aliases: seq<string>,
    tags: seq<string>,
    difficulty: Json,
    lang: Json,
    meta: Json)

  /** One question file: its path and its parsed contents. */
  datatype SourceFile = SourceFile(path: string, data: Json)

  // ----------------------------------------------------------------------
  // Record validation and repair (_normalize_question)
  // ----------------------------------------------------------------------

  /** What clean_list keeps: non-empty, and neither beginning nor ending with white space. */
  predicate Clean(s: string) {
    s != [] && NoEdgeSpace(s)
  }

  /** What clean_list makes of one element. */
  function CleanOne(x: Json): (r: seq<string>)
    ensures |r| <= 1 && forall i :: 0 <= i < |r| ==> Clean(r[i])
  {
    if x.JStr? && Strip(x.s) != [] then [Strip(x.s)] else []
  }

  /** clean_list: the strings of xs, stripped, without the blank ones, in order. */
  function {:induction false} Cleaned(xs: seq<Json>): (r: seq<string>)
    ensures |r| <= |xs|
    ensures forall i :: 0 <= i < |r| ==> Clean(r[i])
  {
    if xs == [] then []
    else
      var init := Cleaned(xs[..|xs| - 1]);
      init + CleanOne(xs[|xs| - 1])
  }

  /** clean_list keeps the order: it works element by element. */
  lemma {:induction false} CleanedAppend(a: seq<Json>, b: seq<Json>)
    ensures Cleaned(a + b) == Cleaned(a) + Cleaned(b)
  {
    if b != [] {
      var init := b[..|b| - 1];
      assert (a + b)[..|a + b| - 1] == a + init;
      assert (a + b)[|a + b| - 1] == b[|b| - 1];
      CleanedAppend(a, init);
      assert Cleaned(a + b) == Cleaned(a + init) + CleanOne(b[|b| - 1]);
      assert Cleaned(b) == Cleaned(init) + CleanOne(b[|b| - 1]);
    } else {
      assert a + b == a;
    }
  }

  /** A string survives clean_list exactly when some string element strips to it. */
  lemma {:induction false} CleanedMembers(xs: seq<Json>, x: string)
    ensures x in Cleaned(xs) <==> x != [] && exists i :: 0 <= i < |xs| && xs[i].JStr? && Strip(xs[i].s) == x
  {
    if xs != [] {
      var init := xs[..|xs| - 1];
      CleanedMembers(init, x);
      if x != [] && (exists i :: 0 <= i < |xs| && xs[i].JStr? && Strip(xs[i].s) == x) {
        var i :| 0 <= i < |xs| && xs[i].JStr? && Strip(xs[i].s) == x;
        if i < |xs| - 1 {
          assert init[i] == xs[i];
        }
      }
      if x in Cleaned(init) {
        var i :| 0 <= i < |init| && init[i].JStr? && Strip(init[i].s) == x;
        assert xs[i] == init[i];
      }
    }
  }

  /** A string that is already clean passes clean_list unchanged. */
  lemma CleanOneOfClean(c: string)
    requires Clean(c)
    ensures CleanOne(JStr(c)) == [c]
  {
    StripNoEdge(c);
  }

  /** The question text is a non-blank string. */
  predicate HasText(fields: seq<Field>) {
    var t := Get(fields, "question");
    t.Some? && t.value.JStr? && Strip(t.value.s) != []
  }

  /** The answers are a list with at least one non-blank string. */
  predicate HasAnswer(fields: seq<Field>) {
    var a := Get(fields, "answers");
    a.Some? && a.value.JList?
    && exists i :: 0 <= i < |a.value.items| && a.value.items[i].JStr? && Strip(a.value.items[i].s) != []
  }

  /** `q.get(key) or []`, then anything that is not a list becomes []. */
  function ListOrEmpty(v: Option<Json>): seq<Json> {
    if v.Some? && v.value.JList? then v.value.items else []
  }

  /** Some string of xs normalises to n. */
  predicate HasNormalForm(xs: seq<Json>, n: string) {
    exists i :: 0 <= i < |xs| && xs[i].JStr? && Normalize(xs[i].s) == n
  }

  /** The tags after the category tag step: the normalised category is appended when it is new. */
  function WithCategoryTag(category: Option<Json>, tags: seq<Json>): (r: seq<Json>)
    ensures r == tags || (category.Some? && category.value.JStr? && r == tags + [JStr(Normalize(category.value.s))])
  {
    if category.Some? && category.value.JStr? && Strip(category.value.s) != []
       && Normalize(category.value.s) != [] && !HasNormalForm(tags, Normalize(category.value.s))
    then tags + [JStr(Normalize(category.value.s))]
    else tags
  }

  /**
   * os.path.basename: the part after the last "/".
   */
  function BaseName(path: string): (r: string)
    ensures |r| <= |path| && r == path[|path| - |r|..]
    ensures '/' !in r
    ensures |r| < |path| ==> path[|path| - |r| - 1] == '/'
  {
    if path == [] || path[|path| - 1] == '/' then []
    else
      var init := BaseName(path[..|path| - 1]);
      init + [path[|path| - 1]]
  }

  /** The id of a record without one: the file's base name, "::" and the position among the accepted questions, from one. */
  function FallbackId(path: string, count: nat): string {
    BaseName(path) + "::" + NatToString(count + 1)
  }

  /** str(q["id"]), or the fallback id when the id is missing or null. */
  function IdOf(fields: seq<Field>, path: string, count: nat): string {
    var v := Get(fields, "id");
    if v.None? || v.value == JNull then FallbackId(path, count) else Str(v.value)
  }

  /**
   * The difficulty: a string of decimal digits becomes its integer value;
   * everything else is kept as given.
   */
  function Difficulty(d: Json): (r: Json)
    ensures d.JStr? && d.s != [] && (forall i :: 0 <= i < |d.s| ==> IsDecimal(d.s[i])) ==> r.JInt? && r.i >= 0
    ensures !d.JStr? ==> r == d
  {
    if d.JStr? && d.s != [] && forall i :: 0 <= i < |d.s| ==> IsDecimal(d.s[i])
    then JInt(DigitsValue(d.s))
    else d
  }

  /**
   * The difficulty line as written: `int(d) if str(d).isdigit() else d`.
   * str.isdigit also accepts the superscript digits, which int() refuses.
   */
  function DifficultyAsWritten(d: Json): (r: Result<Json>)
    ensures r.Err? <==> d.JStr? && IsDigitString(d.s) && exists i :: 0 <= i < |d.s| && !IsDecimal(d.s[i])
  {
    if IsDigitString(Str(d)) then
      StrOfDigits(d);
      if d.JStr? then
        if forall i :: 0 <= i < |d.s| ==> IsDecimal(d.s[i]) then Ok(JInt(DigitsValue(d.s)))
        else Err(NotAnInteger)
      else Ok(d)
    else Ok(d)
  }

  /** Wherever the line as written does not raise, the corrected one gives the same value. */
  lemma DifficultyAgrees(d: Json)
    ensures DifficultyAsWritten(d).Ok? ==> DifficultyAsWritten(d).value == Difficulty(d)
  {
    if DifficultyAsWritten(d).Ok? && d.JStr? && d.s != [] && forall i :: 0 <= i < |d.s| ==> IsDecimal(d.s[i]) {
      assert IsDigitString(Str(d));
    }
  }

  /** A difficulty of "²" passes str.isdigit and then makes int() raise. */
  lemma SuperscriptDifficultyRaises()
    ensures DifficultyAsWritten(JStr("\U{B2}")).Err?
    ensures Difficulty(JStr("\U{B2}")) == JStr("\U{B2}")
  {
    assert !IsDecimal("\U{B2}"[0]);
  }

  /** The corrected conversion reads back what str() of a natural number wrote. */
  lemma DifficultyRoundTrip(n: nat)
    ensures Difficulty(JStr(NatToString(n))) == JInt(n)
    ensures Difficulty(JInt(n)) == JInt(n)
  {
    NatToStringRoundTrip(n);
  }

  /** What every accepted question satisfies. */
  predicate WellFormed(q: Question) {
    Clean(q.text)
    && q.answers != []
    && (forall i :: 0 <= i < |q.answers| ==> Clean(q.answers[i]))
    && (forall i :: 0 <= i < |q.aliases| ==> Clean(q.aliases[i]))
    && (forall i :: 0 <= i < |q.tags| ==> Clean(q.tags[i]))
    && (q.category.Some? ==> Strip(q.category.value) == q.category.value)
  }

  /**
   * _normalize_question: rejects what is not a dict, has no non-blank question
   * text or no non-blank answer; otherwise builds the stored question. `count`
   * is the number of questions accepted before this one.
   */
  function NormalizeQuestion(raw: Json, path: string, count: nat): (r: Option<Question>)
    ensures r.None? <==> !raw.JObj? || !HasText(raw.fields) || !HasAnswer(raw.fields)
  {
    if !raw.JObj? || !HasText(raw.fields) || !HasAnswer(raw.fields) then None
    else
      var f := raw.fields;
      var text := Get(f, "question").value.s;
      var answers := Get(f, "answers").value.items;
      var category := Get(f, "category");
      var tags := WithCategoryTag(category, ListOrEmpty(Get(f, "tags")));
      Some(Question(
        IdOf(f, path, count),
        if category.Some? && category.value.JStr? then Some(Strip(category.value.s)) else None,
        Strip(text),
        Cleaned(answers),
        Cleaned(ListOrEmpty(Get(f, "aliases"))),
        Cleaned(tags),
        Difficulty(GetOr(f, "difficulty", JInt(2))),
        GetOr(f, "lang", JStr("ru")),
        GetOr(f, "meta", JObj([]))))
  }

  /** The question is tagged n: one of its tags normalises to n. */
  predicate IsTagged(q: Question, n: string) {
    exists i :: 0 <= i < |q.tags| && Normalize(q.tags[i]) == n
  }

  /**
   * An accepted record has a non-blank stripped text, at least one answer, and
   * only clean answers, aliases and tags; a string category is stored stripped.
   */
  lemma NormalizeQuestionWellFormed(raw: Json, path: string, count: nat)
    requires NormalizeQuestion(raw, path, count).Some?
    ensures WellFormed(NormalizeQuestion(raw, path, count).value)
  {
    AcceptedText(raw, path, count);
    AcceptedAnswers(raw, path, count);
    AcceptedCategory(raw, path, count);
  }

  lemma AcceptedText(raw: Json, path: string, count: nat)
    requires NormalizeQuestion(raw, path, count).Some?
    ensures Clean(NormalizeQuestion(raw, path, count).value.text)
  {
    StripIdempotent(Get(raw.fields, "question").value.s);
  }

  lemma AcceptedAnswers(raw: Json, path: string, count: nat)
    requires NormalizeQuestion(raw, path, count).Some?
    ensures NormalizeQuestion(raw, path, count).value.answers != []
  {
    var answers := Get(raw.fields, "answers").value.items;
    var i :| 0 <= i < |answers| && answers[i].JStr? && Strip(answers[i].s) != [];
    CleanedMembers(answers, Strip(answers[i].s));
  }

  lemma AcceptedCategory(raw: Json, path: string, count: nat)
    requires NormalizeQuestion(raw, path, count).Some?
    ensures var c := NormalizeQuestion(raw, path, count).value.category;
      c.Some? ==> Strip(c.value) == c.value
  {
    var category := Get(raw.fields, "category");
    if category.Some? && category.value.JStr? {
      StripIdempotent(category.value.s);
    }
  }

  /** The category tag step followed by clean_list: at most the normal form is appended. */
  lemma CleanedWithCategory(c: string, tags: seq<Json>)
    ensures var n := Normalize(c);
      Cleaned(WithCategoryTag(Some(JStr(c)), tags))
        == Cleaned(tags) + (if Strip(c) != [] && n != [] && !HasNormalForm(tags, n) then [n] else [])
  {
    var n := Normalize(c);
    if Strip(c) != [] && n != [] && !HasNormalForm(tags, n) {
      CategoryAppended(c, tags);
    } else {
      CategoryNotAppended(c, tags);
    }
  }

  lemma CategoryNotAppended(c: string, tags: seq<Json>)
    requires !(Strip(c) != [] && Normalize(c) != [] && !HasNormalForm(tags, Normalize(c)))
    ensures Cleaned(WithCategoryTag(Some(JStr(c)), tags)) == Cleaned(tags) + []
  {
    assert WithCategoryTag(Some(JStr(c)), tags) == tags;
    assert Cleaned(tags) + [] == Cleaned(tags);
  }

  /** An appended category tag is already clean, so clean_list keeps it at the end. */
  lemma CategoryAppended(c: string, tags: seq<Json>)
    requires Strip(c) != [] && Normalize(c) != [] && !HasNormalForm(tags, Normalize(c))
    ensures Cleaned(WithCategoryTag(Some(JStr(c)), tags)) == Cleaned(tags) + [Normalize(c)]
  {
    var n := Normalize(c);
    assert WithCategoryTag(Some(JStr(c)), tags) == tags + [JStr(n)];
    NormalizeShape(c);
    CleanOneOfClean(n);
    CleanedAppend(tags, [JStr(n)]);
    assert [JStr(n)][..0] == [];
  }

  /** A string tag with a non-empty normal form survives clean_list with that normal form. */
  lemma TagSurvives(tags: seq<Json>, n: string)
    requires n != [] && HasNormalForm(tags, n)
    ensures exists j :: 0 <= j < |Cleaned(tags)| && Normalize(Cleaned(tags)[j]) == n
  {
    var i :| 0 <= i < |tags| && tags[i].JStr? && Normalize(tags[i].s) == n;
    var t := tags[i].s;
    if Strip(t) == [] {
      BlankNormalizesEmpty(t);
    }
    NormalizeOfStrip(t);
    CleanedMembers(tags, Strip(t));
    var j :| 0 <= j < |Cleaned(tags)| && Cleaned(tags)[j] == Strip(t);
  }

  /** After the category tag step and clean_list, some tag normalises to the category's normal form. */
  lemma CategoryReached(c: string, tags: seq<Json>)
    requires Normalize(c) != []
    ensures var r := Cleaned(WithCategoryTag(Some(JStr(c)), tags));
      exists j :: 0 <= j < |r| && Normalize(r[j]) == Normalize(c)
  {
    var n := Normalize(c);
    if HasNormalForm(tags, n) {
      assert WithCategoryTag(Some(JStr(c)), tags) == tags;
      TagSurvives(tags, n);
    } else {
      AppendedReached(c, tags);
    }
  }

  lemma AppendedReached(c: string, tags: seq<Json>)
    requires Normalize(c) != [] && !HasNormalForm(tags, Normalize(c))
    ensures var r := Cleaned(WithCategoryTag(Some(JStr(c)), tags));
      r != [] && r[|r| - 1] == Normalize(c) && Normalize(r[|r| - 1]) == Normalize(c)
  {
    assert Strip(c) != [] by {
      if Strip(c) == [] {
        BlankNormalizesEmpty(c);
      }
    }
    CleanedWithCategory(c, tags);
    NormalizeIdempotent(c);
  }

  /**
   * The category tag: the stored tags are the cleaned tags of the record, followed
   * by the normalised category exactly when it is non-blank and no string tag
   * already normalises to it.
   */
  lemma CategoryTagged(raw: Json, path: string, count: nat)
    requires NormalizeQuestion(raw, path, count).Some?
    ensures var f := raw.fields;
      var category := Get(f, "category");
      var tags := ListOrEmpty(Get(f, "tags"));
      var appended := category.Some? && category.value.JStr? && Strip(category.value.s) != []
        && Normalize(category.value.s) != [] && !HasNormalForm(tags, Normalize(category.value.s));
      NormalizeQuestion(raw, path, count).value.tags
        == Cleaned(tags) + (if appended then [Normalize(category.value.s)] else [])
  {
    TagStep(Get(raw.fields, "category"), ListOrEmpty(Get(raw.fields, "tags")));
  }

  /** The category tag step followed by clean_list, for any value of the category field. */
  lemma TagStep(category: Option<Json>, tags: seq<Json>)
    ensures var appended := category.Some? && category.value.JStr? && Strip(category.value.s) != []
        && Normalize(category.value.s) != [] && !HasNormalForm(tags, Normalize(category.value.s));
      Cleaned(WithCategoryTag(category, tags))
        == Cleaned(tags) + (if appended then [Normalize(category.value.s)] else [])
  {
    if category.Some? && category.value.JStr? {
      CleanedWithCategory(category.value.s, tags);
    } else {
      assert WithCategoryTag(category, tags) == tags;
    }
  }

  /** A category with a non-empty normal form leaves the question tagged with that normal form. */
  lemma CategoryTagReached(raw: Json, path: string, count: nat)
    requires NormalizeQuestion(raw, path, count).Some?
    requires var category := Get(raw.fields, "category");
      category.Some? && category.value.JStr? && Normalize(category.value.s) != []
    ensures IsTagged(NormalizeQuestion(raw, path, count).value, Normalize(Get(raw.fields, "category").value.s))
  {
    CategoryReached(Get(raw.fields, "category").value.s, ListOrEmpty(Get(raw.fields, "tags")));
  }

  /** A record without an id (or with a null one) is named after its file and its position. */
  lemma MissingIdFallback(raw: Json, path: string, count: nat)
    requires NormalizeQuestion(raw, path, count).Some?
    requires Get(raw.fields, "id").None? || Get(raw.fields, "id") == Some(JNull)
    ensures var id := NormalizeQuestion(raw, path, count).value.id;
      var digits := NatToString(count + 1);
      id == BaseName(path) + "::" + digits && DigitsValue(digits) == count + 1
  {
    IdStored(raw, path, count);
    NatToStringRoundTrip(count + 1);
  }

  /**
   * A record's own id is kept: a string id verbatim, an integer id as its
   * decimal numeral, so no given id is replaced by the fallback.
   */
  lemma PresentIdKept(raw: Json, path: string, count: nat)
    requires raw.JObj? && NormalizeQuestion(raw, path, count).Some?
    requires Get(raw.fields, "id").Some? && Get(raw.fields, "id") != Some(JNull)
    ensures var v := Get(raw.fields, "id").value;
      var id := NormalizeQuestion(raw, path, count).value.id;
      (v.JStr? ==> id == v.s) && (v.JInt? ==> id == IntToString(v.i))
      && (v.JInt? && v.i >= 0 ==> (forall k :: 0 <= k < |id| ==> IsDecimal(id[k])) && DigitsValue(id) == v.i)
  {
    IdStored(raw, path, count);
    GivenId(raw.fields, path, count, NormalizeQuestion(raw, path, count).value.id);
  }

  lemma IdStored(raw: Json, path: string, count: nat)
    requires NormalizeQuestion(raw, path, count).Some?
    ensures NormalizeQuestion(raw, path, count).value.id == IdOf(raw.fields, path, count)
  {
  }

  lemma GivenId(fields: seq<Field>, path: string, count: nat, id: string)
    requires Get(fields, "id").Some? && Get(fields, "id") != Some(JNull)
    requires id == IdOf(fields, path, count)
    ensures var v := Get(fields, "id").value;
      (v.JStr? ==> id == v.s) && (v.JInt? ==> id == IntToString(v.i))
      && (v.JInt? && v.i >= 0 ==> (forall k :: 0 <= k < |id| ==> IsDecimal(id[k])) && DigitsValue(id) == v.i)
  {
    var v := Get(fields, "id").value;
    if v.JInt? && v.i >= 0 {
      NatToStringRoundTrip(v.i);
    }
  }

  // ----------------------------------------------------------------------
  // Loading
  // ----------------------------------------------------------------------

  /** The records of a file: {"questions": [...]} or a bare list; any other shape is ignored. */
  function Items(data: Json): (r: seq<Json>)
    ensures data.JList? ==> r == data.items
    ensures data.JObj? ==> var v := Get(data.fields, "questions");
      r == (if v.Some? && v.value.JList? then v.value.items else [])
    ensures !data.JList? && !data.JObj? ==> r == []
  {
    if data.JObj? && Get(data.fields, "questions").Some? && Get(data.fields, "questions").value.JList?
    then Get(data.fields, "questions").value.items
    else if data.JList? then data.items
    else []
  }

  lemma PrefixOfPrefix(a: seq<Question>, b: seq<Question>, c: seq<Question>)
    requires |a| <= |b| <= |c| && b[..|a|] == a && c[..|b|] == b
    ensures c[..|a|] == a
  {
    assert c[..|a|] == c[..|b|][..|a|];
  }

  /** One record of a file: appended to qs when it is accepted. */
  function AdmitOne(qs: seq<Question>, path: string, raw: Json): (r: seq<Question>)
    ensures |qs| <= |r| <= |qs| + 1 && r[..|qs|] == qs
  {
    var q := NormalizeQuestion(raw, path, |qs|);
    if q.Some? then qs + [q.value] else qs
  }

  lemma AdmitOneWellFormed(qs: seq<Question>, path: string, raw: Json)
    ensures forall i :: |qs| <= i < |AdmitOne(qs, path, raw)| ==> WellFormed(AdmitOne(qs, path, raw)[i])
  {
    var q := NormalizeQuestion(raw, path, |qs|);
    if q.Some? {
      NormalizeQuestionWellFormed(raw, path, |qs|);
      AppendWellFormed(qs, q.value);
    }
  }

  lemma AppendWellFormed(qs: seq<Question>, q: Question)
    requires WellFormed(q)
    ensures forall i :: |qs| <= i < |qs + [q]| ==> WellFormed((qs + [q])[i])
  {
  }

  /** _load_file after the parse: the accepted records of items are appended to qs, in order. */
  function {:induction false} Admit(qs: seq<Question>, path: string, items: seq<Json>): (r: seq<Question>)
    ensures |qs| <= |r| <= |qs| + |items| && r[..|qs|] == qs
    decreases |items|
  {
    if items == [] then qs
    else
      var next := AdmitOne(qs, path, items[0]);
      var r := Admit(next, path, items[1..]);
      PrefixOfPrefix(qs, next, r);
      r
  }

  /** Admit takes the records one at a time, first to last. */
  lemma AdmitStep(qs: seq<Question>, path: string, items: seq<Json>)
    requires items != []
    ensures Admit(qs, path, items) == Admit(AdmitOne(qs, path, items[0]), path, items[1..])
  {
  }

  lemma {:induction false} AdmitWellFormed(qs: seq<Question>, path: string, items: seq<Json>)
    ensures forall i :: |qs| <= i < |Admit(qs, path, items)| ==> WellFormed(Admit(qs, path, items)[i])
    decreases |items|
  {
    if items != [] {
      var next := AdmitOne(qs, path, items[0]);
      var r := Admit(next, path, items[1..]);
      AdmitOneWellFormed(qs, path, items[0]);
      AdmitWellFormed(next, path, items[1..]);
      assert Admit(qs, path, items) == r;
      forall i | |qs| <= i < |next| ensures WellFormed(r[i]) {
        assert r[i] == r[..|next|][i] == next[i];
        assert WellFormed(next[i]);
      }
    }
  }

  /** The questions after loading the files one after the other onto qs. */
  function {:induction false} LoadAll(qs: seq<Question>, files: seq<SourceFile>): (r: seq<Question>)
    ensures |qs| <= |r| && r[..|qs|] == qs
    decreases |files|
  {
    if files == [] then qs
    else
      var next := Admit(qs, files[0].path, Items(files[0].data));
      var r := LoadAll(next, files[1..]);
      PrefixOfPrefix(qs, next, r);
      r
  }

  /** LoadAll takes the files one at a time, first to last. */
  lemma LoadAllStep(qs: seq<Question>, files: seq<SourceFile>)
    requires files != []
    ensures LoadAll(qs, files) == LoadAll(Admit(qs, files[0].path, Items(files[0].data)), files[1..])
  {
  }

  lemma {:induction false} LoadAllWellFormed(qs: seq<Question>, files: seq<SourceFile>)
    ensures forall i :: |qs| <= i < |LoadAll(qs, files)| ==> WellFormed(LoadAll(qs, files)[i])
    decreases |files|
  {
    if files != [] {
      var next := Admit(qs, files[0].path, Items(files[0].data));
      var r := LoadAll(next, files[1..]);
      AdmitWellFormed(qs, files[0].path, Items(files[0].data));
      LoadAllWellFormed(next, files[1..]);
      assert LoadAll(qs, files) == r;
      forall i | |qs| <= i < |next| ensures WellFormed(r[i]) {
        assert r[i] == r[..|next|][i] == next[i];
        assert WellFormed(next[i]);
      }
    }
  }

  /** The catalogue built by load from the files, in order. */
  function Catalog(files: seq<SourceFile>): seq<Question> {
    LoadAll([], files)
  }

  /** Every question of the catalogue has passed validation and repair. */
  lemma CatalogWellFormed(files: seq<SourceFile>)
    ensures forall i :: 0 <= i < |Catalog(files)| ==> WellFormed(Catalog(files)[i])
  {
    var r := LoadAll([], files);
    LoadAllWellFormed([], files);
    assert Catalog(files) == r;
  }

  /** by_id: every question under its id, a later question replacing an earlier one with the same id. */
  function {:induction false} ById(qs: seq<Question>): (m: map<string, Question>)
    ensures forall k :: k in m <==> exists i :: 0 <= i < |qs| && qs[i].id == k
  {
    if qs == [] then map[]
    else
      var init := qs[..|qs| - 1];
      var m := ById(init)[qs[|qs| - 1].id := qs[|qs| - 1]];
      assert forall i :: 0 <= i < |init| ==> init[i] == qs[i];
      m
  }

  /** by_id[k] is the last question with id k. */
  lemma {:induction false} ByIdLast(qs: seq<Question>, i: int)
    requires 0 <= i < |qs|
    requires forall j :: i < j < |qs| ==> qs[j].id != qs[i].id
    ensures qs[i].id in ById(qs) && ById(qs)[qs[i].id] == qs[i]
  {
    if i < |qs| - 1 {
      var init := qs[..|qs| - 1];
      assert init[i] == qs[i];
      ByIdLast(init, i);
    }
  }

  // ----------------------------------------------------------------------
  // Scopes
  // ----------------------------------------------------------------------

  /** The ids of the questions that satisfy p, in catalogue order. */
  function {:induction false} Select(qs: seq<Question>, p: Question -> bool): (r: seq<string>)
    ensures |r| <= |qs|
    ensures forall k :: k in r <==> exists i :: 0 <= i < |qs| && qs[i].id == k && p(qs[i])
  {
    if qs == [] then []
    else
      var init := qs[..|qs| - 1];
      var last := qs[|qs| - 1];
      assert forall i :: 0 <= i < |init| ==> init[i] == qs[i];
      Select(init, p) + (if p(last) then [last.id] else [])
  }

  /**
   * A filter keeps the catalogue order and each question's multiplicity: it
   * works question by question, a single question giving its id or nothing.
   */
  lemma {:induction false} SelectAppend(a: seq<Question>, b: seq<Question>, p: Question -> bool)
    ensures Select(a + b, p) == Select(a, p) + Select(b, p)
    ensures |b| == 1 ==> Select(b, p) == (if p(b[0]) then [b[0].id] else [])
  {
    if b != [] {
      var init := b[..|b| - 1];
      assert (a + b)[..|a + b| - 1] == a + init;
      assert (a + b)[|a + b| - 1] == b[|b| - 1];
      SelectAppend(a, init, p);
      if |b| == 1 {
        assert init == [];
      }
    } else {
      assert a + b == a;
    }
  }

  /** All ids, in catalogue order. */
  function AllIds(qs: seq<Question>): (r: seq<string>)
    ensures |r| == |qs| && forall i :: 0 <= i < |qs| ==> r[i] == qs[i].id
  {
    seq(|qs|, i requires 0 <= i < |qs| => qs[i].id)
  }

  /**
   * _ids_for_tag: "all" is every id in catalogue order; any other tag selects the
   * questions one of whose tags has the tag's normal form.
   */
  function IdsForTag(qs: seq<Question>, tag: string): (r: seq<string>)
    ensures tag == "all" ==> |r| == |qs| && forall i :: 0 <= i < |qs| ==> r[i] == qs[i].id
    ensures tag != "all" ==> forall k :: k in r <==>
      exists i :: 0 <= i < |qs| && qs[i].id == k && IsTagged(qs[i], Normalize(tag))
  {
    if tag == "all" then AllIds(qs) else Select(qs, q => IsTagged(q, Normalize(tag)))
  }

  /** The category text compared by _next_by_category: `q.get("category") or ""`. */
  function CategoryText(q: Question): string {
    q.category.GetOr("")
  }

  /** The ids of the questions whose category has normal form n, in catalogue order. */
  function CategoryIds(qs: seq<Question>, n: string): (r: seq<string>)
    ensures forall k :: k in r <==>
      exists i :: 0 <= i < |qs| && qs[i].id == k && Normalize(CategoryText(qs[i])) == n
  {
    Select(qs, q => Normalize(CategoryText(q)) == n)
  }

  predicate Distinct(s: seq<string>) {
    forall i, j :: 0 <= i < j < |s| ==> s[i] != s[j]
  }

  /** With distinct ids in the catalogue, every scope lists distinct ids. */
  lemma {:induction false} SelectDistinct(qs: seq<Question>, p: Question -> bool)
    requires Distinct(AllIds(qs))
    ensures Distinct(Select(qs, p))
  {
    if qs != [] {
      var init := qs[..|qs| - 1];
      var last := qs[|qs| - 1];
      assert AllIds(init) == AllIds(qs)[..|qs| - 1];
      SelectDistinct(init, p);
      forall i | 0 <= i < |init| ensures init[i].id != last.id {
        assert AllIds(qs)[i] != AllIds(qs)[|qs| - 1];
      }
      assert last.id !in Select(init, p);
    }
  }

  // ----------------------------------------------------------------------
  // Draw bags
  // ----------------------------------------------------------------------

  predicate IsPermutation(a: seq<string>, b: seq<string>) {
    multiset(a) == multiset(b)
  }

  /** The bag after one draw and the id drawn, if any. */
  datatype Drawn = Drawn(bag: seq<string>, id: Option<string>)

  /**
   * One draw: the bag is refilled with `shuffled` only when it is empty; then its
   * last id is removed and returned. An empty bag after the refill yields no id
   * (list.pop on an empty list raises) and stays stored empty.
   */
  function Draw(current: seq<string>, shuffled: seq<string>): (d: Drawn)
    ensures var source := if current == [] then shuffled else current;
      (source == [] <==> d.id.None?)
      && (d.id.None? ==> d.bag == [])
      && (d.id.Some? ==> d.bag + [d.id.value] == source)
  {
    var source := if current == [] then shuffled else current;
    if source == [] then Drawn([], None)
    else Drawn(source[..|source| - 1], Some(source[|source| - 1]))
  }

  /** The ids returned by consecutive draws, the i-th refill (if it happens) using shuffles[i]. */
  function {:induction false} Run(bag: seq<string>, shuffles: seq<seq<string>>): (out: seq<Option<string>>)
    ensures |out| == |shuffles|
    decreases |shuffles|
  {
    if shuffles == [] then []
    else
      var d := Draw(bag, shuffles[0]);
      [d.id] + Run(d.bag, shuffles[1..])
  }

  /** The values of the draws that produced an id. */
  function {:induction false} DrawnIds(out: seq<Option<string>>): (r: seq<string>)
    ensures |r| <= |out|
  {
    if out == [] then []
    else (if out[0].Some? then [out[0].value] else []) + DrawnIds(out[1..])
  }

  /** Without a refill, |b| draws empty the bag b, last id first. */
  lemma RunEmptiesBag(b: seq<string>, shuffles: seq<seq<string>>)
    requires |shuffles| == |b|
    ensures forall i :: 0 <= i < |b| ==> Run(b, shuffles)[i] == Some(b[|b| - 1 - i])
    ensures multiset(DrawnIds(Run(b, shuffles))) == multiset(b)
  {
    RunOrder(b, shuffles);
    RunHandsOut(b, shuffles);
  }

  lemma {:induction false} RunOrder(b: seq<string>, shuffles: seq<seq<string>>)
    requires |shuffles| == |b|
    ensures forall i :: 0 <= i < |b| ==> Run(b, shuffles)[i] == Some(b[|b| - 1 - i])
  {
    if b != [] {
      var init := b[..|b| - 1];
      var rest := Run(init, shuffles[1..]);
      RunOrder(init, shuffles[1..]);
      RunPops(b, shuffles);
      forall i | 0 <= i < |b| ensures Run(b, shuffles)[i] == Some(b[|b| - 1 - i]) {
        if i > 0 {
          assert Run(b, shuffles)[i] == rest[i - 1];
          assert init[|init| - 1 - (i - 1)] == b[|b| - 1 - i];
        }
      }
    }
  }

  lemma {:induction false} RunHandsOut(b: seq<string>, shuffles: seq<seq<string>>)
    requires |shuffles| == |b|
    ensures multiset(DrawnIds(Run(b, shuffles))) == multiset(b)
  {
    if b != [] {
      var init := b[..|b| - 1];
      var rest := Run(init, shuffles[1..]);
      RunHandsOut(init, shuffles[1..]);
      RunPops(b, shuffles);
      DrawnIdsCons(b[|b| - 1], rest);
      assert b == init + [b[|b| - 1]];
    }
  }

  /** A draw from a non-empty bag pops its last id. */
  lemma RunPops(b: seq<string>, shuffles: seq<seq<string>>)
    requires b != [] && shuffles != []
    ensures Run(b, shuffles) == [Some(b[|b| - 1])] + Run(b[..|b| - 1], shuffles[1..])
  {
  }

  lemma DrawnIdsCons(k: string, rest: seq<Option<string>>)
    ensures DrawnIds([Some(k)] + rest) == [k] + DrawnIds(rest)
  {
    assert ([Some(k)] + rest)[1..] == rest;
  }

  lemma {:induction false} DistinctOnce(s: seq<string>, k: string)
    requires Distinct(s) && k in s
    ensures multiset(s)[k] == 1
  {
    if s[0] == k {
      assert k !in s[1..];
      assert s == [s[0]] + s[1..];
    } else {
      assert s == [s[0]] + s[1..];
      DistinctOnce(s[1..], k);
    }
  }

  /**
   * Sampling without replacement: from an empty bag, refilled with a shuffle of a
   * scope of N distinct ids, N consecutive draws return every id of the scope
   * exactly once, whatever the later shuffles would have been.
   */
  lemma DrawRound(scope: seq<string>, shuffles: seq<seq<string>>)
    requires Distinct(scope) && scope != []
    requires |shuffles| == |scope| && IsPermutation(shuffles[0], scope)
    ensures var out := Run([], shuffles);
      (forall i :: 0 <= i < |out| ==> out[i].Some?)
      && multiset(DrawnIds(out)) == multiset(scope)
      && forall k :: k in scope ==> multiset(DrawnIds(out))[k] == 1
  {
    var p := shuffles[0];
    assert |p| == |scope| by {
      assert |multiset(p)| == |multiset(scope)|;
    }
    RefillFirst(shuffles);
    RunEmptiesBag(p, shuffles);
    DistinctCounts(scope);
  }

  /** Drawing from an empty bag starts by drawing from the first shuffle. */
  lemma RefillFirst(shuffles: seq<seq<string>>)
    requires shuffles != []
    ensures Run([], shuffles) == Run(shuffles[0], shuffles)
  {
  }

  lemma DistinctCounts(s: seq<string>)
    requires Distinct(s)
    ensures forall k :: k in s ==> multiset(s)[k] == 1
  {
    forall k | k in s ensures multiset(s)[k] == 1 {
      DistinctOnce(s, k);
    }
  }

  /** Drawing from a scope with no ids fails, and leaves the bag stored empty. */
  lemma EmptyScopeFails(qs: seq<Question>, tag: string, shuffled: seq<string>)
    requires IdsForTag(qs, tag) == [] && IsPermutation(shuffled, IdsForTag(qs, tag))
    ensures Draw([], shuffled) == Drawn([], None)
  {
    assert |multiset(shuffled)| == 0;
  }

  // ----------------------------------------------------------------------
  // Answers and listings
  // ----------------------------------------------------------------------

  /**
   * check_answer: the normal form of the text is non-empty and equals the normal
   * form of an answer or of an alias.
   */
  function CheckAnswer(q: Question, text: string): (r: bool)
    ensures r <==> Normalize(text) != [] && exists a :: a in q.answers + q.aliases && Normalize(a) == Normalize(text)
  {
    var t := Normalize(text);
    t != [] && t in (set a | a in q.answers + q.aliases :: Normalize(a))
  }

  /** Only the normal form of the text matters. */
  lemma CheckAnswerNormalForm(q: Question, text: string)
    ensures CheckAnswer(q, Normalize(text)) == CheckAnswer(q, text)
  {
    NormalizeIdempotent(text);
  }

  /** Every answer and alias with a non-empty normal form is accepted, in any spelling with the same normal form. */
  lemma CheckAnswerAccepts(q: Question, a: string, text: string)
    requires a in q.answers + q.aliases && Normalize(a) != []
    requires Normalize(text) == Normalize(a)
    ensures CheckAnswer(q, text)
  {
  }

  lemma ParisAccepted(q: Question)
    requires "Paris" in q.answers
    ensures CheckAnswer(q, "  PARIS  ") && CheckAnswer(q, "Paris!") && CheckAnswer(q, "paris")
  {
    CapitalParis();
    ParisExamples();
    assert "Paris" in q.answers + q.aliases;
  }

  /** Every tag of every question, in catalogue order. */
  function {:induction false} AllTags(qs: seq<Question>): (r: seq<string>)
    ensures forall t :: t in r <==> exists i :: 0 <= i < |qs| && t in qs[i].tags
  {
    if qs == [] then []
    else
      var init := qs[..|qs| - 1];
      assert forall i :: 0 <= i < |init| ==> init[i] == qs[i];
      AllTags(init) + qs[|qs| - 1].tags
  }

  function {:induction false} Without(xs: seq<string>, x: string): (r: seq<string>)
    ensures forall y :: y in r <==> y in xs && y != x
  {
    if xs == [] then []
    else (if xs[0] == x then [] else [xs[0]]) + Without(xs[1..], x)
  }

  /** list_tags: every tag of the catalogue but "all", sorted, each once. */
  function ListTags(qs: seq<Question>): (r: seq<string>)
    ensures StrictlySorted(r)
    ensures forall t :: t in r <==> t != "all" && exists i :: 0 <= i < |qs| && t in qs[i].tags
  {
    SortDistinct(Without(AllTags(qs), "all"))
  }

  /** The non-empty categories, in catalogue order. */
  function {:induction false} AllCategories(qs: seq<Question>): (r: seq<string>)
    ensures forall c :: c in r <==> c != [] && exists i :: 0 <= i < |qs| && qs[i].category == Some(c)
  {
    if qs == [] then []
    else
      var init := qs[..|qs| - 1];
      var last := qs[|qs| - 1];
      assert forall i :: 0 <= i < |init| ==> init[i] == qs[i];
      AllCategories(init) + (if last.category.Some? && last.category.value != [] then [last.category.value] else [])
  }

  /** list_categories: every non-empty category, sorted, each once. */
  function ListCategories(qs: seq<Question>): (r: seq<string>)
    ensures StrictlySorted(r)
    ensures forall c :: c in r <==> c != [] && exists i :: 0 <= i < |qs| && qs[i].category == Some(c)
  {
    SortDistinct(AllCategories(qs))
  }

  // ----------------------------------------------------------------------
  // The engine
  // ----------------------------------------------------------------------

  /** The bag stored for a scope, an absent one reading as empty. */
  function Lookup(bags: map<string, seq<string>>, key: string): seq<string> {
    if key in bags then bags[key] else []
  }

  /** Every id waiting in a bag is a key of by_id. */
  ghost predicate Known(bags: map<string, seq<string>>, byId: map<string, Question>) {
    forall t, i :: t in bags && 0 <= i < |bags[t]| ==> bags[t][i] in byId
  }

  /** One draw from the bag of a tag, the refill (if any) being `shuffled`. */
  ghost predicate TagDraw(qs: seq<Question>, byId: map<string, Question>,
                          before: map<string, seq<string>>, after: map<string, seq<string>>,
                          tag: string, shuffled: seq<string>, r: Result<Question>)
  {
    IsPermutation(shuffled, IdsForTag(qs, tag))
    && var d := Draw(Lookup(before, tag), shuffled);
    after == before[tag := d.bag]
    && (d.id.None? ==> r == Err(EmptyScope))
    && (d.id.Some? ==> d.id.value in byId && r == Ok(byId[d.id.value]))
  }

  /**
   * One draw from the bag of a category (keyed by its normal form); when that
   * scope has no ids, one draw from the bag of "all" instead.
   */
  ghost predicate CategoryDraw(qs: seq<Question>, byId: map<string, Question>,
                               tagsBefore: map<string, seq<string>>, tagsAfter: map<string, seq<string>>,
                               before: map<string, seq<string>>, after: map<string, seq<string>>,
                               category: string, shuffled: seq<string>, fallback: seq<string>, r: Result<Question>)
  {
    var n := Normalize(category);
    IsPermutation(shuffled, CategoryIds(qs, n))
    && var d := Draw(Lookup(before, n), shuffled);
    after == before[n := d.bag]
    && (d.id.Some? ==> d.id.value in byId && r == Ok(byId[d.id.value]) && tagsAfter == tagsBefore)
    && (d.id.None? ==> TagDraw(qs, byId, tagsBefore, tagsAfter, "all", fallback, r))
  }

  class QuizEngine {
    var questions: seq<Question>
    var byId: map<string, Question>
    var bagByTag: map<string, seq<string>>
    var bagByCategory: map<string, seq<string>>

    ghost predicate Valid()
      reads this
    {
      byId == ById(questions) && Known(bagByTag, byId) && Known(bagByCategory, byId)
    }

    /** QuizEngine(path): an engine loaded from the files found at the path. */
    constructor (files: seq<SourceFile>)
      ensures Valid()
      ensures questions == Catalog(files) && bagByTag == map[] && bagByCategory == map[]
    {
      questions, byId, bagByTag, bagByCategory := [], map[], map[], map[];
      new;
      Load(files);
    }

    /** load: reset everything, load the files in order, then index the questions by id. */
    method Load(files: seq<SourceFile>)
      modifies this
      ensures Valid()
      ensures questions == Catalog(files) && bagByTag == map[] && bagByCategory == map[]
    {
      questions, byId, bagByTag, bagByCategory := [], map[], map[], map[];
      LoadFiles(files);
      IndexById();
      NothingKnown(byId);
    }

    /** The loop of load over the files: starting empty, the catalogue of the files is built. */
    method LoadFiles(files: seq<SourceFile>)
      requires questions == []
      modifies this
      ensures questions == Catalog(files)
      ensures byId == old(byId) && bagByTag == old(bagByTag) && bagByCategory == old(bagByCategory)
    {
      var i := 0;
      while i < |files|
        invariant 0 <= i <= |files|
        invariant LoadAll(questions, files[i..]) == Catalog(files)
        invariant byId == old(byId) && bagByTag == old(bagByTag) && bagByCategory == old(bagByCategory)
      {
        LoadAllStep(questions, files[i..]);
        assert files[i..][1..] == files[i + 1..];
        LoadFile(files[i]);
        i := i + 1;
      }
      assert files[i..] == [];
    }

    /** The closing loop of load: by_id maps every question's id to the last question with it. */
    method IndexById()
      modifies this
      ensures byId == ById(questions)
      ensures questions == old(questions) && bagByTag == old(bagByTag) && bagByCategory == old(bagByCategory)
    {
      byId := map[];
      var j := 0;
      while j < |questions|
        invariant 0 <= j <= |questions|
        invariant byId == ById(questions[..j])
        invariant questions == old(questions) && bagByTag == old(bagByTag) && bagByCategory == old(bagByCategory)
      {
        assert questions[..j + 1][..j] == questions[..j];
        byId := byId[questions[j].id := questions[j]];
        j := j + 1;
      }
      assert questions[..j] == questions;
    }

    /** _load_file: the accepted records of one file are appended. */
    method LoadFile(file: SourceFile)
      modifies this
      ensures questions == Admit(old(questions), file.path, Items(file.data))
      ensures byId == old(byId) && bagByTag == old(bagByTag) && bagByCategory == old(bagByCategory)
    {
      var items := Items(file.data);
      var i := 0;
      while i < |items|
        invariant 0 <= i <= |items|
        invariant Admit(questions, file.path, items[i..]) == Admit(old(questions), file.path, items)
        invariant byId == old(byId) && bagByTag == old(bagByTag) && bagByCategory == old(bagByCategory)
      {
        AdmitStep(questions, file.path, items[i..]);
        assert items[i..][1..] == items[i + 1..];
        questions := AdmitOne(questions, file.path, items[i]);
        i := i + 1;
      }
    }

    /**
     * next_question: a non-empty category draws from that category, anything
     * else from the tag.
     */
    method NextQuestion(tag: string, category: Option<string>)
      returns (r: Result<Question>, ghost shuffled: seq<string>, ghost fallback: seq<string>)
      requires Valid()
      modifies this
      ensures Valid()
      ensures questions == old(questions) && byId == old(byId)
      ensures category.Some? && category.value != [] ==>
        CategoryDraw(questions, byId, old(bagByTag), bagByTag, old(bagByCategory), bagByCategory,
                     category.value, shuffled, fallback, r)
      ensures !(category.Some? && category.value != []) ==>
        TagDraw(questions, byId, old(bagByTag), bagByTag, tag, shuffled, r)
        && bagByCategory == old(bagByCategory)
    {
      if category.Some? && category.value != [] {
        r, shuffled, fallback := NextByCategory(category.value);
      } else {
        r, shuffled := NextByTag(tag);
        fallback := [];
      }
    }

    /** The tag branch of next_question. */
    method NextByTag(tag: string) returns (r: Result<Question>, ghost shuffled: seq<string>)
      requires Valid()
      modifies this
      ensures Valid()
      ensures questions == old(questions) && byId == old(byId) && bagByCategory == old(bagByCategory)
      ensures TagDraw(questions, byId, old(bagByTag), bagByTag, tag, shuffled, r)
    {
      var ids := IdsForTag(questions, tag);
      var current := Lookup(bagByTag, tag);
      var source := ids;
      if current == [] {
        assert IsPermutation(ids, ids);
        source :| IsPermutation(source, ids);
      }
      shuffled := source;
      ScopeIdsKnown(questions, tag, source);
      var d := Draw(current, source);
      DrawKnown(bagByTag, byId, tag, source);
      bagByTag := bagByTag[tag := d.bag];
      if d.id.None? {
        r := Err(EmptyScope);
      } else {
        r := Ok(byId[d.id.value]);
      }
    }

    /** _next_by_category. */
    method NextByCategory(category: string)
      returns (r: Result<Question>, ghost shuffled: seq<string>, ghost fallback: seq<string>)
      requires Valid()
      modifies this
      ensures Valid()
      ensures questions == old(questions) && byId == old(byId)
      ensures CategoryDraw(questions, byId, old(bagByTag), bagByTag, old(bagByCategory), bagByCategory,
                           category, shuffled, fallback, r)
    {
      var catN := Normalize(category);
      var ids := CategoryIds(questions, catN);
      var current := Lookup(bagByCategory, catN);
      var source := ids;
      if current == [] {
        assert IsPermutation(ids, ids);
        source :| IsPermutation(source, ids);
      }
      shuffled, fallback := source, [];
      CategoryIdsKnown(questions, catN, source);
      var d := Draw(current, source);
      DrawKnown(bagByCategory, byId, catN, source);
      bagByCategory := bagByCategory[catN := d.bag];
      if d.id.None? {
        r, fallback := NextByTag("all");
      } else {
        r := Ok(byId[d.id.value]);
      }
    }
  }

  /** A draw from bags of known ids, refilled with known ids, keeps every bag known and returns a known id. */
  lemma DrawKnown(bags: map<string, seq<string>>, byId: map<string, Question>, key: string, shuffled: seq<string>)
    requires Known(bags, byId)
    requires forall i :: 0 <= i < |shuffled| ==> shuffled[i] in byId
    ensures Known(bags[key := Draw(Lookup(bags, key), shuffled).bag], byId)
    ensures Draw(Lookup(bags, key), shuffled).id.Some? ==> Draw(Lookup(bags, key), shuffled).id.value in byId
  {
    var current := Lookup(bags, key);
    var source := if current == [] then shuffled else current;
    var d := Draw(current, shuffled);
    assert forall i :: 0 <= i < |source| ==> source[i] in byId;
    if d.id.Some? {
      assert d.bag + [d.id.value] == source;
      assert forall i :: 0 <= i < |d.bag| ==> d.bag[i] == source[i];
      assert d.id.value == source[|source| - 1];
    }
  }

  /** No bag holds an id yet. */
  lemma NothingKnown(byId: map<string, Question>)
    ensures Known(map[], byId)
  {
  }

  /** An id of the catalogue is a key of by_id. */
  lemma IdKnown(qs: seq<Question>, j: int)
    requires 0 <= j < |qs|
    ensures qs[j].id in ById(qs)
  {
  }

  /** Every id of a tag scope is a key of by_id. */
  lemma TagScopeKnown(qs: seq<Question>, tag: string, k: string)
    requires k in IdsForTag(qs, tag)
    ensures k in ById(qs)
  {
    var ids := IdsForTag(qs, tag);
    if tag == "all" {
      var j :| 0 <= j < |ids| && ids[j] == k;
      IdKnown(qs, j);
    } else {
      var j :| 0 <= j < |qs| && qs[j].id == k && IsTagged(qs[j], Normalize(tag));
      IdKnown(qs, j);
    }
  }

  /** Every id of a category scope is a key of by_id. */
  lemma CategoryScopeKnown(qs: seq<Question>, n: string, k: string)
    requires k in CategoryIds(qs, n)
    ensures k in ById(qs)
  {
    var j :| 0 <= j < |qs| && qs[j].id == k && Normalize(CategoryText(qs[j])) == n;
    IdKnown(qs, j);
  }

  /** A shuffle of a tag scope holds only ids of the catalogue. */
  lemma ScopeIdsKnown(qs: seq<Question>, tag: string, b: seq<string>)
    requires IsPermutation(b, IdsForTag(qs, tag))
    ensures forall i :: 0 <= i < |b| ==> b[i] in ById(qs)
  {
    forall i | 0 <= i < |b| ensures b[i] in ById(qs) {
      assert b[i] in multiset(b);
      TagScopeKnown(qs, tag, b[i]);
    }
  }

  /** A shuffle of a category scope holds only ids of the catalogue. */
  lemma CategoryIdsKnown(qs: seq<Question>, n: string, b: seq<string>)
    requires IsPermutation(b, CategoryIds(qs, n))
    ensures forall i :: 0 <= i < |b| ==> b[i] in ById(qs)
  {
    forall i | 0 <= i < |b| ensures b[i] in ById(qs) {
      assert b[i] in multiset(b);
      CategoryScopeKnown(qs, n, b[i]);
    }
  }
}
