/**
 * The answer normaliser: strip, lower-case, replace "ё" by "е", decompose (NFKD),
 * drop combining marks, turn every run of symbols into one space, collapse every
 * run of white space into one space, strip again.
 *
 * The Unicode tables behind Python's str.isspace, str.isalnum, str.lower,
 * unicodedata.normalize("NFKD", ...) and unicodedata.combining are given as
 * explicit tables over ASCII, Latin-1 (with its compatibility decompositions)
 * and the Cyrillic block U+0400-U+04FF, plus the Greek letter mu, the image of
 * the micro sign; the shape theorems below rest only on the few facts about
 * them that are proved here.
 */
module TextNorm {

  // ----------------------------------------------------------------------
  // Character classes
  // ----------------------------------------------------------------------

  /** White space, as str.isspace and the regular-expression class \s see it. */
  predicate IsSpace(c: char) {
    || c == ' ' || '\t' <= c <= '\r' || '\U{1C}' <= c <= '\U{1F}'
    || c == '\U{85}' || c == '\U{A0}' || c == '\U{1680}'
    || '\U{2000}' <= c <= '\U{200A}' || c == '\U{2028}' || c == '\U{2029}'
    || c == '\U{202F}' || c == '\U{205F}' || c == '\U{3000}'
  }

  /** str.isalnum: ASCII letters and digits, the Latin-1 letters and numerals, Cyrillic letters, Greek mu. */
  predicate IsAlnum(c: char) {
    || 'a' <= c <= 'z' || 'A' <= c <= 'Z' || '0' <= c <= '9'
    || c == '\U{AA}' || c == '\U{B2}' || c == '\U{B3}' || c == '\U{B5}' || c == '\U{B9}'
    || c == '\U{BA}' || '\U{BC}' <= c <= '\U{BE}'
    || ('\U{C0}' <= c <= '\U{FF}' && c != '\U{D7}' && c != '\U{F7}')
    || c == '\U{3BC}'
    || '\U{400}' <= c <= '\U{481}' || '\U{48A}' <= c <= '\U{4FF}'
  }

  /** The regular-expression class \w: alphanumerics and the underscore. */
  predicate IsWord(c: char) {
    IsAlnum(c) || c == '_'
  }

  /** A character the punctuation pattern [^\w\s]+ matches. */
  predicate IsPunct(c: char) {
    !IsWord(c) && !IsSpace(c)
  }

  /** unicodedata.combining(c) != 0: the combining diacritical marks. */
  predicate IsCombining(c: char) {
    ('\U{300}' <= c <= '\U{36F}' && c != '\U{34F}') || '\U{483}' <= c <= '\U{487}'
  }

  /**
   * The capital letters of the Cyrillic block past U+045F whose small letter
   * follows them: the even code points of U+0460-U+0481, U+048A-U+04BF and
   * U+04D0-U+04FF, and the odd ones of U+04C1-U+04CE.
   */
  predicate PairedCapital(c: char) {
    (('\U{460}' <= c <= '\U{480}' || '\U{48A}' <= c <= '\U{4BE}' || '\U{4D0}' <= c <= '\U{4FE}') && c as int % 2 == 0)
    || ('\U{4C1}' <= c <= '\U{4CD}' && c as int % 2 == 1)
  }

  /** str.lower on one character. */
  function Lower(c: char): char {
    if 'A' <= c <= 'Z' then (c as int + 32) as char
    else if '\U{C0}' <= c <= '\U{DE}' && c != '\U{D7}' then (c as int + 32) as char
    else if '\U{410}' <= c <= '\U{42F}' then (c as int + 32) as char
    else if '\U{400}' <= c <= '\U{40F}' then (c as int + 80) as char
    else if PairedCapital(c) then (c as int + 1) as char
    else if c == '\U{4C0}' then '\U{4CF}'
    else c
  }

  /**
   * The canonical decompositions of the accented lower-case Latin-1 and Cyrillic
   * letters: a base letter and one combining mark. A character without a
   * decomposition is its own base.
   */
  function DecompositionBase(c: char): char {
    match c
    case 'à' => 'a'
    case 'á' => 'a'
    case 'â' => 'a'
    case 'ã' => 'a'
    case 'ä' => 'a'
    case 'å' => 'a'
    case 'ç' => 'c'
    case 'è' => 'e'
    case 'é' => 'e'
    case 'ê' => 'e'
    case 'ë' => 'e'
    case 'ì' => 'i'
    case 'í' => 'i'
    case 'î' => 'i'
    case 'ï' => 'i'
    case 'ñ' => 'n'
    case 'ò' => 'o'
    case 'ó' => 'o'
    case 'ô' => 'o'
    case 'õ' => 'o'
    case 'ö' => 'o'
    case 'ù' => 'u'
    case 'ú' => 'u'
    case 'û' => 'u'
    case 'ü' => 'u'
    case 'ý' => 'y'
    case 'ÿ' => 'y'
    case 'й' => 'и'
    case 'ѐ' => 'е'
    case 'ё' => 'е'
    case 'ѓ' => 'г'
    case 'ї' => 'і'
    case 'ќ' => 'к'
    case 'ѝ' => 'и'
    case 'ў' => 'у'
    case 'ѷ' => 'ѵ'
    case 'ӂ' => 'ж'
    case 'ӑ' => 'а'
    case 'ӓ' => 'а'
    case 'ӗ' => 'е'
    case 'ӛ' => 'ә'
    case 'ӝ' => 'ж'
    case 'ӟ' => 'з'
    case 'ӣ' => 'и'
    case 'ӥ' => 'и'
    case 'ӧ' => 'о'
    case 'ӫ' => 'ө'
    case 'ӭ' => 'э'
    case 'ӯ' => 'у'
    case 'ӱ' => 'у'
    case 'ӳ' => 'у'
    case 'ӵ' => 'ч'
    case 'ӹ' => 'ы'
    case _ => c
  }

  /** The combining mark of the canonical decomposition of a character that has one. */
  function DecompositionMark(c: char): char {
    match c
    case 'à' => '\U{300}'
    case 'á' => '\U{301}'
    case 'â' => '\U{302}'
    case 'ã' => '\U{303}'
    case 'ä' => '\U{308}'
    case 'å' => '\U{30A}'
    case 'ç' => '\U{327}'
    case 'è' => '\U{300}'
    case 'é' => '\U{301}'
    case 'ê' => '\U{302}'
    case 'ë' => '\U{308}'
    case 'ì' => '\U{300}'
    case 'í' => '\U{301}'
    case 'î' => '\U{302}'
    case 'ï' => '\U{308}'
    case 'ñ' => '\U{303}'
    case 'ò' => '\U{300}'
    case 'ó' => '\U{301}'
    case 'ô' => '\U{302}'
    case 'õ' => '\U{303}'
    case 'ö' => '\U{308}'
    case 'ù' => '\U{300}'
    case 'ú' => '\U{301}'
    case 'û' => '\U{302}'
    case 'ü' => '\U{308}'
    case 'ý' => '\U{301}'
    case 'ÿ' => '\U{308}'
    case 'й' => '\U{306}'
    case 'ѐ' => '\U{300}'
    case 'ё' => '\U{308}'
    case 'ѓ' => '\U{301}'
    case 'ї' => '\U{308}'
    case 'ќ' => '\U{301}'
    case 'ѝ' => '\U{300}'
    case 'ў' => '\U{306}'
    case 'ѷ' => '\U{30F}'
    case 'ӂ' => '\U{306}'
    case 'ӑ' => '\U{306}'
    case 'ӓ' => '\U{308}'
    case 'ӗ' => '\U{306}'
    case 'ӛ' => '\U{308}'
    case 'ӝ' => '\U{308}'
    case 'ӟ' => '\U{308}'
    case 'ӣ' => '\U{304}'
    case 'ӥ' => '\U{308}'
    case 'ӧ' => '\U{308}'
    case 'ӫ' => '\U{308}'
    case 'ӭ' => '\U{308}'
    case 'ӯ' => '\U{304}'
    case 'ӱ' => '\U{308}'
    case 'ӳ' => '\U{30B}'
    case 'ӵ' => '\U{308}'
    case 'ӹ' => '\U{308}'
    case _ => '\U{0}'
  }

  /**
   * The compatibility decompositions below U+00C0: the no-break space becomes
   * a space, the spacing accents a space and the combining accent, the ordinal
   * indicators and the superscript digits plain letters and digits, the micro
   * sign Greek mu, and the vulgar fractions digit, fraction slash, digit.
   */
  function Compatibility(c: char): seq<char> {
    match c
    case '\U{A0}' => [' ']
    case '\U{A8}' => [' ', '\U{308}']
    case '\U{AA}' => ['a']
    case '\U{AF}' => [' ', '\U{304}']
    case '\U{B2}' => ['2']
    case '\U{B3}' => ['3']
    case '\U{B4}' => [' ', '\U{301}']
    case '\U{B5}' => ['\U{3BC}']
    case '\U{B8}' => [' ', '\U{327}']
    case '\U{B9}' => ['1']
    case '\U{BA}' => ['o']
    case '\U{BC}' => ['1', '\U{2044}', '4']
    case '\U{BD}' => ['1', '\U{2044}', '2']
    case '\U{BE}' => ['3', '\U{2044}', '4']
    case _ => [c]
  }

  /** unicodedata.normalize("NFKD", ...) on one lower-case character. */
  function Decompose(c: char): seq<char> {
    if c < '\U{C0}' then Compatibility(c)
    else if DecompositionBase(c) != c then [DecompositionBase(c), DecompositionMark(c)]
    else [c]
  }

  /** The "ё" to "е" replacement on one character. */
  function YoToYe(c: char): char {
    if c == 'ё' then 'е' else c
  }

  // ----------------------------------------------------------------------
  // The steps of the pipeline
  // ----------------------------------------------------------------------

  /** A character-for-character transformation of a string. */
  function MapChars(f: char -> char, s: string): (r: string)
    ensures |r| == |s| && forall i :: 0 <= i < |s| ==> r[i] == f(s[i])
  {
    seq(|s|, i requires 0 <= i < |s| => f(s[i]))
  }

  function TrimLeft(s: string): (r: string)
    ensures |r| <= |s| && r == s[|s| - |r|..]
    ensures r == [] || !IsSpace(r[0])
    ensures forall i :: 0 <= i < |s| - |r| ==> IsSpace(s[i])
  {
    if s != [] && IsSpace(s[0]) then TrimLeft(s[1..]) else s
  }

  function TrimRight(s: string): (r: string)
    ensures |r| <= |s| && r == s[..|r|]
    ensures r == [] || !IsSpace(r[|r| - 1])
    ensures forall i :: |r| <= i < |s| ==> IsSpace(s[i])
  {
    if s != [] && IsSpace(s[|s| - 1]) then TrimRight(s[..|s| - 1]) else s
  }

  /** Where the slice kept by strip begins. */
  function StripStart(s: string): nat {
    |s| - |TrimLeft(s)|
  }

  /** str.strip(): the longest slice without white space at either end. */
  function Strip(s: string): (r: string)
    ensures r == [] || (!IsSpace(r[0]) && !IsSpace(r[|r| - 1]))
    ensures |r| <= |s| - StripStart(s) && r == s[StripStart(s)..StripStart(s) + |r|]
    // only white space is cut off, at either end
    ensures forall i :: 0 <= i < StripStart(s) ==> IsSpace(s[i])
    ensures forall i :: StripStart(s) + |r| <= i < |s| ==> IsSpace(s[i])
  {
    var l := TrimLeft(s);
    var r := TrimRight(l);
    assert StripStart(s) == |s| - |l|;
    TrimmedSlice(s, l, r);
    TrimmedTail(s, l, r);
    r
  }

  /** A prefix of a suffix is a slice of the whole string. */
  lemma TrimmedSlice(s: string, l: string, r: string)
    requires |l| <= |s| && l == s[|s| - |l|..] && |r| <= |l| && r == l[..|r|]
    ensures r == s[|s| - |l|..|s| - |l| + |r|]
  {
  }

  /** The white space TrimRight cuts from the end of a suffix is at the end of the whole string. */
  lemma TrimmedTail(s: string, l: string, r: string)
    requires |l| <= |s| && l == s[|s| - |l|..] && |r| <= |l|
    requires forall i :: |r| <= i < |l| ==> IsSpace(l[i])
    ensures forall i :: |s| - |l| + |r| <= i < |s| ==> IsSpace(s[i])
  {
    forall i | |s| - |l| + |r| <= i < |s| ensures IsSpace(s[i]) {
      assert s[i] == l[i - (|s| - |l|)];
    }
  }

  /** strip() gives "" exactly for the strings made of white space only. */
  lemma StripBlank(s: string)
    ensures (forall i :: 0 <= i < |s| ==> IsSpace(s[i])) <==> Strip(s) == []
  {
    var l := TrimLeft(s);
    if l != [] {
      assert !IsSpace(s[|s| - |l|]);
    }
  }

  /** unicodedata.normalize("NFKD", s): the decompositions, one after the other. */
  function Nfkd(s: string): string {
    if s == [] then [] else Decompose(s[0]) + Nfkd(s[1..])
  }

  /** The filter that keeps the characters that are not combining marks. */
  function DropCombining(s: string): string {
    if s == [] then []
    else if IsCombining(s[0]) then DropCombining(s[1..])
    else [s[0]] + DropCombining(s[1..])
  }

  /** Drops the maximal run of characters satisfying p at the front of s. */
  function SkipRun(p: char -> bool, s: string): (r: string)
    ensures |r| <= |s| && r == s[|s| - |r|..]
    ensures r == [] || !p(r[0])
    ensures forall i :: 0 <= i < |s| - |r| ==> p(s[i])
  {
    if s != [] && p(s[0]) then SkipRun(p, s[1..]) else s
  }

  /** re.sub(pattern + "+", " ", s) for a one-character class p: each maximal run becomes one space. */
  function ReplaceRuns(p: char -> bool, s: string): string
    decreases |s|
  {
    if s == [] then []
    else if p(s[0]) then [' '] + ReplaceRuns(p, SkipRun(p, s[1..]))
    else [s[0]] + ReplaceRuns(p, s[1..])
  }

  /** The first three steps: strip, lower-case, replace "ё" by "е". */
  function Prepared(text: string): string {
    MapChars(YoToYe, MapChars(Lower, Strip(text)))
  }

  /** Then decompose and drop the combining marks. */
  function Bare(text: string): string {
    DropCombining(Nfkd(Prepared(text)))
  }

  /** normalize(text); the empty string (Python's falsy input) gives "". */
  function Normalize(text: string): string {
    if text == [] then [] else Strip(ReplaceRuns(IsSpace, ReplaceRuns(IsPunct, Bare(text))))
  }

  // ----------------------------------------------------------------------
  // The shape of the result
  // ----------------------------------------------------------------------

  predicate NoEdgeSpace(t: string) {
    t == [] || (!IsSpace(t[0]) && !IsSpace(t[|t| - 1]))
  }

  predicate NoDoubleSpace(t: string) {
    forall i :: 0 <= i < |t| - 1 ==> !(IsSpace(t[i]) && IsSpace(t[i + 1]))
  }

  /** A character the normaliser leaves alone: lower-case, not "ё", already decomposed, no mark. */
  predicate Settled(c: char) {
    !IsCombining(c) && c != 'ё' && Lower(c) == c && Decompose(c) == [c]
  }

  /** Every character of the result is a word character or a plain space, and is settled. */
  predicate CanonicalChars(t: string) {
    forall c :: c in t ==> (IsWord(c) || c == ' ') && Settled(c)
  }

  lemma LowerFacts(c: char)
    ensures IsSpace(Lower(c)) == IsSpace(c)
    ensures Lower(Lower(c)) == Lower(c)
  {
  }

  /** The base letters the canonical decomposition table uses. */
  const Bases: set<char> :=
    {'a', 'c', 'e', 'i', 'n', 'o', 'u', 'y', 'и', 'е', 'г', 'і', 'к', 'у',
     'ѵ', 'ж', 'а', 'ә', 'з', 'о', 'ө', 'э', 'ч', 'ы'}

  lemma TableEntries(x: char)
    requires x >= '\U{C0}' && DecompositionBase(x) != x
    ensures DecompositionBase(x) in Bases && IsCombining(DecompositionMark(x))
  {
  }

  lemma BasesSettled(b: char)
    requires b in Bases
    ensures Settled(b)
  {
    if b < '\U{80}' {
      LatinBasesSettled(b);
    } else {
      CyrillicBasesSettled(b);
    }
  }

  lemma LatinBasesSettled(b: char)
    requires b in {'a', 'c', 'e', 'i', 'n', 'o', 'u', 'y'}
    ensures Settled(b)
  {
    BelowTable(b);
  }

  /** No character below "à" has a decomposition. */
  lemma BelowTable(c: char)
    requires c < 'à'
    ensures DecompositionBase(c) == c
  {
  }

  lemma CyrillicBasesSettled(b: char)
    requires b in {'и', 'е', 'г', 'і', 'к', 'у', 'ѵ', 'ж', 'а', 'ә', 'з', 'о', 'ө', 'э', 'ч', 'ы'}
    ensures Settled(b)
  {
    BetweenTable(b);
  }

  /** The characters past Latin-1 in the gaps of the canonical table have no decomposition. */
  lemma BetweenTable(c: char)
    requires ('ÿ' < c < 'й') || ('й' < c < 'ѐ') || ('ѓ' < c < 'ї') || ('ў' < c < 'ѷ') || ('ӗ' < c < 'ӛ') || ('ӧ' < c < 'ӫ') || 'ӹ' < c
    ensures DecompositionBase(c) == c
  {
  }

  /** The characters the compatibility decompositions produce, other than marks, are settled. */
  lemma CompatibilityImagesSettled(d: char)
    requires d in {' ', 'a', 'o', '1', '2', '3', '4', '\U{3BC}', '\U{2044}'}
    ensures Settled(d)
  {
    if d >= '\U{C0}' {
      BetweenTable(d);
    }
  }

  lemma CompatibilityShape(x: char)
    requires x < '\U{C0}'
    ensures Compatibility(x) == [x] || forall d :: d in Compatibility(x) ==> Settled(d) || IsCombining(d)
  {
    if Compatibility(x) != [x] {
      forall d | d in Compatibility(x) ensures Settled(d) || IsCombining(d) {
        if !IsCombining(d) {
          CompatibilityImagesSettled(d);
        }
      }
    }
  }

  /**
   * Every decomposition is the character itself, or made of characters that
   * are settled (fully decomposed, lower-case, not "ё") and combining marks:
   * the decomposition maps are already applied to their own images.
   */
  lemma DecomposeShape(x: char)
    ensures Decompose(x) == [x] || forall d :: d in Decompose(x) ==> Settled(d) || IsCombining(d)
  {
    if x < '\U{C0}' {
      CompatibilityShape(x);
    } else if DecompositionBase(x) != x {
      TableEntries(x);
      BasesSettled(DecompositionBase(x));
    }
  }

  lemma LowerYoSettled(c: char)
    ensures var l := YoToYe(Lower(c)); Lower(l) == l && l != 'ё'
  {
  }

  /** What survives decomposition and the filter is settled. */
  lemma DecomposedSettled(c: char, d: char)
    requires d in Decompose(YoToYe(Lower(c))) && !IsCombining(d)
    ensures Settled(d)
  {
    var l := YoToYe(Lower(c));
    LowerYoSettled(c);
    DecomposeShape(l);
  }

  lemma NfkdChars(s: string)
    ensures forall d :: d in Nfkd(s) ==> exists c :: c in s && d in Decompose(c)
  {
    if s != [] {
      NfkdChars(s[1..]);
      assert Nfkd(s) == Decompose(s[0]) + Nfkd(s[1..]);
      forall d | d in Nfkd(s) ensures exists c :: c in s && d in Decompose(c) {
        if d !in Decompose(s[0]) {
          var c :| c in s[1..] && d in Decompose(c);
          assert c in s;
        }
      }
    }
  }

  lemma DropCombiningChars(s: string)
    ensures forall d :: d in DropCombining(s) ==> d in s && !IsCombining(d)
  {
    if s != [] {
      DropCombiningChars(s[1..]);
    }
  }

  lemma SkipRunChars(p: char -> bool, s: string)
    ensures forall c :: c in SkipRun(p, s) ==> c in s
  {
    var r := SkipRun(p, s);
    SliceChars(s, |s| - |r|, |s|);
    assert r == s[|s| - |r|..|s|];
  }

  lemma {:induction false} ReplaceRunsChars(p: char -> bool, s: string)
    ensures forall c :: c in ReplaceRuns(p, s) ==> c == ' ' || (c in s && !p(c))
    decreases |s|
  {
    if s != [] {
      if p(s[0]) {
        var t := SkipRun(p, s[1..]);
        ReplaceRunsChars(p, t);
        SkipRunChars(p, s[1..]);
        forall c | c in t ensures c in s {
          assert c in s[1..];
        }
      } else {
        ReplaceRunsChars(p, s[1..]);
        forall c | c in s[1..] ensures c in s {
        }
      }
    }
  }

  /** After collapsing, every white-space character is a plain space followed by a non-space. */
  predicate SpacesIsolated(t: string) {
    forall i :: 0 <= i < |t| && IsSpace(t[i]) ==> t[i] == ' ' && (i + 1 < |t| ==> !IsSpace(t[i + 1]))
  }

  lemma {:induction false} CollapseIsolates(s: string)
    ensures SpacesIsolated(ReplaceRuns(IsSpace, s))
    decreases |s|
  {
    if s != [] {
      var head, rest;
      if IsSpace(s[0]) {
        head, rest := ' ', SkipRun(IsSpace, s[1..]);
      } else {
        head, rest := s[0], s[1..];
      }
      var tail := ReplaceRuns(IsSpace, rest);
      CollapseIsolates(rest);
      assert ReplaceRuns(IsSpace, s) == [head] + tail;
      if IsSpace(s[0]) && rest != [] {
        assert tail == [rest[0]] + ReplaceRuns(IsSpace, rest[1..]);
      }
      var r := [head] + tail;
      forall i | 0 <= i < |r| && IsSpace(r[i])
        ensures r[i] == ' ' && (i + 1 < |r| ==> !IsSpace(r[i + 1]))
      {
        if i > 0 {
          assert r[i] == tail[i - 1];
          if i + 1 < |r| {
            assert r[i + 1] == tail[i];
          }
        }
      }
    }
  }

  lemma SliceChars(s: string, a: int, b: int)
    requires 0 <= a <= b <= |s|
    ensures forall c :: c in s[a..b] ==> c in s
  {
    forall c | c in s[a..b] ensures c in s {
      var i :| 0 <= i < b - a && s[a..b][i] == c;
      assert s[a + i] == c;
    }
  }

  lemma StripChars(s: string)
    ensures forall c :: c in Strip(s) ==> c in s
  {
    var r := Strip(s);
    SliceChars(s, StripStart(s), StripStart(s) + |r|);
  }

  /** A slice of a string with isolated spaces has isolated spaces, save that it may end in one. */
  lemma SliceIsolated(s: string, a: int, b: int)
    requires 0 <= a <= b <= |s| && SpacesIsolated(s)
    ensures SpacesIsolated(s[a..b])
  {
    var r := s[a..b];
    forall i | 0 <= i < |r| && IsSpace(r[i])
      ensures r[i] == ' ' && (i + 1 < |r| ==> !IsSpace(r[i + 1]))
    {
      assert r[i] == s[a + i];
      if i + 1 < |r| {
        assert r[i + 1] == s[a + i + 1];
      }
    }
  }

  lemma IsolatedNoDouble(t: string)
    requires SpacesIsolated(t)
    ensures NoDoubleSpace(t)
  {
    forall i | 0 <= i < |t| - 1 ensures !(IsSpace(t[i]) && IsSpace(t[i + 1])) {
    }
  }

  lemma StripKeepsIsolation(s: string)
    requires SpacesIsolated(s)
    ensures SpacesIsolated(Strip(s)) && NoDoubleSpace(Strip(s))
  {
    var a := StripStart(s);
    var b := a + |Strip(s)|;
    SliceIsolated(s, a, b);
    IsolatedNoDouble(s[a..b]);
    assert Strip(s) == s[a..b];
  }

  /** Every character left after decomposition and the filter is settled. */
  lemma BareSettled(text: string)
    ensures forall d :: d in Bare(text) ==> Settled(d)
  {
    var stripped := Strip(text);
    var yo := Prepared(text);
    NfkdChars(yo);
    DropCombiningChars(Nfkd(yo));
    forall d | d in Bare(text) ensures Settled(d) {
      var y :| y in yo && d in Decompose(y);
      var i :| 0 <= i < |yo| && yo[i] == y;
      assert y == YoToYe(Lower(stripped[i]));
      DecomposedSettled(stripped[i], d);
    }
  }

  lemma SpaceSettled()
    ensures Settled(' ') && IsSpace(' ') && !IsWord(' ')
  {
  }

  /** Each character of the result is a plain space, or a character of Bare that is neither symbol nor space. */
  lemma ResultChars(text: string)
    requires text != []
    ensures forall c :: c in Normalize(text) ==> c == ' ' || (c in Bare(text) && !IsPunct(c) && !IsSpace(c))
  {
    var bare := Bare(text);
    var spaced := ReplaceRuns(IsPunct, bare);
    var collapsed := ReplaceRuns(IsSpace, spaced);
    ReplaceRunsChars(IsPunct, bare);
    ReplaceRunsChars(IsSpace, spaced);
    StripChars(collapsed);
  }

  lemma ResultLayout(text: string)
    requires text != []
    ensures NoEdgeSpace(Normalize(text)) && NoDoubleSpace(Normalize(text)) && SpacesIsolated(Normalize(text))
  {
    CollapsedLayout(ReplaceRuns(IsPunct, Bare(text)));
  }

  /** Collapsing the white-space runs and stripping leaves single blanks between non-blanks. */
  lemma CollapsedLayout(x: string)
    ensures NoEdgeSpace(Strip(ReplaceRuns(IsSpace, x)))
    ensures NoDoubleSpace(Strip(ReplaceRuns(IsSpace, x))) && SpacesIsolated(Strip(ReplaceRuns(IsSpace, x)))
  {
    CollapseIsolates(x);
    StripKeepsIsolation(ReplaceRuns(IsSpace, x));
  }

  /**
   * The shape of every result of normalize: no white space at either end, never
   * two white-space characters in a row, only word characters and plain spaces,
   * no combining mark and no "ё".
   */
  lemma NormalizeShape(text: string)
    ensures NoEdgeSpace(Normalize(text)) && NoDoubleSpace(Normalize(text))
    ensures SpacesIsolated(Normalize(text))
    ensures CanonicalChars(Normalize(text))
    ensures forall c :: c in Normalize(text) ==> !IsCombining(c) && c != 'ё'
  {
    if text != [] {
      ResultLayout(text);
      ResultChars(text);
      BareSettled(text);
      SpaceSettled();
    }
  }

  // ----------------------------------------------------------------------
  // Idempotence
  // ----------------------------------------------------------------------

  lemma {:induction false} NfkdSettled(t: string)
    requires forall c :: c in t ==> Settled(c)
    ensures Nfkd(t) == t && DropCombining(t) == t
  {
    if t != [] {
      NfkdSettled(t[1..]);
      assert t[0] in t;
    }
  }

  lemma {:induction false} NoPunctUntouched(t: string)
    requires forall c :: c in t ==> !IsPunct(c)
    ensures ReplaceRuns(IsPunct, t) == t
    decreases |t|
  {
    if t != [] {
      assert t[0] in t;
      NoPunctUntouched(t[1..]);
      assert ReplaceRuns(IsPunct, t) == [t[0]] + ReplaceRuns(IsPunct, t[1..]);
    }
  }

  lemma {:induction false} IsolatedUntouched(t: string)
    requires SpacesIsolated(t) && (t == [] || !IsSpace(t[|t| - 1]))
    ensures ReplaceRuns(IsSpace, t) == t
    decreases |t|
  {
    if t != [] {
      var rest := t[1..];
      IsolatedTail(t);
      assert rest == [] || rest[|rest| - 1] == t[|t| - 1];
      IsolatedUntouched(rest);
      assert t == [t[0]] + rest;
      if IsSpace(t[0]) {
        assert t[0] == ' ' && rest != [] && !IsSpace(rest[0]);
        assert SkipRun(IsSpace, rest) == rest;
        assert ReplaceRuns(IsSpace, t) == [' '] + ReplaceRuns(IsSpace, rest);
      } else {
        assert ReplaceRuns(IsSpace, t) == [t[0]] + ReplaceRuns(IsSpace, rest);
      }
    }
  }

  lemma IsolatedTail(t: string)
    requires t != [] && SpacesIsolated(t)
    ensures SpacesIsolated(t[1..])
  {
    var rest := t[1..];
    forall i | 0 <= i < |rest| && IsSpace(rest[i])
      ensures rest[i] == ' ' && (i + 1 < |rest| ==> !IsSpace(rest[i + 1]))
    {
      assert rest[i] == t[i + 1];
    }
  }

  /** Strip, lower-casing and the "ё" replacement leave a string in normal form unchanged. */
  lemma PreparedFixed(t: string)
    requires t != [] && NoEdgeSpace(t) && CanonicalChars(t)
    ensures Prepared(t) == t
  {
    assert TrimLeft(t) == t;
    assert TrimRight(t) == t;
    var lowered := MapChars(Lower, t);
    assert lowered == t by {
      forall i | 0 <= i < |t| ensures lowered[i] == t[i] {
        assert t[i] in t;
      }
    }
    var yo := MapChars(YoToYe, lowered);
    assert yo == t by {
      forall i | 0 <= i < |t| ensures yo[i] == t[i] {
        assert t[i] in t;
      }
    }
  }

  /** A string already in normal form is its own normal form. */
  lemma NormalFormFixed(t: string)
    requires NoEdgeSpace(t) && SpacesIsolated(t) && CanonicalChars(t)
    ensures Normalize(t) == t
  {
    if t != [] {
      PreparedFixed(t);
      NfkdSettled(t);
      assert Bare(t) == t;
      NoPunctUntouched(t);
      IsolatedUntouched(t);
      assert Strip(t) == t;
    }
  }

  /** normalize(normalize(x)) == normalize(x). */
  lemma NormalizeIdempotent(text: string)
    ensures Normalize(Normalize(text)) == Normalize(text)
  {
    NormalizeShape(text);
    NormalFormFixed(Normalize(text));
  }

  // ----------------------------------------------------------------------
  // What the result does not depend on
  // ----------------------------------------------------------------------

  /** A character map that keeps white space as white space commutes with strip. */
  lemma {:induction false} StripCommutes(f: char -> char, s: string)
    requires forall c :: IsSpace(f(c)) == IsSpace(c)
    ensures Strip(MapChars(f, s)) == MapChars(f, Strip(s))
  {
    TrimLeftCommutes(f, s);
    TrimRightCommutes(f, TrimLeft(s));
  }

  lemma {:induction false} TrimLeftCommutes(f: char -> char, s: string)
    requires forall c :: IsSpace(f(c)) == IsSpace(c)
    ensures TrimLeft(MapChars(f, s)) == MapChars(f, TrimLeft(s))
  {
    if s != [] {
      var m := MapChars(f, s);
      assert m[1..] == MapChars(f, s[1..]);
      assert IsSpace(m[0]) == IsSpace(s[0]);
      if IsSpace(s[0]) {
        TrimLeftCommutes(f, s[1..]);
      }
    }
  }

  lemma {:induction false} TrimRightCommutes(f: char -> char, s: string)
    requires forall c :: IsSpace(f(c)) == IsSpace(c)
    ensures TrimRight(MapChars(f, s)) == MapChars(f, TrimRight(s))
  {
    if s != [] {
      var m := MapChars(f, s);
      assert m[..|m| - 1] == MapChars(f, s[..|s| - 1]);
      assert IsSpace(m[|m| - 1]) == IsSpace(s[|s| - 1]);
      if IsSpace(s[|s| - 1]) {
        TrimRightCommutes(f, s[..|s| - 1]);
      }
    }
  }

  /** Upper or lower case does not matter: normalize(x.lower()) == normalize(x). */
  lemma NormalizeIgnoresCase(text: string)
    ensures Normalize(MapChars(Lower, text)) == Normalize(text)
  {
    var low := MapChars(Lower, text);
    if text != [] {
      forall c ensures IsSpace(Lower(c)) == IsSpace(c) {
        LowerFacts(c);
      }
      StripCommutes(Lower, text);
      var st := Strip(text);
      var a := MapChars(Lower, Strip(low));
      var b := MapChars(Lower, st);
      assert a == b by {
        forall i | 0 <= i < |b| ensures a[i] == b[i] {
          LowerFacts(st[i]);
        }
      }
    }
  }

  /** Surrounding white space does not matter. */
  lemma NormalizeIgnoresSurroundingSpace(pre: string, text: string, post: string)
    requires forall c :: c in pre + post ==> IsSpace(c)
    ensures Normalize(pre + text + post) == Normalize(text)
  {
    StripSurrounded(pre, text, post);
    NormalizeByStrip(pre + text + post, text);
  }

  lemma StripSurrounded(pre: string, text: string, post: string)
    requires forall c :: c in pre + post ==> IsSpace(c)
    ensures Strip(pre + text + post) == Strip(text)
  {
    forall i | 0 <= i < |pre| ensures IsSpace(pre[i]) {
      assert pre[i] in pre + post;
    }
    forall c | c in post ensures IsSpace(c) {
      assert c in pre + post;
    }
    assert pre + text + post == pre + (text + post);
    TrimLeftSkipsSpaces(pre, text + post);
    TrimLeftPrefix(text, post);
    var l := TrimLeft(text);
    if l != [] {
      TrimRightSkipsSpaces(l, post);
    }
  }

  lemma {:induction false} TrimLeftSkipsSpaces(pre: string, s: string)
    requires forall i :: 0 <= i < |pre| ==> IsSpace(pre[i])
    ensures TrimLeft(pre + s) == TrimLeft(s)
  {
    if pre != [] {
      var t := pre + s;
      var rest := pre[1..];
      assert t[1..] == rest + s;
      assert forall i :: 0 <= i < |rest| ==> IsSpace(rest[i]) by {
        forall i | 0 <= i < |rest| ensures IsSpace(rest[i]) {
          assert rest[i] == pre[i + 1];
        }
      }
      TrimLeftSkipsSpaces(rest, s);
      assert IsSpace(t[0]);
    } else {
      assert pre + s == s;
    }
  }

  /** Trailing white space is reached by TrimLeft only when nothing else is left. */
  lemma {:induction false} TrimLeftPrefix(text: string, post: string)
    requires forall c :: c in post ==> IsSpace(c)
    ensures TrimLeft(text + post) == if TrimLeft(text) == [] then [] else TrimLeft(text) + post
  {
    if text == [] {
      assert text + post == post;
      TrimLeftAllSpace(post);
    } else if IsSpace(text[0]) {
      assert (text + post)[1..] == text[1..] + post;
      TrimLeftPrefix(text[1..], post);
    }
  }

  lemma {:induction false} TrimLeftAllSpace(s: string)
    requires forall c :: c in s ==> IsSpace(c)
    ensures TrimLeft(s) == []
  {
    if s != [] {
      assert s[0] in s;
      forall c | c in s[1..] ensures IsSpace(c) {
        assert c in s;
      }
      TrimLeftAllSpace(s[1..]);
    }
  }

  lemma {:induction false} TrimRightSkipsSpaces(s: string, post: string)
    requires forall c :: c in post ==> IsSpace(c)
    ensures TrimRight(s + post) == TrimRight(s)
  {
    if post != [] {
      var q := post[..|post| - 1];
      assert (s + post)[..|s + post| - 1] == s + q;
      assert post[|post| - 1] in post;
      forall c | c in q ensures IsSpace(c) {
        assert c in post;
      }
      TrimRightSkipsSpaces(s, q);
    } else {
      assert s + post == s;
    }
  }

  /** "ё"/"Ё" and "е"/"Е" spellings of a word normalise alike. */
  function YoFold(c: char): char {
    if c == 'ё' then 'е' else if c == 'Ё' then 'Е' else c
  }

  lemma YoFoldFacts(c: char)
    ensures IsSpace(YoFold(c)) == IsSpace(c)
    ensures YoToYe(Lower(YoFold(c))) == YoToYe(Lower(c))
  {
  }

  lemma NormalizeIgnoresYo(text: string)
    ensures Normalize(MapChars(YoFold, text)) == Normalize(text)
  {
    var folded := MapChars(YoFold, text);
    forall c ensures IsSpace(YoFold(c)) == IsSpace(c) {
      YoFoldFacts(c);
    }
    StripCommutes(YoFold, text);
    var st := Strip(text);
    var a := Prepared(folded);
    var b := Prepared(text);
    assert a == b by {
      forall i | 0 <= i < |b| ensures a[i] == b[i] {
        assert Strip(folded)[i] == YoFold(st[i]);
        YoFoldFacts(st[i]);
      }
    }
    assert Bare(folded) == Bare(text);
  }

  /** The three spellings every player expects to be the same answer. */
  lemma ParisExamples()
    ensures Normalize("  PARIS  ") == "paris"
    ensures Normalize("Paris!") == "paris"
    ensures Normalize("paris") == "paris"
  {
    PlainParis();
    UpperParis();
    ExclaimedParis();
  }

  lemma AsciiLowerSettled(c: char)
    requires 'a' <= c <= 'z'
    ensures Settled(c) && IsWord(c) && !IsSpace(c)
  {
  }

  /** A lower-case ASCII word is its own normal form. */
  lemma AsciiWordFixed(t: string)
    requires t != [] && forall i :: 0 <= i < |t| ==> 'a' <= t[i] <= 'z'
    ensures Normalize(t) == t
  {
    forall c | c in t ensures (IsWord(c) || c == ' ') && Settled(c) {
      AsciiLowerSettled(c);
    }
    AsciiLowerSettled(t[0]);
    AsciiLowerSettled(t[|t| - 1]);
    forall i | 0 <= i < |t| ensures !IsSpace(t[i]) {
      AsciiLowerSettled(t[i]);
    }
    NormalFormFixed(t);
  }

  lemma PlainParis()
    ensures Normalize("paris") == "paris"
  {
    AsciiWordFixed("paris");
  }

  lemma UpperParis()
    ensures Normalize("  PARIS  ") == "paris"
  {
    var s, pre, upper, word := "  PARIS  ", "  ", "PARIS", "paris";
    var low := MapChars(Lower, upper);
    assert low == word by {
      assert low[0] == Lower('P') == 'p';
      assert low[1] == Lower('A') == 'a';
      assert low[2] == Lower('R') == 'r';
      assert low[3] == Lower('I') == 'i';
      assert low[4] == Lower('S') == 's';
    }
    assert Normalize(s) == Normalize(upper) by {
      assert pre + upper + pre == s;
      NormalizeIgnoresSurroundingSpace(pre, upper, pre);
    }
    assert Normalize(low) == Normalize(upper) by {
      NormalizeIgnoresCase(upper);
    }
    assert Normalize(word) == word by {
      PlainParis();
    }
  }

  /** A prefix without characters of the class is copied unchanged. */
  lemma {:induction false} ReplaceRunsPrefix(p: char -> bool, w: string, t: string)
    requires forall i :: 0 <= i < |w| ==> !p(w[i])
    ensures ReplaceRuns(p, w + t) == w + ReplaceRuns(p, t)
  {
    if w != [] {
      assert (w + t)[0] == w[0];
      assert (w + t)[1..] == w[1..] + t;
      ReplaceRunsPrefix(p, w[1..], t);
      assert w + ReplaceRuns(p, t) == [w[0]] + (w[1..] + ReplaceRuns(p, t));
    } else {
      assert w + t == t;
    }
  }

  /** A string that neither begins nor ends with whitespace is its own strip. */
  lemma StripNoEdge(t: string)
    requires t != [] && !IsSpace(t[0]) && !IsSpace(t[|t| - 1])
    ensures Strip(t) == t
  {
    assert TrimLeft(t) == t;
    assert TrimRight(t) == t;
  }

  /** One trailing blank is removed by strip. */
  lemma StripTrailingBlank(t: string)
    requires t != [] && !IsSpace(t[0]) && !IsSpace(t[|t| - 1])
    ensures Strip(t + [' ']) == t
  {
    var pre: string := [];
    assert pre + t + [' '] == t + [' '];
    StripSurrounded(pre, t, [' ']);
    StripNoEdge(t);
  }

  lemma BangSettled()
    ensures Settled('!') && IsPunct('!')
  {
  }

  /** A lower-case ASCII word followed by one settled punctuation mark normalises to the word. */
  lemma AsciiWordThenPunct(t: string, c: char)
    requires t != [] && forall i :: 0 <= i < |t| ==> 'a' <= t[i] <= 'z'
    requires Settled(c) && IsPunct(c)
    ensures Normalize(t + [c]) == t
  {
    WordThenPunctBare(t, c);
    WordThenPunctSpaced(t, c);
    WordThenBlankCollapsed(t);
    AsciiLowerSettled(t[0]);
    AsciiLowerSettled(t[|t| - 1]);
    StripTrailingBlank(t);
  }

  lemma WordThenPunctBare(t: string, c: char)
    requires forall i :: 0 <= i < |t| ==> 'a' <= t[i] <= 'z'
    requires Settled(c) && IsPunct(c)
    ensures Bare(t + [c]) == t + [c]
  {
    var s := t + [c];
    forall i | 0 <= i < |s| ensures Settled(s[i]) && (i == 0 ==> !IsSpace(s[i])) {
      if i < |t| { AsciiLowerSettled(t[i]); }
    }
    SettledBare(s);
  }

  /** A string of settled characters without white space at either end is its own bare form. */
  lemma SettledBare(s: string)
    requires s != [] && !IsSpace(s[0]) && !IsSpace(s[|s| - 1])
    requires forall i :: 0 <= i < |s| ==> Settled(s[i])
    ensures Bare(s) == s
  {
    assert Prepared(s) == s by {
      StripNoEdge(s);
      assert MapChars(Lower, s) == s;
      assert MapChars(YoToYe, s) == s;
    }
    assert Nfkd(s) == s && DropCombining(s) == s by {
      forall x | x in s ensures Settled(x) {
        var i :| 0 <= i < |s| && s[i] == x;
      }
      NfkdSettled(s);
    }
  }

  lemma WordThenPunctSpaced(t: string, c: char)
    requires forall i :: 0 <= i < |t| ==> 'a' <= t[i] <= 'z'
    requires IsPunct(c)
    ensures ReplaceRuns(IsPunct, t + [c]) == t + [' ']
  {
    forall i | 0 <= i < |t| ensures !IsPunct(t[i]) {
      AsciiLowerSettled(t[i]);
    }
    ReplaceRunsPrefix(IsPunct, t, [c]);
    assert ReplaceRuns(IsPunct, [c]) == [' '];
  }

  lemma WordThenBlankCollapsed(t: string)
    requires forall i :: 0 <= i < |t| ==> 'a' <= t[i] <= 'z'
    ensures ReplaceRuns(IsSpace, t + [' ']) == t + [' ']
  {
    forall i | 0 <= i < |t| ensures !IsSpace(t[i]) {
      AsciiLowerSettled(t[i]);
    }
    ReplaceRunsPrefix(IsSpace, t, [' ']);
    assert ReplaceRuns(IsSpace, [' ']) == [' '];
  }

  lemma ExclaimedParis()
    ensures Normalize("Paris!") == "paris"
  {
    var s, word := "Paris!", "paris";
    var low := MapChars(Lower, s);
    assert low == word + ['!'] by {
      assert low[0] == Lower('P') == 'p';
      assert low[5] == Lower('!') == '!';
    }
    assert Normalize(low) == Normalize(s) by {
      NormalizeIgnoresCase(s);
    }
    assert Normalize(word + ['!']) == word by {
      LowerBangParis();
    }
  }

  lemma LowerBangParis()
    ensures Normalize("paris" + ['!']) == "paris"
  {
    BangSettled();
    AsciiWordThenPunct("paris", '!');
  }

  /** Strip is idempotent. */
  lemma StripIdempotent(s: string)
    ensures Strip(Strip(s)) == Strip(s)
  {
    if Strip(s) != [] {
      StripNoEdge(Strip(s));
    }
  }

  /** The result depends on the text only through its stripped form. */
  lemma NormalizeOfStrip(text: string)
    ensures Normalize(Strip(text)) == Normalize(text)
  {
    StripIdempotent(text);
    NormalizeByStrip(Strip(text), text);
  }

  /** Two texts with the same stripped form normalise alike. */
  lemma NormalizeByStrip(a: string, b: string)
    requires Strip(a) == Strip(b)
    ensures Normalize(a) == Normalize(b)
  {
    assert Prepared(a) == Prepared(b);
    assert Bare(a) == Bare(b);
    if Strip(a) == [] {
      BlankBare(a);
      BlankRuns();
    }
  }

  /** A blank text has nothing left after the decomposition step. */
  lemma BlankBare(text: string)
    requires Strip(text) == []
    ensures Bare(text) == []
  {
    assert MapChars(Lower, Strip(text)) == [];
    assert Prepared(text) == [];
    assert Nfkd([]) == [];
  }

  lemma BlankRuns()
    ensures Strip(ReplaceRuns(IsSpace, ReplaceRuns(IsPunct, []))) == []
  {
    assert ReplaceRuns(IsPunct, []) == [];
    assert ReplaceRuns(IsSpace, []) == [];
  }

  /** Text that is blank after stripping normalises to the empty string. */
  lemma BlankNormalizesEmpty(text: string)
    requires Strip(text) == []
    ensures Normalize(text) == []
  {
    NormalizeOfStrip(text);
  }

  /** Text whose bare form has no symbol and single inner spaces normalises to that bare form. */
  lemma NormalOfBare(text: string)
    requires text != [] && NoEdgeSpace(Bare(text)) && SpacesIsolated(Bare(text))
    requires forall c :: c in Bare(text) ==> !IsPunct(c)
    ensures Normalize(text) == Bare(text)
  {
    var b := Bare(text);
    NoPunctUntouched(b);
    IsolatedUntouched(b);
    if b != [] {
      StripNoEdge(b);
    }
  }

  /**
   * Compatibility characters and the Cyrillic letters past U+045F: a
   * superscript two reads as the digit, a vulgar half as "1 2" (the fraction
   * slash is a symbol), and Ґ lower-cases to ґ.
   */
  lemma CompatibilityExamples()
    ensures Normalize("x\U{B2}") == "x2"
    ensures Normalize("\U{BD}") == "1 2"
    ensures Normalize("\U{490}") == "\U{491}"
  {
    SuperscriptTwo();
    VulgarHalf();
    CyrillicGhe();
  }

  lemma SuperscriptTwo()
    ensures Normalize("x\U{B2}") == "x2"
  {
    SuperscriptChars();
    BarePair('x', '\U{B2}', 'x', '2');
    PlainPairNormal("x\U{B2}", 'x', '2');
  }

  lemma SuperscriptChars()
    ensures !IsSpace('x') && Decompose(YoToYe(Lower('x'))) == ['x'] && !IsCombining('x') && !IsPunct('x')
    ensures !IsSpace('\U{B2}') && Decompose(YoToYe(Lower('\U{B2}'))) == ['2'] && !IsCombining('2') && !IsPunct('2')
  {
  }

  /** Two characters that are not white space, each decomposing to one base character, are bare as those two. */
  lemma BarePair(x: char, y: char, dx: char, dy: char)
    requires !IsSpace(x) && !IsSpace(y)
    requires Decompose(YoToYe(Lower(x))) == [dx] && Decompose(YoToYe(Lower(y))) == [dy]
    requires !IsCombining(dx) && !IsCombining(dy)
    ensures Bare([x, y]) == [dx, dy]
  {
    var t := [x, y];
    StripNoEdge(t);
    assert MapChars(Lower, t) == [Lower(x), Lower(y)];
    var p := [YoToYe(Lower(x)), YoToYe(Lower(y))];
    assert Prepared(t) == p;
    assert p[1..] == [p[1]] && p[1..][1..] == [];
    assert Nfkd(p[1..]) == [dy] + Nfkd([]);
    assert Nfkd(p) == [dx] + Nfkd(p[1..]);
    var b := [dx, dy];
    assert b[1..] == [dy] && b[1..][1..] == [];
    assert DropCombining(b[1..]) == [dy] + DropCombining([]);
    assert DropCombining(b) == [dx] + DropCombining(b[1..]);
    assert Nfkd(p) == b;
    assert DropCombining(b) == b;
    assert Bare(t) == DropCombining(Nfkd(p));
  }

  /** Text whose bare form is two characters that are neither spaces nor symbols normalises to them. */
  lemma PlainPairNormal(t: string, x: char, y: char)
    requires t != [] && Bare(t) == [x, y]
    requires !IsSpace(x) && !IsSpace(y) && !IsPunct(x) && !IsPunct(y)
    ensures Normalize(t) == [x, y]
  {
    NormalOfBare(t);
  }

  lemma VulgarHalf()
    ensures Normalize("\U{BD}") == "1 2"
  {
    HalfBare();
    HalfSpaced();
    SpacedPairKept('1', '2');
  }

  /** Two characters that are not white space, one space apart, are left as they are. */
  lemma SpacedPairKept(x: char, y: char)
    requires !IsSpace(x) && !IsSpace(y)
    ensures Strip(ReplaceRuns(IsSpace, [x, ' ', y])) == [x, ' ', y]
  {
    var t := [x, ' ', y];
    assert SpacesIsolated(t);
    IsolatedUntouched(t);
    StripNoEdge(t);
  }

  /** The vulgar half decomposes to digit, fraction slash, digit. */
  lemma HalfBare()
    ensures Bare("\U{BD}") == "1\U{2044}2"
  {
    BareSingle('\U{BD}');
    HalfDecomposed();
    HalfUnmarked();
  }

  lemma HalfDecomposed()
    ensures Decompose(YoToYe(Lower('\U{BD}'))) == "1\U{2044}2"
  {
  }

  lemma HalfUnmarked()
    ensures DropCombining("1\U{2044}2") == "1\U{2044}2"
  {
    var b := "1\U{2044}2";
    assert DropCombining(b[2..]) == "2";
    assert DropCombining(b[1..]) == ['\U{2044}'] + DropCombining(b[2..]);
  }

  /** The fraction slash is a symbol and becomes a space. */
  lemma HalfSpaced()
    ensures ReplaceRuns(IsPunct, "1\U{2044}2") == "1 2"
  {
    var b := "1\U{2044}2";
    SlashSpaced();
    assert ReplaceRuns(IsPunct, b) == ['1'] + ReplaceRuns(IsPunct, b[1..]);
  }

  lemma SlashSpaced()
    ensures ReplaceRuns(IsPunct, "\U{2044}2") == " 2"
  {
    assert IsPunct('\U{2044}') && !IsPunct('2');
    SymbolThenWord('\U{2044}', '2');
  }

  /** A symbol followed by a character outside the class becomes a space followed by that character. */
  lemma SymbolThenWord(x: char, y: char)
    requires IsPunct(x) && !IsPunct(y)
    ensures ReplaceRuns(IsPunct, [x, y]) == [' ', y]
  {
    assert [x, y][1..] == [y];
    assert SkipRun(IsPunct, [y]) == [y];
    assert [y][1..] == [];
    assert ReplaceRuns(IsPunct, [y]) == [y] + ReplaceRuns(IsPunct, []);
  }

  lemma CyrillicGhe()
    ensures Normalize("\U{490}") == "\U{491}"
  {
    GheBare();
    NormalOfBare("\U{490}");
  }

  /** Ґ lower-cases to ґ, which has no decomposition. */
  lemma GheBare()
    ensures Bare("\U{490}") == "\U{491}"
  {
    GheLowerChar();
    GheUndecomposed();
    BareLetter('\U{490}', '\U{491}');
  }

  /** A single character whose prepared form is d, an undecomposable non-mark, is bare d. */
  lemma BareLetter(c: char, d: char)
    requires !IsSpace(c) && YoToYe(Lower(c)) == d && Decompose(d) == [d] && !IsCombining(d)
    ensures Bare([c]) == [d]
  {
    BareSingle(c);
    assert [d][1..] == [];
    assert DropCombining([d]) == [d] + DropCombining([]);
  }

  lemma GheLowerChar()
    ensures YoToYe(Lower('\U{490}')) == '\U{491}'
  {
    assert PairedCapital('\U{490}');
  }

  /** A single character that is not white space: lower-cased, "ё" replaced, decomposed, marks dropped. */
  lemma BareSingle(c: char)
    requires !IsSpace(c)
    ensures Bare([c]) == DropCombining(Decompose(YoToYe(Lower(c))))
  {
    StripNoEdge([c]);
    assert MapChars(Lower, [c]) == [Lower(c)];
    var d := YoToYe(Lower(c));
    assert Prepared([c]) == [d];
    assert [d][1..] == [];
    assert Nfkd([d]) == Decompose(d) + Nfkd([]);
    assert Nfkd([d]) == Decompose(d);
  }

  lemma GheUndecomposed()
    ensures Decompose('\U{491}') == ['\U{491}']
  {
    assert DecompositionBase('\U{491}') == '\U{491}';
  }

  lemma CapitalParis()
    ensures Normalize("Paris") == "paris"
  {
    var s, word := "Paris", "paris";
    var low := MapChars(Lower, s);
    assert low == word by {
      assert low[0] == Lower('P') == 'p';
    }
    assert Normalize(low) == Normalize(s) by {
      NormalizeIgnoresCase(s);
    }
    assert Normalize(word) == word by {
      PlainParis();
    }
  }
}
