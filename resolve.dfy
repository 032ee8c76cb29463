/**
 * Answer resolution shared by both macro scripts (the body of the question
 * loop in `solve_article`): a question whose title holds a blank is answered
 * from the cleaned passage; any other question is answered with the pinyin of
 * its underlined keyword. The answer text is then looked up among the
 * options, with a random fallback, and the option index becomes a letter
 * A to D. Page contents and random draws are parameters.
 */
module Resolve {
  import opened Wrappers
  import opened Text
  import opened Ranges

  // ---------------------------------------------------------------------
  // Splitting a title at its blank: re.search('(.*?)_+(.*)', title)
  // ---------------------------------------------------------------------

  /** The end of the run of underscores that starts at position `i`. */
  function RunEnd(s: string, i: nat): (j: nat)
    requires i <= |s|
    ensures i <= j <= |s|
    ensures forall k :: i <= k < j ==> s[k] == '_'
    ensures j == |s| || s[j] != '_'
    decreases |s| - i
  {
    if i < |s| && s[i] == '_' then RunEnd(s, i + 1) else i
  }

  lemma {:induction false} RunEndAt(s: string, i: nat, j: nat)
    requires i <= j <= |s|
    requires forall k :: i <= k < j ==> s[k] == '_'
    requires j == |s| || s[j] != '_'
    ensures RunEnd(s, i) == j
    decreases j - i
  {
    if i < j {
      RunEndAt(s, i + 1, j);
    }
  }

  /** The text before and after the blank of a title. */
  datatype Blank = Blank(before: string, after: string)

  /** The groups of `(.*?)_+(.*)` on a one-line title that holds an underscore:
      the text before the first underscore, and the text after the maximal run
      of underscores that starts there. */
  function SplitAtBlank(title: string): (b: Blank)
    requires '_' in title
    ensures '_' !in b.before
    ensures |b.before| + |b.after| < |title|
    ensures title[..|b.before|] == b.before && title[|title| - |b.after|..] == b.after
    ensures forall k :: |b.before| <= k < |title| - |b.after| ==> title[k] == '_'
    ensures b.after == [] || b.after[0] != '_'
  {
    var k := FirstIndex(title, '_');
    var j := RunEnd(title, k);
    Blank(title[..k], title[j..])
  }

  function Underscores(n: nat): (u: string)
    ensures |u| == n && forall k :: 0 <= k < n ==> u[k] == '_'
  {
    seq(n, _ => '_')
  }

  /** The split is the only decomposition of that shape: text without an
      underscore, a non-empty run of underscores, and text that does not start
      with one. */
  lemma SplitAtBlankUnique(before: string, run: nat, after: string)
    requires '_' !in before && run > 0
    requires after == [] || after[0] != '_'
    ensures '_' in before + Underscores(run) + after
    ensures SplitAtBlank(before + Underscores(run) + after) == Blank(before, after)
  {
    var u := Underscores(run);
    var title := before + u + after;
    assert title == before + ['_'] + (u[1..] + after);
    FirstIndexAfter(before, '_', u[1..] + after);
    var k := |before|;
    assert forall i :: k <= i < k + run ==> title[i] == u[i - k];
    RunEndAt(title, k, k + run);
    assert title[..k] == before;
    assert title[k + run..] == after;
  }

  // ---------------------------------------------------------------------
  // Anchors and the leftmost window
  // ---------------------------------------------------------------------

  /** `clean(prefix)[-3:]`: the last three characters of the cleaned text before
      the blank, or all of it when shorter; none of them is a removed symbol. */
  function PrefixAnchor(drop: seq<char>, before: string): (a: string)
    ensures |a| == Min(3, |Filter(before, drop)|)
    ensures a == Filter(before, drop)[|Filter(before, drop)| - |a|..]
    ensures forall c :: c in a ==> c in before && c !in drop
  {
    var t := TakeLast(Filter(before, drop), 3);
    FilterMembers(before, drop);
    assert forall c :: c in t ==> c in Filter(before, drop);
    t
  }

  /** `clean(suffix)[:3]`: the first three characters of the cleaned text after
      the blank, or all of it when shorter; none of them is a removed symbol. */
  function SuffixAnchor(drop: seq<char>, after: string): (a: string)
    ensures |a| == Min(3, |Filter(after, drop)|)
    ensures a == Filter(after, drop)[..|a|]
    ensures forall c :: c in a ==> c in after && c !in drop
  {
    var t := TakeFirst(Filter(after, drop), 3);
    FilterMembers(after, drop);
    assert forall c :: c in t ==> c in Filter(after, drop);
    t
  }

  /** The pattern `{prefix}(.{length}){suffix}` read literally. */
  datatype Pattern = Pattern(prefix: string, width: nat, suffix: string)

  function BlankPattern(drop: seq<char>, title: string, width: nat): Pattern
    requires '_' in title
  {
    var b := SplitAtBlank(title);
    Pattern(PrefixAnchor(drop, b.before), width, SuffixAnchor(drop, b.after))
  }

  /** The pattern matches the passage at position `i`. */
  predicate MatchAt(passage: string, i: nat, p: Pattern)
  {
    i + |p.prefix| + p.width + |p.suffix| <= |passage|
    && passage[i..i + |p.prefix|] == p.prefix
    && passage[i + |p.prefix| + p.width..i + |p.prefix| + p.width + |p.suffix|] == p.suffix
  }

  /** The captured group of a match at `i`. */
  function Captured(passage: string, i: nat, p: Pattern): string
    requires MatchAt(passage, i, p)
  {
    passage[i + |p.prefix|..i + |p.prefix| + p.width]
  }

  /** `re.search` from position `from` on: the leftmost match at or after it. */
  function SearchFrom(passage: string, p: Pattern, from: nat): (r: Option<nat>)
    ensures r.Some? ==> from <= r.value && MatchAt(passage, r.value, p)
    ensures forall j :: from <= j && (r.None? || j < r.value) ==> !MatchAt(passage, j, p)
    decreases |passage| + 1 - from
  {
    if from + |p.prefix| + p.width + |p.suffix| > |passage| then None
    else if MatchAt(passage, from, p) then Some(from)
    else SearchFrom(passage, p, from + 1)
  }

  /** `re.search(pattern, passage)`: the leftmost match, if any. */
  function Search(passage: string, p: Pattern): Option<nat>
  {
    SearchFrom(passage, p, 0)
  }

  /** The answer text of a fill-in-the-blank question: the stripped window of
      the leftmost match, or the option drawn at random when nothing matches. */
  function FillBlankAnswer(drop: seq<char>, passage: string, title: string, options: seq<string>, pick: nat): string
    requires '_' in title && |options| > 0 && pick < |options|
  {
    var p := BlankPattern(drop, title, |options[0]|);
    match Search(passage, p)
    case None => options[pick]
    case Some(i) => Strip(Captured(passage, i, p))
  }

  /** When the pattern matches at `i` and nowhere before it, the answer is the
      stripped window at `i`. */
  lemma FillBlankLeftmost(drop: seq<char>, passage: string, title: string, options: seq<string>, pick: nat, i: nat)
    requires '_' in title && |options| > 0 && pick < |options|
    requires MatchAt(passage, i, BlankPattern(drop, title, |options[0]|))
    requires forall j :: 0 <= j < i ==> !MatchAt(passage, j, BlankPattern(drop, title, |options[0]|))
    ensures FillBlankAnswer(drop, passage, title, options, pick)
            == Strip(Captured(passage, i, BlankPattern(drop, title, |options[0]|)))
  {
    var p := BlankPattern(drop, title, |options[0]|);
    var r := Search(passage, p);
    assert r.Some? && r.value <= i;
  }

  /** When the pattern matches nowhere, the answer is one of the options. */
  lemma FillBlankFallback(drop: seq<char>, passage: string, title: string, options: seq<string>, pick: nat)
    requires '_' in title && |options| > 0 && pick < |options|
    requires forall j :: 0 <= j ==> !MatchAt(passage, j, BlankPattern(drop, title, |options[0]|))
    ensures FillBlankAnswer(drop, passage, title, options, pick) == options[pick]
    ensures FillBlankAnswer(drop, passage, title, options, pick) in options
  {
  }

  // ---------------------------------------------------------------------
  // Pinyin answers
  // ---------------------------------------------------------------------

  /** The first reading of each character: `v[0]` for each `v` in `pinyin(keyword)`. */
  function FirstReadings(readings: seq<seq<string>>): (r: seq<string>)
    requires forall i :: 0 <= i < |readings| ==> |readings[i]| > 0
    ensures |r| == |readings| && forall i :: 0 <= i < |r| ==> r[i] == readings[i][0]
  {
    seq(|readings|, i requires 0 <= i < |readings| => readings[i][0])
  }

  /** The three `str.replace` calls that respell ü with tones 2, 3 and 4. */
  function ToneSpelling(s: string): string
  {
    ReplaceChar(ReplaceChar(ReplaceChar(s, 'ǘ', "u:2"), 'ǚ', "u:3"), 'ǜ', "u:4")
  }

  /** The respelling of one character. */
  function ToneChar(c: char): string
  {
    if c == 'ǘ' then "u:2" else if c == 'ǚ' then "u:3" else if c == 'ǜ' then "u:4" else [c]
  }

  /** Character-by-character respelling, in one pass. */
  function ToneMap(s: string): string
    decreases |s|
  {
    if s == [] then [] else ToneChar(s[0]) + ToneMap(s[1..])
  }

  lemma ReplaceHit(c: char, t: string)
    ensures ReplaceChar([c], c, t) == t
  {
    assert [c][1..] == [];
  }

  lemma ToneSpellingChar(c: char)
    ensures ToneSpelling([c]) == ToneChar(c)
  {
    if c == 'ǘ' {
      ReplaceHit(c, "u:2");
      ReplaceAbsent("u:2", 'ǚ', "u:3");
      ReplaceAbsent("u:2", 'ǜ', "u:4");
    } else if c == 'ǚ' {
      ReplaceAbsent([c], 'ǘ', "u:2");
      ReplaceHit(c, "u:3");
      ReplaceAbsent("u:3", 'ǜ', "u:4");
    } else if c == 'ǜ' {
      ReplaceAbsent([c], 'ǘ', "u:2");
      ReplaceAbsent([c], 'ǚ', "u:3");
      ReplaceHit(c, "u:4");
    } else {
      ReplaceAbsent([c], 'ǘ', "u:2");
      ReplaceAbsent([c], 'ǚ', "u:3");
      ReplaceAbsent([c], 'ǜ', "u:4");
    }
  }

  lemma ToneSpellingAppend(a: string, b: string)
    ensures ToneSpelling(a + b) == ToneSpelling(a) + ToneSpelling(b)
  {
    ReplaceAppend(a, b, 'ǘ', "u:2");
    ReplaceAppend(ReplaceChar(a, 'ǘ', "u:2"), ReplaceChar(b, 'ǘ', "u:2"), 'ǚ', "u:3");
    ReplaceAppend(ReplaceChar(ReplaceChar(a, 'ǘ', "u:2"), 'ǚ', "u:3"),
                  ReplaceChar(ReplaceChar(b, 'ǘ', "u:2"), 'ǚ', "u:3"), 'ǜ', "u:4");
  }

  /** The three successive replacements equal one pass that respells each
      character on its own: ǘ, ǚ, ǜ become u:2, u:3, u:4 and every other
      character stays. */
  lemma {:induction false} ToneSpellingOnePass(s: string)
    ensures ToneSpelling(s) == ToneMap(s)
    decreases |s|
  {
    if s != [] {
      assert s == [s[0]] + s[1..];
      ToneSpellingAppend([s[0]], s[1..]);
      ToneSpellingChar(s[0]);
      ToneSpellingOnePass(s[1..]);
    }
  }

  /** No ü with tone 2, 3 or 4 is left after the respelling. */
  lemma ToneSpellingClears(s: string)
    ensures 'ǘ' !in ToneSpelling(s) && 'ǚ' !in ToneSpelling(s) && 'ǜ' !in ToneSpelling(s)
  {
    var a := ReplaceChar(s, 'ǘ', "u:2");
    var b := ReplaceChar(a, 'ǚ', "u:3");
    assert 'ǘ' !in a;
    assert 'ǘ' !in b && 'ǚ' !in b;
  }

  /** Respelling introduces and removes no spaces. */
  lemma {:induction false} ToneMapSpaces(s: string)
    ensures ' ' in ToneMap(s) <==> ' ' in s
    decreases |s|
  {
    if s != [] {
      ToneMapSpaces(s[1..]);
      assert ' ' in s <==> s[0] == ' ' || ' ' in s[1..];
      assert ' ' in ToneMap(s) <==> ' ' in ToneChar(s[0]) || ' ' in ToneMap(s[1..]);
    }
  }

  /** The pinyin answer: first readings joined by single spaces, then respelled. */
  function PinyinAnswer(readings: seq<seq<string>>): (answer: string)
    requires forall i :: 0 <= i < |readings| ==> |readings[i]| > 0
    ensures 'ǘ' !in answer && 'ǚ' !in answer && 'ǜ' !in answer
  {
    var joined := Join(FirstReadings(readings), ' ');
    ToneSpellingClears(joined);
    ToneSpelling(joined)
  }

  /** Respelling a space-joined list respells each part. */
  lemma {:induction false} ToneSpellingJoin(parts: seq<string>)
    ensures ToneSpelling(Join(parts, ' ')) == Join(seq(|parts|, i requires 0 <= i < |parts| => ToneSpelling(parts[i])), ' ')
    decreases |parts|
  {
    var mapped := seq(|parts|, i requires 0 <= i < |parts| => ToneSpelling(parts[i]));
    if |parts| == 1 {
    } else if |parts| > 1 {
      ToneSpellingJoin(parts[1..]);
      assert mapped[1..] == seq(|parts[1..]|, i requires 0 <= i < |parts[1..]| => ToneSpelling(parts[1..][i]));
      ToneSpellingAppend(parts[0] + [' '], Join(parts[1..], ' '));
      ToneSpellingAppend(parts[0], [' ']);
      ToneSpellingChar(' ');
    }
  }

  /** The answer splits at its spaces into one syllable per keyword character,
      each the respelled first reading, when no reading holds a space. */
  lemma PinyinSyllables(readings: seq<seq<string>>)
    requires |readings| > 0
    requires forall i :: 0 <= i < |readings| ==> |readings[i]| > 0 && ' ' !in readings[i][0]
    ensures SplitOn(PinyinAnswer(readings), ' ')
            == seq(|readings|, i requires 0 <= i < |readings| => ToneSpelling(readings[i][0]))
  {
    var firsts := FirstReadings(readings);
    var mapped := seq(|firsts|, i requires 0 <= i < |firsts| => ToneSpelling(firsts[i]));
    ToneSpellingJoin(firsts);
    forall i | 0 <= i < |mapped|
      ensures ' ' !in mapped[i]
    {
      ToneSpellingOnePass(firsts[i]);
      ToneMapSpaces(firsts[i]);
    }
    SplitJoin(mapped, ' ');
  }

  /** The example of a keyword read "lǚ". */
  lemma PinyinLv()
    ensures PinyinAnswer([["lǚ", "lü"]]) == "lu:3"
  {
    ToneSpellingOnePass("lǚ");
  }

  // ---------------------------------------------------------------------
  // Choosing an option
  // ---------------------------------------------------------------------

  /** `MCQ_CHOICE`: the letters of the radio buttons. */
  const McqChoice: seq<char> := ['A', 'B', 'C', 'D']

  /** `options.index(x)`: the first position of `x`. */
  function IndexOf(options: seq<string>, x: string): (k: nat)
    requires x in options
    ensures k < |options| && options[k] == x
    ensures forall j :: 0 <= j < k ==> options[j] != x
  {
    if options[0] == x then 0 else IndexOf(options[1..], x) + 1
  }

  /** The chosen option: the first position of the answer among the options,
      or the random fallback in 0..3 when the answer is not an option. With at
      most four options the choice indexes `McqChoice`. */
  function Choose(answer: string, options: seq<string>, fallback: nat): (k: nat)
    requires fallback <= 3
    ensures answer in options ==> k < |options| && options[k] == answer
                                  && forall j :: 0 <= j < k ==> options[j] != answer
    ensures answer !in options ==> k == fallback
    ensures |options| <= |McqChoice| ==> k < |McqChoice|
  {
    if answer in options then IndexOf(options, answer) else fallback
  }

  // ---------------------------------------------------------------------
  // The score
  // ---------------------------------------------------------------------

  /** `int(text[:-2]) + 100`: the awarded score with two trailing characters
      dropped, plus the fixed bonus; `None` where `int` raises. */
  function Score(text: string): (r: Option<int>)
    ensures |text| <= 2 ==> r == None
  {
    var body := if |text| >= 2 then text[..|text| - 2] else [];
    assert |body| == 0 ==> Strip(body) == [];
    match ParseInt(body)
    case None => None
    case Some(v) => Some(v + 100)
  }

  /** A score shown as a number followed by a two-character unit reads back as
      that number plus 100. */
  lemma ScoreRoundTrip(n: int, unit: string)
    requires |unit| == 2
    ensures Score(ShowInt(n) + unit) == Some(n + 100)
  {
    var text := ShowInt(n) + unit;
    assert text[..|text| - 2] == ShowInt(n);
    ParseShowInt(n);
  }

  // ---------------------------------------------------------------------
  // One question, and the loop over a question set
  // ---------------------------------------------------------------------

  /** A question as the page shows it: its title, its option texts, and, when
      the title has an underlined keyword, `pinyin(keyword)`. */
  datatype Question = Question(title: string, options: seq<string>, keyword: Option<seq<seq<string>>>)

  /** The random draws for one question: `random.choice(mcq)` as an index and
      `random.randint(0, 3)`. */
  datatype Draw = Draw(pick: nat, fallback: nat)

  /** The exceptions a question or a submission can raise. */
  datatype Fault =
    | NoOptions          // mcq[0] on an empty option list
    | NoKeyword          // no underlined keyword in a pinyin question
    | NoReading          // a character without any reading
    | ChoiceOutOfRange   // MCQ_CHOICE[choice] with choice > 3
    | NoScoreElement     // the submit button or the score element is missing
    | ScoreNotInteger    // int(...) on the score text raises

  /** The faults answering a single question can raise. */
  predicate QuestionFault(f: Fault)
  {
    f.NoOptions? || f.NoKeyword? || f.NoReading? || f.ChoiceOutOfRange?
  }

  predicate DrawFits(q: Question, d: Draw)
  {
    d.fallback <= 3 && (|q.options| > 0 ==> d.pick < |q.options|)
  }

  /** No character of `s` has a meaning of its own in a regular expression. */
  predicate NoRegexMeta(s: string)
  {
    forall k :: 0 <= k < |s| ==> s[k] !in ".^$*+?{}[]\\|()"
  }

  /** A title with a blank is one line, and its anchors read as literal text
      when they are placed into the pattern. A title without a blank never
      reaches the pattern, so any such title fits. */
  predicate LiteralTitle(drop: seq<char>, title: string)
  {
    '_' in title ==>
      var b := SplitAtBlank(title);
      '\n' !in title
      && NoRegexMeta(PrefixAnchor(drop, b.before)) && NoRegexMeta(SuffixAnchor(drop, b.after))
  }

  predicate QuestionFits(drop: seq<char>, q: Question, d: Draw)
  {
    DrawFits(q, d) && LiteralTitle(drop, q.title)
  }

  predicate HasReadings(readings: seq<seq<string>>)
  {
    forall i :: 0 <= i < |readings| ==> |readings[i]| > 0
  }

  /** The option index chosen for one question. */
  function ChosenIndex(drop: seq<char>, passage: string, q: Question, d: Draw): (r: Result<nat, Fault>)
    requires QuestionFits(drop, q, d)
    ensures r.Success? ==> r.value < |q.options| || r.value == d.fallback
  {
    if '_' in q.title then
      if |q.options| == 0 then Failure(NoOptions)
      else Success(Choose(FillBlankAnswer(drop, passage, q.title, q.options, d.pick), q.options, d.fallback))
    else
      match q.keyword
      case None => Failure(NoKeyword)
      case Some(readings) =>
        if !HasReadings(readings) then Failure(NoReading)
        else Success(Choose(PinyinAnswer(readings), q.options, d.fallback))
  }

  /** A fill-in-the-blank question whose pattern matches at `i` and nowhere
      before clicks the first option equal to the stripped window, or the random
      fallback when no option equals it. */
  lemma FillBlankChoice(drop: seq<char>, passage: string, q: Question, d: Draw, i: nat)
    requires QuestionFits(drop, q, d) && '_' in q.title && |q.options| > 0
    requires MatchAt(passage, i, BlankPattern(drop, q.title, |q.options[0]|))
    requires forall j :: 0 <= j < i ==> !MatchAt(passage, j, BlankPattern(drop, q.title, |q.options[0]|))
    ensures ChosenIndex(drop, passage, q, d)
            == Success(Choose(Strip(Captured(passage, i, BlankPattern(drop, q.title, |q.options[0]|))), q.options, d.fallback))
  {
    FillBlankLeftmost(drop, passage, q.title, q.options, d.pick, i);
  }

  /** When the pattern matches nowhere, the option drawn at random is the
      answer, so the click goes to the first option equal to it: never a
      random index, and never later than the drawn option. */
  lemma FillBlankFallbackChoice(drop: seq<char>, passage: string, q: Question, d: Draw)
    requires QuestionFits(drop, q, d) && '_' in q.title && |q.options| > 0
    requires forall j :: 0 <= j ==> !MatchAt(passage, j, BlankPattern(drop, q.title, |q.options[0]|))
    ensures ChosenIndex(drop, passage, q, d).Success?
    ensures ChosenIndex(drop, passage, q, d).value <= d.pick
    ensures q.options[ChosenIndex(drop, passage, q, d).value] == q.options[d.pick]
  {
    FillBlankFallback(drop, passage, q.title, q.options, d.pick);
  }

  /** The letter clicked for one question: always one of A to D, and always
      available when the question has at most four options and is answerable. */
  function AnswerLetter(drop: seq<char>, passage: string, q: Question, d: Draw): (r: Result<char, Fault>)
    requires QuestionFits(drop, q, d)
    ensures r.Success? ==> r.value in McqChoice
    ensures r.Failure? ==> QuestionFault(r.error)
    ensures r.Success? <==> ChosenIndex(drop, passage, q, d).Success? && ChosenIndex(drop, passage, q, d).value < 4
    ensures |q.options| <= 4 && ChosenIndex(drop, passage, q, d).Success? ==> r.Success?
  {
    match ChosenIndex(drop, passage, q, d)
    case Failure(f) => Failure(f)
    case Success(k) => if k < 4 then Success(McqChoice[k]) else Failure(ChoiceOutOfRange)
  }

  predicate AllFit(drop: seq<char>, qs: seq<Question>, ds: seq<Draw>)
  {
    |ds| == |qs| && forall i :: 0 <= i < |qs| ==> QuestionFits(drop, qs[i], ds[i])
  }

  /** The outcome of a sequence of steps that each give a value or raise:
      every value, in order, or the fault of the first step that raises. */
  function Collect<T>(rs: seq<Result<T, Fault>>): Result<seq<T>, Fault>
    decreases |rs|
  {
    if rs == [] then Success([])
    else
      match rs[0]
      case Failure(f) => Failure(f)
      case Success(v) =>
        match Collect(rs[1..])
        case Failure(f) => Failure(f)
        case Success(vs) => Success([v] + vs)
  }

  /** All steps give a value exactly when the sequence does, and then its values
      are theirs, in order; otherwise the fault is that of the first step that
      raises. */
  lemma {:induction false} CollectMeaning<T>(rs: seq<Result<T, Fault>>)
    ensures Collect(rs).Success? <==> forall i :: 0 <= i < |rs| ==> rs[i].Success?
    ensures Collect(rs).Success? ==>
              |Collect(rs).value| == |rs| && forall i :: 0 <= i < |rs| ==> rs[i] == Success(Collect(rs).value[i])
    ensures Collect(rs).Failure? ==>
              exists i :: 0 <= i < |rs| && rs[i] == Failure(Collect(rs).error) && forall j :: 0 <= j < i ==> rs[j].Success?
    decreases |rs|
  {
    if rs != [] {
      var tail := rs[1..];
      CollectMeaning(tail);
      assert forall i :: 1 <= i < |rs| ==> rs[i] == tail[i - 1];
      if rs[0].Failure? {
        assert rs[0] == Failure(Collect(rs).error);
      } else if Collect(tail).Failure? {
        var i :| 0 <= i < |tail| && tail[i] == Failure(Collect(tail).error) && forall j :: 0 <= j < i ==> tail[j].Success?;
        assert rs[i + 1] == Failure(Collect(rs).error);
        assert forall j :: 0 <= j < i + 1 ==> rs[j].Success?;
      } else {
        assert Collect(rs).value == [rs[0].value] + Collect(tail).value;
      }
    }
  }

  /** A step appended to a sequence that gave its values adds its value, or
      raises its fault. */
  lemma {:induction false} CollectSnoc<T>(rs: seq<Result<T, Fault>>, x: Result<T, Fault>)
    requires Collect(rs).Success?
    ensures Collect(rs + [x]) == if x.Success? then Success(Collect(rs).value + [x.value]) else Failure(x.error)
    decreases |rs|
  {
    if rs == [] {
      assert rs + [x] == [x] && [x][1..] == [];
      if x.Success? {
        assert Collect([x]) == Success([x.value] + []);
        assert [x.value] + [] == Collect(rs).value + [x.value];
      }
    } else {
      var tail := rs[1..];
      assert (rs + [x])[0] == rs[0];
      assert (rs + [x])[1..] == tail + [x];
      CollectSnoc(tail, x);
      if x.Success? {
        var v, vs := rs[0].value, Collect(tail).value;
        assert Collect(rs).value == [v] + vs;
        assert [v] + (vs + [x.value]) == ([v] + vs) + [x.value];
      }
    }
  }

  /** Once a prefix has raised, whatever follows it is never reached. */
  lemma {:induction false} CollectFailureSticks<T>(rs: seq<Result<T, Fault>>, more: seq<Result<T, Fault>>)
    requires Collect(rs).Failure?
    ensures Collect(rs + more) == Collect(rs)
    decreases |rs|
  {
    assert (rs + more)[0] == rs[0];
    if rs[0].Success? {
      assert (rs + more)[1..] == rs[1..] + more;
      CollectFailureSticks(rs[1..], more);
    }
  }

  /** The per-question results of a question set. */
  function Letters(drop: seq<char>, passage: string, qs: seq<Question>, ds: seq<Draw>): seq<Result<char, Fault>>
    requires AllFit(drop, qs, ds)
  {
    seq(|qs|, i requires 0 <= i < |qs| => AnswerLetter(drop, passage, qs[i], ds[i]))
  }

  /** The letters clicked for a question set, in order; the first question
      that raises ends the set with its fault. */
  function AnswerAll(drop: seq<char>, passage: string, qs: seq<Question>, ds: seq<Draw>): (r: Result<seq<char>, Fault>)
    requires AllFit(drop, qs, ds)
  {
    Collect(Letters(drop, passage, qs, ds))
  }

  /** Every clicked letter is one of A to D, and a set of answerable questions
      with at most four options each is answered in full. */
  lemma AnswerAllLetters(drop: seq<char>, passage: string, qs: seq<Question>, ds: seq<Draw>)
    requires AllFit(drop, qs, ds)
    ensures AnswerAll(drop, passage, qs, ds).Success? ==>
              |AnswerAll(drop, passage, qs, ds).value| == |qs|
              && forall i :: 0 <= i < |qs| ==> AnswerAll(drop, passage, qs, ds).value[i] in McqChoice
    ensures (forall i :: 0 <= i < |qs| ==> |qs[i].options| <= 4 && ChosenIndex(drop, passage, qs[i], ds[i]).Success?)
            ==> AnswerAll(drop, passage, qs, ds).Success?
    ensures AnswerAll(drop, passage, qs, ds).Failure? ==> QuestionFault(AnswerAll(drop, passage, qs, ds).error)
  {
    var rs := Letters(drop, passage, qs, ds);
    CollectMeaning(rs);
    assert forall i :: 0 <= i < |qs| ==> rs[i] == AnswerLetter(drop, passage, qs[i], ds[i]);
  }

  /** The loop over the question set: click one letter per question, in order. */
  method AnswerQuestions(drop: seq<char>, passage: string, qs: seq<Question>, ds: seq<Draw>) returns (r: Result<seq<char>, Fault>)
    requires AllFit(drop, qs, ds)
    ensures r == AnswerAll(drop, passage, qs, ds)
  {
    ghost var rs := Letters(drop, passage, qs, ds);
    var letters := [];
    assert rs[..0] == [];
    for i := 0 to |qs|
      invariant Collect(rs[..i]) == Success(letters)
    {
      var a := AnswerLetter(drop, passage, qs[i], ds[i]);
      assert a == rs[i];
      PrefixSnoc(rs, i);
      CollectSnoc(rs[..i], a);
      if a.Failure? {
        PrefixSplit(rs, i + 1);
        CollectFailureSticks(rs[..i + 1], rs[i + 1..]);
        return Failure(a.error);
      }
      letters := letters + [a.value];
    }
    assert rs[..|qs|] == rs;
    r := Success(letters);
  }

  // ---------------------------------------------------------------------
  // The article page
  // ---------------------------------------------------------------------

  /** What the site returns for one article: the passage sentences, the
      questions, and the score text after submitting (`None` when the submit
      button or the score element is missing). */
  datatype Page = Page(paragraphs: seq<string>, questions: seq<Question>, scoreText: Option<string>)

  /** Every page of a run comes with draws that fit its questions. */
  predicate PagesFit(drop: seq<char>, pages: seq<Page>, draws: seq<seq<Draw>>)
  {
    |draws| == |pages| && forall k :: 0 <= k < |pages| ==> AllFit(drop, pages[k].questions, draws[k])
  }

  /** `clean(''.join(paragraphs))`. */
  function Passage(drop: seq<char>, paragraphs: seq<string>): (p: string)
    ensures forall c :: c in drop ==> c !in p
  {
    FilterMembers(Concat(paragraphs), drop);
    Filter(Concat(paragraphs), drop)
  }
}
