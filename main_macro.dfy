/**
 * main.py: one article at a time through `solve_article`, the shared
 * `CONFIG['lastProcessedArticleID']` checkpoint advanced with max semantics,
 * global counters of solved articles and points, and one session over the
 * IDs `last + 1 .. last + articlesPerSession`.
 */
module MainMacro {
  import opened Wrappers
  import opened Text
  import opened Normalize
  import opened Resolve
  import opened Ranges

  // ---------------------------------------------------------------------
  // clean
  // ---------------------------------------------------------------------

  const Special: seq<char> := ['\n', '\t', ' ']

  /** main.py's punctuation list, with the full-width space, slash and
      parentheses and the em dash at its end. */
  const Punctuation: seq<char> :=
    ['“', '”', '。', '，', '、', '：', '？', ';', '！', '(', ')', '[', ']', '{', '}',
     '《', '》', '…', '·', '\'', '\U{3000}', '／', '（', '）', '—']

  const Symbols: seq<char> := Special + Punctuation

  /** `clean`: the text without any of the symbols, every other character kept in order. */
  method Clean(text: string) returns (r: string)
    ensures r == Filter(text, Symbols)
  {
    r := CleanWith(text, Symbols);
  }

  /** The cleaned text holds none of the symbols, and keeps every other
      character at the positions `KeptPositions` lists, in order. */
  lemma CleanRemovesOnlySymbols(text: string)
    ensures forall c :: c in Symbols ==> c !in Filter(text, Symbols)
    ensures forall c :: c in text && c !in Symbols ==> c in Filter(text, Symbols)
    ensures var ks := KeptPositions(text, Symbols);
            |ks| == |Filter(text, Symbols)|
            && (forall k :: 0 <= k < |ks| ==> ks[k] < |text| && Filter(text, Symbols)[k] == text[ks[k]])
            && (forall k, l :: 0 <= k < l < |ks| ==> ks[k] < ks[l])
            && (forall j :: 0 <= j < |text| && text[j] !in Symbols ==> j in ks)
  {
    FilterMembers(text, Symbols);
    FilterKeepsOrder(text, Symbols);
  }

  /** `clean(clean(s)) == clean(s)`. */
  lemma CleanIdempotent(text: string)
    ensures Filter(Filter(text, Symbols), Symbols) == Filter(text, Symbols)
  {
    FilterIdempotent(text, Symbols);
  }

  // ---------------------------------------------------------------------
  // solve_article
  // ---------------------------------------------------------------------

  /** How `solve_article` ends: an invalid article is skipped, a submitted one
      is solved with its score, and an exception is swallowed by the
      `suppress_exception` decorator. */
  datatype Outcome = Skipped | Solved(letters: seq<char>, score: int) | Suppressed(fault: Fault)

  /** The outcome of one article, from its page and the random draws. */
  function ArticleOutcome(page: Page, draws: seq<Draw>): Outcome
    requires AllFit(Symbols, page.questions, draws)
  {
    if |page.paragraphs| == 0 then Skipped
    else
      match AnswerAll(Symbols, Passage(Symbols, page.paragraphs), page.questions, draws)
      case Failure(f) => Suppressed(f)
      case Success(letters) =>
        match page.scoreText
        case None => Suppressed(NoScoreElement)
        case Some(text) =>
          match Score(text)
          case None => Suppressed(ScoreNotInteger)
          case Some(score) => Solved(letters, score)
  }

  /** An article without paragraphs is skipped; a solved one was answered in
      full and carries the parsed score; a missing score element is suppressed. */
  lemma ArticleOutcomeCases(page: Page, draws: seq<Draw>)
    requires AllFit(Symbols, page.questions, draws)
    ensures ArticleOutcome(page, draws).Skipped? <==> |page.paragraphs| == 0
    ensures ArticleOutcome(page, draws).Solved? ==>
              page.scoreText.Some? && Score(page.scoreText.value) == Some(ArticleOutcome(page, draws).score)
              && AnswerAll(Symbols, Passage(Symbols, page.paragraphs), page.questions, draws)
                 == Success(ArticleOutcome(page, draws).letters)
    ensures |page.paragraphs| > 0 && page.scoreText.None? ==> ArticleOutcome(page, draws).Suppressed?
  {
  }


  /** The outcome of each page of a session, in order. */
  function Outcomes(pages: seq<Page>, draws: seq<seq<Draw>>): (os: seq<Outcome>)
    requires PagesFit(Symbols, pages, draws)
    ensures |os| == |pages|
    ensures forall k :: 0 <= k < |pages| ==> os[k] == ArticleOutcome(pages[k], draws[k])
  {
    seq(|pages|, k requires 0 <= k < |pages| => ArticleOutcome(pages[k], draws[k]))
  }

  /** Points an outcome adds to `TOTAL_SCORE_GAINED`. */
  function Gain(o: Outcome): int
  {
    if o.Solved? then o.score else 0
  }

  /** How many of the outcomes are solved articles: what `ARTICLES_SOLVED` grows by. */
  function SolvedCount(os: seq<Outcome>): (n: nat)
    ensures n <= |os|
  {
    if os == [] then 0 else (if os[0].Solved? then 1 else 0) + SolvedCount(os[1..])
  }

  /** The points of all the outcomes: what `TOTAL_SCORE_GAINED` grows by. */
  function ScoreSum(os: seq<Outcome>): int
  {
    if os == [] then 0 else Gain(os[0]) + ScoreSum(os[1..])
  }

  // ---------------------------------------------------------------------
  // The checkpoint and the session's ID range
  // ---------------------------------------------------------------------

  function Max(a: int, b: int): int { if a >= b then a else b }

  /** The checkpoint after advancing with each ID of `ids` in turn. */
  function MaxAll(last: int, ids: seq<int>): (m: int)
    ensures last <= m
    ensures forall k :: 0 <= k < |ids| ==> ids[k] <= m
    ensures m == last || m in ids
    decreases |ids|
  {
    if ids == [] then last
    else
      var m := MaxAll(last, ids[..|ids| - 1]);
      assert forall x :: x in ids[..|ids| - 1] ==> x in ids;
      Max(m, ids[|ids| - 1])
  }

  /** The checkpoint does not depend on the order in which the IDs arrive, so
      the pool's workers may finish in any order. */
  lemma MaxAllOrderFree(last: int, a: seq<int>, b: seq<int>)
    requires multiset(a) == multiset(b)
    ensures MaxAll(last, a) == MaxAll(last, b)
  {
    assert forall x :: x in a <==> x in b by {
      forall x
        ensures x in a <==> x in b
      {
        assert x in a <==> x in multiset(a);
        assert x in b <==> x in multiset(b);
      }
    }
    var ma, mb := MaxAll(last, a), MaxAll(last, b);
    assert ma == last || ma in b;
    assert mb == last || mb in a;
  }

  /** The advances `[7, 3, 9, 5]` from a checkpoint at most 9 leave it at 9. */
  lemma MaxAllExample(last: int)
    requires last <= 9
    ensures MaxAll(last, [7, 3, 9, 5]) == 9
  {
    assert [7, 3, 9, 5][..3] == [7, 3, 9];
    assert [7, 3, 9][..2] == [7, 3];
    assert [7, 3][..1] == [7];
  }

  /** After a session the checkpoint stands at the last ID of the range. */
  lemma {:induction false} SessionCheckpoint(last: int, amount: int)
    ensures MaxAll(last, IdRange(last + 1, amount)) == last + Count(amount)
    decreases Count(amount)
  {
    if amount > 0 {
      var ids := IdRange(last + 1, amount);
      assert ids[..|ids| - 1] == IdRange(last + 1, amount - 1);
      SessionCheckpoint(last, amount - 1);
    }
  }

  /** One more article appended to a session's record. */
  lemma {:induction false} SessionStep(os: seq<Outcome>, o: Outcome)
    ensures SolvedCount(os + [o]) == SolvedCount(os) + (if o.Solved? then 1 else 0)
    ensures ScoreSum(os + [o]) == ScoreSum(os) + Gain(o)
  {
    if os != [] {
      assert (os + [o])[1..] == os[1..] + [o];
      SessionStep(os[1..], o);
    } else {
      assert [o][1..] == [];
    }
  }


  // ---------------------------------------------------------------------
  // The process state: CONFIG and the global counters
  // ---------------------------------------------------------------------

  class Macro {
    var lastProcessedArticleID: int
    var articlesPerSession: int
    var threads: int
    var headless: bool
    var articlesSolved: nat
    var totalScoreGained: int

    /** The state after loading config.json. */
    constructor (lastProcessed: int, perSession: int, threadCount: int, runHeadless: bool)
      ensures lastProcessedArticleID == lastProcessed && articlesPerSession == perSession
      ensures threads == threadCount && headless == runHeadless
      ensures articlesSolved == 0 && totalScoreGained == 0
    {
      lastProcessedArticleID := lastProcessed;
      articlesPerSession := perSession;
      threads := threadCount;
      headless := runHeadless;
      articlesSolved := 0;
      totalScoreGained := 0;
    }

    /** The checkpoint moves only forward: it becomes the larger of itself and the ID. */
    method Advance(articleId: int)
      modifies this`lastProcessedArticleID
      ensures lastProcessedArticleID == Max(old(lastProcessedArticleID), articleId)
      ensures old(lastProcessedArticleID) <= lastProcessedArticleID
    {
      if articleId > lastProcessedArticleID {
        lastProcessedArticleID := articleId;
      }
    }

    /** `solve_article`: advance the checkpoint, then, for a valid article,
        answer its questions, submit and count the points. The checkpoint is
        advanced even for an article that turns out invalid or raises. */
    method SolveArticle(articleId: int, page: Page, draws: seq<Draw>) returns (outcome: Outcome)
      requires AllFit(Symbols, page.questions, draws)
      modifies this
      ensures outcome == ArticleOutcome(page, draws)
      ensures lastProcessedArticleID == Max(old(lastProcessedArticleID), articleId)
      ensures articlesSolved == old(articlesSolved) + (if outcome.Solved? then 1 else 0)
      ensures totalScoreGained == old(totalScoreGained) + Gain(outcome)
      ensures articlesPerSession == old(articlesPerSession) && threads == old(threads) && headless == old(headless)
    {
      Advance(articleId);
      if |page.paragraphs| == 0 {
        return Skipped;
      }
      var passage := Clean(Concat(page.paragraphs));
      var answered := AnswerQuestions(Symbols, passage, page.questions, draws);
      if answered.Failure? {
        return Suppressed(answered.error);
      }
      if page.scoreText.None? {
        return Suppressed(NoScoreElement);
      }
      var score := Score(page.scoreText.value);
      if score.None? {
        return Suppressed(ScoreNotInteger);
      }
      outcome := Solved(answered.value, score.value);
      articlesSolved := articlesSolved + 1;
      totalScoreGained := totalScoreGained + score.value;
    }

    /** `main`: solve every ID from the checkpoint's successor on, as many as
        `articlesPerSession`, with `pages[k]` the page of the `k`-th ID. */
    method Run(pages: seq<Page>, draws: seq<seq<Draw>>) returns (ids: seq<int>, outcomes: seq<Outcome>)
      requires |pages| == Count(articlesPerSession) && PagesFit(Symbols, pages, draws)
      modifies this
      ensures ids == IdRange(old(lastProcessedArticleID) + 1, old(articlesPerSession))
      ensures outcomes == Outcomes(pages, draws)
      ensures lastProcessedArticleID == MaxAll(old(lastProcessedArticleID), ids)
      ensures articlesSolved == old(articlesSolved) + SolvedCount(outcomes)
      ensures totalScoreGained == old(totalScoreGained) + ScoreSum(outcomes)
      ensures articlesPerSession == old(articlesPerSession) && threads == old(threads) && headless == old(headless)
    {
      var startId := lastProcessedArticleID + 1;
      var amount := articlesPerSession;
      ghost var expected := Outcomes(pages, draws);
      ids, outcomes := [], [];
      for k := 0 to Count(amount)
        invariant ids == IdRange(startId, k)
        invariant outcomes == expected[..k]
        invariant lastProcessedArticleID == startId - 1 + k
        invariant articlesSolved == old(articlesSolved) + SolvedCount(outcomes)
        invariant totalScoreGained == old(totalScoreGained) + ScoreSum(outcomes)
        invariant articlesPerSession == amount && threads == old(threads) && headless == old(headless)
      {
        var id := startId + k;
        var outcome := SolveArticle(id, pages[k], draws[k]);
        SessionStep(outcomes, outcome);
        assert outcome == expected[k];
        PrefixSnoc(expected, k);
        IdRangeSplit(startId, k, 1);
        ids := ids + [id];
        outcomes := outcomes + [outcome];
      }
      assert expected[..|pages|] == expected;
      SessionCheckpoint(startId - 1, amount);
    }
  }

  // ---------------------------------------------------------------------
  // The worked example of a fill-in-the-blank question
  // ---------------------------------------------------------------------

  /** Every character of `s` is a CJK unified ideograph. */
  predicate Ideographic(s: string)
  {
    forall k :: 0 <= k < |s| ==> '\U{4E00}' <= s[k] <= '\U{9FFF}'
  }

  /** clean never removes a Chinese character. */
  lemma IdeographsKept(s: string)
    requires Ideographic(s)
    ensures Filter(s, Symbols) == s
  {
    assert forall c :: c in Symbols ==> !('\U{4E00}' <= c <= '\U{9FFF}');
    FilterKeepsClean(s, Symbols);
  }

  /** Chinese text holds no line break, no underscore and no
      regular-expression metacharacter. */
  lemma IdeographicPlain(s: string)
    requires Ideographic(s)
    ensures NoRegexMeta(s) && '\n' !in s && '_' !in s
  {
    assert forall c :: c in ".^$*+?{}[]\\|()" ==> c < '\U{4E00}';
    assert forall k :: 0 <= k < |s| ==> s[k] != '\n' && s[k] != '_';
  }

  /** The anchors taken from Chinese text are its last three and first three
      characters, and read literally in a pattern. */
  lemma IdeographicAnchors(before: string, after: string)
    requires Ideographic(before) && Ideographic(after)
    ensures PrefixAnchor(Symbols, before) == TakeLast(before, 3) && NoRegexMeta(TakeLast(before, 3))
    ensures SuffixAnchor(Symbols, after) == TakeFirst(after, 3) && NoRegexMeta(TakeFirst(after, 3))
  {
    IdeographsKept(before);
    IdeographsKept(after);
    var pre, suf := TakeLast(before, 3), TakeFirst(after, 3);
    assert Ideographic(pre) && Ideographic(suf);
    IdeographicPlain(pre);
    IdeographicPlain(suf);
  }

  /** A title of Chinese text around one run of underscores is one line, its
      anchors are the last three characters before the run and the first three
      after it, and neither anchor holds a regular-expression metacharacter. */
  lemma IdeographicTitle(before: string, run: nat, after: string, width: nat)
    requires Ideographic(before) && Ideographic(after) && run > 0
    ensures '_' in before + Underscores(run) + after
    ensures LiteralTitle(Symbols, before + Underscores(run) + after)
    ensures BlankPattern(Symbols, before + Underscores(run) + after, width)
            == Pattern(TakeLast(before, 3), width, TakeFirst(after, 3))
  {
    var u := Underscores(run);
    IdeographicPlain(before);
    IdeographicPlain(after);
    assert after == [] || after[0] != '_';
    SplitAtBlankUnique(before, run, after);
    IdeographicAnchors(before, after);
    assert '\n' !in u;
  }

  /** The passage 今天天气很好 holds 今天, a two-character window 天气, then 很好. */
  lemma WeatherMatch(passage: string, p: Pattern)
    requires passage == "今天天气很好" && p == Pattern("今天", 2, "很好")
    ensures MatchAt(passage, 0, p)
    ensures Strip(Captured(passage, 0, p)) == "天气"
  {
    assert passage[0..2] == "今天" && passage[4..6] == "很好";
    assert Captured(passage, 0, p) == "天气";
    StripUnpadded("天气");
  }

  /** Passage 今天天气很好, title 今天___很好, four options of two characters with
      天气 first: the window matches at 0 and the first option, A, is clicked. */
  lemma WeatherExample(before: string, after: string, q: Question, d: Draw)
    requires before == "今天" && after == "很好"
    requires q == Question(before + Underscores(3) + after, ["天气", "下雨", "刮风", "晴天"], None)
    requires d.pick == 0 && d.fallback <= 3
    ensures QuestionFits(Symbols, q, d)
    ensures AnswerLetter(Symbols, "今天天气很好", q, d) == Success('A')
  {
    assert Ideographic(before) && Ideographic(after);
    IdeographicTitle(before, 3, after, 2);
    var p := BlankPattern(Symbols, q.title, |q.options[0]|);
    assert p == Pattern("今天", 2, "很好");
    WeatherMatch("今天天气很好", p);
    FillBlankLeftmost(Symbols, "今天天气很好", q.title, q.options, 0, 0);
    assert IndexOf(q.options, "天气") == 0;
  }
}
