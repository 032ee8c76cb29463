/**
 * fast.py: the multi-threaded variant. Its clean removes a smaller set of
 * characters, solve_article returns the points (0 for an invalid article or a
 * missing score element) and lets every other error escape, each worker
 * thread writes the checkpoint `CONFIG['lastSolvedArticleID']` before every
 * article of its range, and main splits the IDs from the checkpoint on into
 * one contiguous block per thread.
 */
module FastMacro {
  import opened Wrappers
  import opened Text
  import opened Normalize
  import opened Resolve
  import opened Ranges
  import MainMacro

  // ---------------------------------------------------------------------
  // clean
  // ---------------------------------------------------------------------

  const Special: seq<char> := ['\n', '\t', ' ']

  /** fast.py's twenty punctuation characters. */
  const Punctuation: seq<char> :=
    ['“', '”', '。', '，', '、', '：', '？', ';', '！', '(', ')', '[', ']', '{', '}',
     '《', '》', '…', '·', '\'']

  const Symbols: seq<char> := Special + Punctuation

  /** The characters main.py's clean removes on top of these: the full-width
      space, slash and parentheses and the em dash. */
  const WideForms: seq<char> := ['\U{3000}', '／', '（', '）', '—']

  /** `clean`: remove each symbol in turn. */
  method Clean(text: string) returns (r: string)
    ensures r == Filter(text, Symbols)
  {
    r := CleanWith(text, Symbols);
  }

  /** The cleaned text holds exactly the characters of the text that are not
      symbols. */
  lemma CleanRemovesOnlySymbols(text: string)
    ensures forall c :: c in Filter(text, Symbols) <==> c in text && c !in Symbols
  {
    FilterMembers(text, Symbols);
  }

  /** `clean(clean(s)) == clean(s)`. */
  lemma CleanIdempotent(text: string)
    ensures Filter(Filter(text, Symbols), Symbols) == Filter(text, Symbols)
  {
    FilterIdempotent(text, Symbols);
  }

  /** main.py's symbols are fast.py's plus the five wide forms. */
  lemma SymbolSets()
    ensures forall c :: c in MainMacro.Symbols <==> c in Symbols || c in WideForms
  {
  }

  /** None of the wide forms is one of fast.py's symbols. */
  lemma WideFormsNotSymbols()
    ensures forall c :: c in WideForms ==> c !in Symbols
  {
  }

  /** Unlike main.py's clean, this one keeps the full-width space, `／`, `（`,
      `）` and `—`. */
  lemma CleanKeepsWideForms(text: string)
    ensures forall c :: c in WideForms ==> (c in Filter(text, Symbols) <==> c in text)
  {
    FilterMembers(text, Symbols);
    WideFormsNotSymbols();
  }

  /** main.py's clean applied after fast.py's is main.py's clean. */
  lemma MainCleanAfterFastClean(text: string)
    ensures Filter(Filter(text, Symbols), MainMacro.Symbols) == Filter(text, MainMacro.Symbols)
  {
    SymbolSets();
    FilterTwice(text, Symbols, MainMacro.Symbols);
    FilterSameMembers(text, Symbols + MainMacro.Symbols, MainMacro.Symbols);
  }

  /** On text without the wide forms the two cleans agree. */
  lemma CleansAgree(text: string)
    requires forall c :: c in WideForms ==> c !in text
    ensures Filter(text, Symbols) == Filter(text, MainMacro.Symbols)
  {
    MainCleanAfterFastClean(text);
    var t := Filter(text, Symbols);
    FilterMembers(text, Symbols);
    SymbolSets();
    assert forall k :: 0 <= k < |t| ==> t[k] !in MainMacro.Symbols;
    FilterKeepsClean(t, MainMacro.Symbols);
  }

  // ---------------------------------------------------------------------
  // solve_article
  // ---------------------------------------------------------------------

  /** What `solve_article` returns for a page, or the fault that escapes it:
      0 for an article without paragraphs, 0 when the submit button or the
      score element is missing, and the parsed score otherwise; a question
      that raises, or a score text that is not an integer, escapes. */
  function ArticleScore(page: Page, draws: seq<Draw>): Result<int, Fault>
    requires AllFit(Symbols, page.questions, draws)
  {
    if |page.paragraphs| == 0 then Success(0)
    else
      match AnswerAll(Symbols, Passage(Symbols, page.paragraphs), page.questions, draws)
      case Failure(f) => Failure(f)
      case Success(_) =>
        match page.scoreText
        case None => Success(0)
        case Some(text) =>
          match Score(text)
          case None => Failure(ScoreNotInteger)
          case Some(score) => Success(score)
  }

  /** An article without paragraphs, or answered in full but without a score
      element, gives 0; one answered in full with a score text gives that
      score or raises; and only a raising question or a score text that is
      not an integer escapes. */
  lemma ArticleScoreCases(page: Page, draws: seq<Draw>)
    requires AllFit(Symbols, page.questions, draws)
    ensures |page.paragraphs| == 0 ==> ArticleScore(page, draws) == Success(0)
    ensures |page.paragraphs| > 0 && AnswerAll(Symbols, Passage(Symbols, page.paragraphs), page.questions, draws).Success? ==>
              ArticleScore(page, draws) == if page.scoreText.None? then Success(0)
                                           else if Score(page.scoreText.value).None? then Failure(ScoreNotInteger)
                                           else Success(Score(page.scoreText.value).value)
    ensures ArticleScore(page, draws).Failure? <==>
              |page.paragraphs| > 0
              && (AnswerAll(Symbols, Passage(Symbols, page.paragraphs), page.questions, draws).Failure?
                  || (page.scoreText.Some? && Score(page.scoreText.value).None?))
  {
  }

  /** `solve_article`. */
  method SolveArticle(page: Page, draws: seq<Draw>) returns (r: Result<int, Fault>)
    requires AllFit(Symbols, page.questions, draws)
    ensures r == ArticleScore(page, draws)
  {
    if |page.paragraphs| == 0 {
      return Success(0);
    }
    var passage := Clean(Concat(page.paragraphs));
    var answered := AnswerQuestions(Symbols, passage, page.questions, draws);
    if answered.Failure? {
      return Failure(answered.error);
    }
    if page.scoreText.None? {
      return Success(0);
    }
    var score := Score(page.scoreText.value);
    if score.None? {
      return Failure(ScoreNotInteger);
    }
    return Success(score.value);
  }

  /** main.py's outcome seen through fast.py's return value: a skipped article
      and a missing score element give 0, a solved one its points, and every
      other suppressed fault escapes instead. */
  function AsReturned(o: MainMacro.Outcome): Result<int, Fault>
  {
    match o
    case Skipped => Success(0)
    case Solved(_, score) => Success(score)
    case Suppressed(f) => if f == NoScoreElement then Success(0) else Failure(f)
  }

  /** Every line of the page, the paragraphs and the question titles, is free
      of the wide forms. */
  predicate NoWideForms(page: Page)
  {
    (forall c :: c in WideForms ==> c !in Concat(page.paragraphs))
    && forall i :: 0 <= i < |page.questions| ==>
         forall c :: c in WideForms ==> c !in page.questions[i].title
  }

  /** With no wide forms on the page, both variants click the same letters,
      or stop at the same fault. */
  lemma AnswersAgree(page: Page, draws: seq<Draw>)
    requires AllFit(Symbols, page.questions, draws) && NoWideForms(page)
    ensures AllFit(MainMacro.Symbols, page.questions, draws)
    ensures AnswerAll(Symbols, Passage(Symbols, page.paragraphs), page.questions, draws)
            == AnswerAll(MainMacro.Symbols, Passage(MainMacro.Symbols, page.paragraphs), page.questions, draws)
  {
    var qs, passage := page.questions, Passage(Symbols, page.paragraphs);
    forall i | 0 <= i < |qs|
      ensures QuestionFits(MainMacro.Symbols, qs[i], draws[i])
      ensures AnswerLetter(Symbols, passage, qs[i], draws[i]) == AnswerLetter(MainMacro.Symbols, passage, qs[i], draws[i])
    {
      TitlesAgree(qs[i], draws[i], passage);
    }
    CleansAgree(Concat(page.paragraphs));
    assert Letters(Symbols, passage, qs, draws) == Letters(MainMacro.Symbols, passage, qs, draws);
  }

  /** With no wide forms on the page, fast.py returns what main.py records. */
  lemma ScoreAgreesWithMain(page: Page, draws: seq<Draw>)
    requires AllFit(Symbols, page.questions, draws) && NoWideForms(page)
    ensures AllFit(MainMacro.Symbols, page.questions, draws)
    ensures ArticleScore(page, draws) == AsReturned(MainMacro.ArticleOutcome(page, draws))
  {
    AnswersAgree(page, draws);
    if |page.paragraphs| > 0 {
      var passage := Passage(Symbols, page.paragraphs);
      AnswerAllLetters(Symbols, passage, page.questions, draws);
      var answered := AnswerAll(Symbols, passage, page.questions, draws);
      assert MainMacro.ArticleOutcome(page, draws) == match answered
        case Failure(f) => MainMacro.Suppressed(f)
        case Success(letters) =>
          match page.scoreText
          case None => MainMacro.Suppressed(NoScoreElement)
          case Some(text) =>
            match Score(text)
            case None => MainMacro.Suppressed(ScoreNotInteger)
            case Some(score) => MainMacro.Solved(letters, score);
    }
  }

  /** Text around a blank without the wide forms gives the same anchors under
      either clean. */
  lemma AnchorsAgree(before: string, after: string)
    requires forall c :: c in WideForms ==> c !in before && c !in after
    ensures PrefixAnchor(Symbols, before) == PrefixAnchor(MainMacro.Symbols, before)
    ensures SuffixAnchor(Symbols, after) == SuffixAnchor(MainMacro.Symbols, after)
  {
    CleansAgree(before);
    CleansAgree(after);
  }

  /** A title without the wide forms gives the same pattern, hence the same
      letter, under either clean. */
  lemma TitlesAgree(q: Question, d: Draw, passage: string)
    requires QuestionFits(Symbols, q, d)
    requires forall c :: c in WideForms ==> c !in q.title
    ensures QuestionFits(MainMacro.Symbols, q, d)
    ensures AnswerLetter(Symbols, passage, q, d) == AnswerLetter(MainMacro.Symbols, passage, q, d)
  {
    if '_' in q.title {
      BlankChoicesAgree(q, d, passage);
    } else {
      assert ChosenIndex(Symbols, passage, q, d) == ChosenIndex(MainMacro.Symbols, passage, q, d);
    }
  }

  /** A fill-in-the-blank question without the wide forms picks the same
      option under either clean. */
  lemma BlankChoicesAgree(q: Question, d: Draw, passage: string)
    requires QuestionFits(Symbols, q, d) && '_' in q.title
    requires forall c :: c in WideForms ==> c !in q.title
    ensures QuestionFits(MainMacro.Symbols, q, d)
    ensures ChosenIndex(Symbols, passage, q, d) == ChosenIndex(MainMacro.Symbols, passage, q, d)
  {
    BlanksAgree(q.title);
    if |q.options| > 0 {
      assert FillBlankAnswer(Symbols, passage, q.title, q.options, d.pick)
             == FillBlankAnswer(MainMacro.Symbols, passage, q.title, q.options, d.pick);
    }
  }

  /** A title with a blank and without the wide forms is literal, and gives
      the same pattern, under either clean. */
  lemma BlanksAgree(title: string)
    requires '_' in title
    requires forall c :: c in WideForms ==> c !in title
    ensures LiteralTitle(Symbols, title) == LiteralTitle(MainMacro.Symbols, title)
    ensures forall width: nat :: BlankPattern(Symbols, title, width) == BlankPattern(MainMacro.Symbols, title, width)
  {
    var b := SplitAtBlank(title);
    assert forall c :: c in b.before || c in b.after ==> c in title;
    AnchorsAgree(b.before, b.after);
  }

  // ---------------------------------------------------------------------
  // CONFIG, start_thread and the partition in main
  // ---------------------------------------------------------------------

  /** What each page of a thread's range gives, in order. */
  function Scores(pages: seq<Page>, draws: seq<seq<Draw>>): (rs: seq<Result<int, Fault>>)
    requires PagesFit(Symbols, pages, draws)
    ensures |rs| == |pages|
    ensures forall k :: 0 <= k < |pages| ==> rs[k] == ArticleScore(pages[k], draws[k])
  {
    seq(|pages|, k requires 0 <= k < |pages| => ArticleScore(pages[k], draws[k]))
  }

  /** The first ID of thread `i` (counted from 1): the checkpoint itself for
      the first thread, then one block of `perThread` IDs further per thread. */
  function ThreadStart(last: int, perThread: int, i: int): int
  {
    last + (i - 1) * perThread
  }

  /** The arguments main passes to `start_thread` for one thread. */
  datatype Task = Task(threadId: int, startId: int, count: int)

  /** The tasks for threads `1 .. threads`. */
  function Tasks(last: int, perThread: int, threads: int): (ts: seq<Task>)
    ensures |ts| == Count(threads)
    ensures forall k :: 0 <= k < |ts| ==> ts[k] == Task(k + 1, ThreadStart(last, perThread, k + 1), perThread)
  {
    seq(Count(threads), k requires 0 <= k < Count(threads) => Task(k + 1, ThreadStart(last, perThread, k + 1), perThread))
  }

  /** The IDs threads `1 .. threads` visit, thread after thread. */
  function ThreadIds(last: int, perThread: int, threads: int): seq<int>
    decreases Count(threads)
  {
    if threads <= 0 then []
    else ThreadIds(last, perThread, threads - 1) + IdRange(ThreadStart(last, perThread, threads), perThread)
  }

  /** The IDs a list of tasks visits, task after task. */
  function TaskIds(ts: seq<Task>): seq<int>
    decreases |ts|
  {
    if ts == [] then []
    else TaskIds(ts[..|ts| - 1]) + IdRange(ts[|ts| - 1].startId, ts[|ts| - 1].count)
  }

  /** The tasks main plans visit the IDs of the threads' ranges. */
  lemma {:induction false} TasksVisitThreadIds(last: int, perThread: int, threads: int)
    ensures TaskIds(Tasks(last, perThread, threads)) == ThreadIds(last, perThread, threads)
    decreases Count(threads)
  {
    if threads > 0 {
      var ts := Tasks(last, perThread, threads);
      assert ts[..|ts| - 1] == Tasks(last, perThread, threads - 1);
      TasksVisitThreadIds(last, perThread, threads - 1);
    }
  }

  lemma MulMonotone(a: int, b: int, n: int)
    requires a <= b && n >= 0
    ensures a * n <= b * n
  {
  }

  /** Side by side, the threads' ranges are exactly the IDs `last ..
      last + threads * perThread - 1`, in order and each once: the ranges are
      pairwise disjoint and leave no gap, and the first ID is the checkpoint
      itself rather than the one after it. */
  lemma {:induction false} PartitionCovers(last: int, perThread: int, threads: int)
    ensures ThreadIds(last, perThread, threads) == IdRange(last, Count(threads) * perThread)
    decreases Count(threads)
  {
    if threads > 0 {
      PartitionCovers(last, perThread, threads - 1);
      var t := threads - 1;
      if perThread >= 0 {
        MulMonotone(0, t, perThread);
        assert t * perThread + perThread == threads * perThread;
        IdRangeSplit(last, t * perThread, perThread);
      } else {
        MulMonotone(0, t, -perThread);
        assert Count(t * perThread) == 0 && Count(threads * perThread) == 0;
      }
    }
  }

  /** No ID belongs to two threads. */
  lemma PartitionDisjoint(last: int, perThread: int, i: int, j: int, x: int)
    requires 1 <= i < j
    requires x in IdRange(ThreadStart(last, perThread, i), perThread)
    ensures x !in IdRange(ThreadStart(last, perThread, j), perThread)
  {
    IdRangeMembers(ThreadStart(last, perThread, i), perThread);
    IdRangeMembers(ThreadStart(last, perThread, j), perThread);
    MulMonotone(i, j - 1, perThread);
  }

  /** Three threads of two articles from checkpoint 100 visit exactly the IDs
      100 to 105, each once. */
  lemma PartitionExample()
    ensures |ThreadIds(100, 2, 3)| == 6
    ensures forall x :: x in ThreadIds(100, 2, 3) <==> 100 <= x <= 105
  {
    PartitionCovers(100, 2, 3);
    IdRangeMembers(100, 6);
  }

  class Macro {
    var lastSolvedArticleID: int
    var articlesPerThread: int
    var threads: int
    var headless: bool

    /** The state after loading config.json. */
    constructor (lastSolved: int, perThread: int, threadCount: int, runHeadless: bool)
      ensures lastSolvedArticleID == lastSolved && articlesPerThread == perThread
      ensures threads == threadCount && headless == runHeadless
    {
      lastSolvedArticleID := lastSolved;
      articlesPerThread := perThread;
      threads := threadCount;
      headless := runHeadless;
    }

    /** main's loop over `range(1, threads + 1)` building each thread's
        arguments from the checkpoint. */
    method Plan() returns (tasks: seq<Task>)
      ensures tasks == Tasks(lastSolvedArticleID, articlesPerThread, threads)
      ensures TaskIds(tasks) == IdRange(lastSolvedArticleID, Count(threads) * articlesPerThread)
    {
      tasks := [];
      var i := 1;
      while i <= threads
        invariant 1 <= i && i - 1 <= Count(threads)
        invariant tasks == Tasks(lastSolvedArticleID, articlesPerThread, i - 1)
      {
        tasks := tasks + [Task(i, ThreadStart(lastSolvedArticleID, articlesPerThread, i), articlesPerThread)];
        i := i + 1;
      }
      TasksVisitThreadIds(lastSolvedArticleID, articlesPerThread, threads);
      PartitionCovers(lastSolvedArticleID, articlesPerThread, threads);
    }

    /** `start_thread`, run on its own: for each ID of its range, write the
        checkpoint, then solve the article; an article that raises is skipped
        and the next one is still attempted. The thread ID is only a label. */
    method StartThread(threadId: int, startId: int, numberOfArticles: int, pages: seq<Page>, draws: seq<seq<Draw>>)
      returns (ids: seq<int>, results: seq<Result<int, Fault>>)
      requires |pages| == Count(numberOfArticles) && PagesFit(Symbols, pages, draws)
      modifies this`lastSolvedArticleID
      ensures ids == IdRange(startId, numberOfArticles)
      ensures results == Scores(pages, draws)
      ensures lastSolvedArticleID == if numberOfArticles > 0 then startId + numberOfArticles - 1
                                     else old(lastSolvedArticleID)
    {
      ghost var expected := Scores(pages, draws);
      ids, results := [], [];
      for k := 0 to Count(numberOfArticles)
        invariant ids == IdRange(startId, k)
        invariant results == expected[..k]
        invariant lastSolvedArticleID == if k > 0 then startId + k - 1 else old(lastSolvedArticleID)
      {
        var id := startId + k;
        lastSolvedArticleID := id;
        var r := SolveArticle(pages[k], draws[k]);
        assert r == expected[k];
        PrefixSnoc(expected, k);
        IdRangeSplit(startId, k, 1);
        ids := ids + [id];
        results := results + [r];
      }
      assert expected[..|pages|] == expected;
    }
  }
}
