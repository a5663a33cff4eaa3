/** Going through all results of a query page by page. A page is cut from the rows of the query,
    where a model comes once for each joined row, and a find makes one model of a run of rows. */
module Paging {
  import opened Runs

  datatype Outcome = AllVisited | CallbackFailed | FindFailed

  /** A query's rows from an offset on, at most `size` of them. */
  function Page<T>(rows: seq<T>, offset: nat, size: nat): seq<T> {
    if offset >= |rows| then []
    else if offset + size <= |rows| then rows[offset..offset + size]
    else rows[offset..]
  }

  /** What a find makes of a page of rows. */
  function Models<T(==)>(): seq<T> -> seq<T> {
    (page: seq<T>) => Collapsed(page)
  }

  /** The models of all finds until one finds fewer than a page. */
  function AnswersBy<T>(models: seq<T> -> seq<T>, rows: seq<T>, size: nat): seq<T>
    requires size > 0
    decreases |rows|
  {
    var list := models(Page(rows, 0, size));
    if |list| < size || |rows| < size then list else list + AnswersBy(models, rows[size..], size)
  }

  /** The page that is the last to be found. */
  function LastBy<T>(models: seq<T> -> seq<T>, rows: seq<T>, size: nat): nat
    requires size > 0
    decreases |rows|
  {
    if |models(Page(rows, 0, size))| < size || |rows| < size then 0 else 1 + LastBy(models, rows[size..], size)
  }

  function Answers<T(==)>(rows: seq<T>, size: nat): seq<T>
    requires size > 0
  {
    AnswersBy(Models(), rows, size)
  }

  function LastPage<T(==)>(rows: seq<T>, size: nat): nat
    requires size > 0
  {
    LastBy(Models(), rows, size)
  }

  lemma {:induction false} AnswersStep<T>(rows: seq<T>, size: nat)
    requires size > 0
    ensures
      var list := Collapsed(Page(rows, 0, size));
      if |list| < size then Answers(rows, size) == list && LastPage(rows, size) == 0
      else |rows| >= size && Answers(rows, size) == list + Answers(rows[size..], size) &&
           LastPage(rows, size) == 1 + LastPage(rows[size..], size)
  {
  }

  /** The offset of a page: as many sizes as there are pages before. */
  function Start(page: nat, size: nat): nat {
    if page == 0 then 0 else Start(page - 1, size) + size
  }

  // ----- The loop

  ghost predicate NoneFails(fails: nat -> bool, n: nat) {
    forall k :: 0 <= k < n ==> !fails(k)
  }

  ghost predicate AllAccepted<T>(accepts: T -> bool, visited: seq<T>) {
    forall r :: r in visited ==> accepts(r)
  }

  ghost predicate LastRefused<T>(accepts: T -> bool, visited: seq<T>) {
    visited != [] && !accepts(visited[|visited| - 1]) && forall i :: 0 <= i < |visited| - 1 ==> accepts(visited[i])
  }

  lemma NoneFailsNext(fails: nat -> bool, n: nat)
    requires NoneFails(fails, n) && !fails(n)
    ensures NoneFails(fails, n + 1)
  {
  }

  /** The models of the first pages that are found. */
  function Visits<T>(find: nat -> seq<T>, size: nat, pages: nat): seq<T> {
    if pages == 0 then [] else Visits(find, size, pages - 1) + find(Start(pages - 1, size))
  }

  ghost predicate FullBefore<T>(find: nat -> seq<T>, size: nat, pages: nat) {
    forall k: nat :: k < pages ==> |find(Start(k, size))| >= size
  }

  /** Visits what is found at one offset after the other, until a find answers with fewer models than
      a page. `finds` are the queries made; the k-th fails if `fails(k)`. A model that the callback
      refuses is the last one visited. */
  method FindAll<T>(find: nat -> seq<T>, pageSize: nat, fails: nat -> bool, accepts: T -> bool, ghost stop: nat)
    returns (outcome: Outcome, visited: seq<T>, finds: nat)
    requires fails(stop) || |find(Start(stop, pageSize))| < pageSize
    ensures finds > 0 && NoneFails(fails, finds - 1) && FullBefore(find, pageSize, finds - 1)
    ensures visited <= Visits(find, pageSize, finds)
    ensures outcome == FindFailed <==> fails(finds - 1)
    ensures outcome == FindFailed ==> visited == Visits(find, pageSize, finds - 1) && AllAccepted(accepts, visited)
    ensures outcome == AllVisited ==>
      && visited == Visits(find, pageSize, finds) && |find(Start(finds - 1, pageSize))| < pageSize
      && AllAccepted(accepts, visited)
    ensures outcome == CallbackFailed ==> LastRefused(accepts, visited)
  {
    visited, finds := [], 0;
    var offset := 0;
    while true
      invariant visited == Visits(find, pageSize, finds) && offset == Start(finds, pageSize) && finds <= stop
      invariant FullBefore(find, pageSize, finds) && NoneFails(fails, finds) && AllAccepted(accepts, visited)
      decreases stop - finds
    {
      finds := finds + 1;
      if fails(finds - 1) {
        return FindFailed, visited, finds;
      }
      NoneFailsNext(fails, finds - 1);
      var list := find(offset);
      var accepted;
      accepted, visited := Visit(visited, list, accepts);
      if !accepted {
        return CallbackFailed, visited, finds;
      }
      if |list| < pageSize {
        return AllVisited, visited, finds;
      }
      offset := offset + pageSize;
    }
  }

  /** The callbacks of one page; the first refusal is the last. */
  method Visit<T>(earlier: seq<T>, list: seq<T>, accepts: T -> bool) returns (ok: bool, visited: seq<T>)
    requires AllAccepted(accepts, earlier)
    ensures visited <= earlier + list && (list == [] ==> ok)
    ensures ok ==> visited == earlier + list && AllAccepted(accepts, visited)
    ensures !ok ==>
      LastRefused(accepts, visited)
  {
    visited := earlier;
    for i := 0 to |list|
      invariant visited == earlier + list[..i] && AllAccepted(accepts, visited)
    {
      visited := visited + [list[i]];
      assert visited == earlier + list[..i + 1] <= earlier + list;
      if !accepts(list[i]) {
        return false, visited;
      }
    }
    ok := true;
  }

  // ----- Pages of a query's rows

  /** A find from an offset answers with the models of a page of rows. */
  function FindIn<T>(models: seq<T> -> seq<T>, rows: seq<T>, size: nat): nat -> seq<T> {
    (offset: nat) => models(Page(rows, offset, size))
  }

  ghost predicate Finds<T>(find: nat -> seq<T>, models: seq<T> -> seq<T>, rows: seq<T>, size: nat) {
    forall offset: nat :: find(offset) == models(Page(rows, offset, size))
  }

  /** A page has no more models than rows. */
  ghost predicate Shrinks<T>(models: seq<T> -> seq<T>, rows: seq<T>, size: nat) {
    forall offset: nat :: |models(Page(rows, offset, size))| <= |Page(rows, offset, size)|
  }

  /** The finds go on with the rows from the offset on. */
  ghost predicate GoesOn<T>(models: seq<T> -> seq<T>, rows: seq<T>, size: nat, page: nat, offset: nat, visited: seq<T>)
    requires size > 0 && offset <= |rows|
  {
    && AnswersBy(models, rows, size) == visited + AnswersBy(models, rows[offset..], size)
    && LastBy(models, rows, size) == page + LastBy(models, rows[offset..], size)
  }

  lemma NextPage<T>(models: seq<T> -> seq<T>, rows: seq<T>, size: nat, page: nat, offset: nat, visited: seq<T>,
                    list: seq<T>)
    requires size > 0 && offset <= |rows| && Shrinks(models, rows, size) &&
      GoesOn(models, rows, size, page, offset, visited)
    requires list == models(Page(rows, offset, size))
    ensures page <= LastBy(models, rows, size) && |list| <= size
    ensures |list| < size ==> visited + list == AnswersBy(models, rows, size) && page == LastBy(models, rows, size)
    ensures |list| == size ==>
      offset + size <= |rows| && GoesOn(models, rows, size, page + 1, offset + size, visited + list)
  {
    var rest := rows[offset..];
    assert Page(rest, 0, size) == Page(rows, offset, size);
    if |list| == size {
      assert rest[size..] == rows[offset + size..];
      Regrouped(visited, list, AnswersBy(models, rest[size..], size));
    }
  }

  lemma Regrouped<T>(a: seq<T>, b: seq<T>, c: seq<T>)
    ensures a + (b + c) == (a + b) + c
  {
  }

  lemma FirstGoesOn<T>(models: seq<T> -> seq<T>, rows: seq<T>, size: nat)
    requires size > 0
    ensures GoesOn(models, rows, size, 0, 0, [])
  {
    assert rows[0..] == rows;
  }

  lemma {:induction false} FullGoesOn<T>(models: seq<T> -> seq<T>, rows: seq<T>, size: nat, find: nat -> seq<T>,
                                         page: nat)
    requires size > 0 && Shrinks(models, rows, size) && Finds(find, models, rows, size) && FullBefore(find, size, page)
    ensures Start(page, size) <= |rows| && |Visits(find, size, page)| == Start(page, size)
    ensures GoesOn(models, rows, size, page, Start(page, size), Visits(find, size, page))
  {
    if page == 0 {
      FirstGoesOn(models, rows, size);
    } else {
      var offset, visited := Start(page - 1, size), Visits(find, size, page - 1);
      FullGoesOn(models, rows, size, find, page - 1);
      var list := find(offset);
      assert |list| >= size;
      NextPage(models, rows, size, page - 1, offset, visited, list);
      assert Start(page, size) == offset + size && Visits(find, size, page) == visited + list;
    }
  }

  /** Pages that were all full before one that is not: they answered everything, and it is the last. */
  lemma {:induction false} ShortIsLast<T>(models: seq<T> -> seq<T>, rows: seq<T>, size: nat, find: nat -> seq<T>,
                                          page: nat)
    requires size > 0 && Shrinks(models, rows, size) && Finds(find, models, rows, size) && FullBefore(find, size, page)
    ensures page <= LastBy(models, rows, size) && |Visits(find, size, page)| == Start(page, size)
    ensures |find(Start(page, size))| < size ==>
      Visits(find, size, page + 1) == AnswersBy(models, rows, size) && page == LastBy(models, rows, size)
    ensures |find(Start(page, size))| >= size ==> FullBefore(find, size, page + 1)
  {
    FullGoesOn(models, rows, size, find, page);
    NextPage(models, rows, size, page, Start(page, size), Visits(find, size, page), find(Start(page, size)));
  }

  /** The last page is short, and those before it are full. */
  lemma {:induction false} FullUpTo<T>(models: seq<T> -> seq<T>, rows: seq<T>, size: nat, find: nat -> seq<T>,
                                       page: nat)
    requires size > 0 && Shrinks(models, rows, size) && Finds(find, models, rows, size) &&
      page <= LastBy(models, rows, size)
    ensures FullBefore(find, size, page)
    ensures page == LastBy(models, rows, size) ==> |find(Start(page, size))| < size
  {
    if page > 0 {
      FullUpTo(models, rows, size, find, page - 1);
      ShortIsLast(models, rows, size, find, page - 1);
    }
    ShortIsLast(models, rows, size, find, page);
    if page == LastBy(models, rows, size) && |find(Start(page, size))| >= size {
      ShortIsLast(models, rows, size, find, page + 1);
    }
  }

  lemma {:induction false} VisitsGrow<T>(find: nat -> seq<T>, size: nat, pages: nat, more: nat)
    requires pages <= more
    ensures Visits(find, size, pages) <= Visits(find, size, more)
    decreases more
  {
    if pages < more {
      VisitsGrow(find, size, pages, more - 1);
      PrefixOf(Visits(find, size, pages), Visits(find, size, more - 1), Visits(find, size, more));
    }
  }

  lemma PrefixOf<T>(a: seq<T>, b: seq<T>, c: seq<T>)
    requires a <= b <= c
    ensures a <= c
  {
  }

  /** Over the pages of a query's rows: without a failure all answers are visited, in order. Pages of
      no rows are queried until a query fails: with none to fail, for ever. */
  method FindAllRows<T(==)>(rows: seq<T>, pageSize: nat, fails: nat -> bool, accepts: T -> bool, ghost stop: nat)
    returns (outcome: Outcome, visited: seq<T>, finds: nat)
    requires pageSize > 0 || fails(stop)
    ensures finds > 0 && NoneFails(fails, finds - 1)
    ensures pageSize > 0 ==> visited <= Answers(rows, pageSize) && finds <= LastPage(rows, pageSize) + 1
    ensures outcome == FindFailed <==> fails(finds - 1)
    ensures outcome == FindFailed ==> AllAccepted(accepts, visited)
    ensures outcome == FindFailed && pageSize > 0 ==> |visited| == Start(finds - 1, pageSize)
    ensures outcome == AllVisited ==>
      && pageSize > 0 && visited == Answers(rows, pageSize) && finds == LastPage(rows, pageSize) + 1
      && AllAccepted(accepts, visited)
    ensures outcome == CallbackFailed ==> LastRefused(accepts, visited)
  {
    ModelsShrink(rows, pageSize);
    outcome, visited, finds := FindAllPages(Models(), rows, pageSize, fails, accepts, stop);
  }

  lemma ModelsShrink<T>(rows: seq<T>, size: nat)
    ensures Shrinks(Models(), rows, size)
  {
  }

  method FindAllPages<T>(models: seq<T> -> seq<T>, rows: seq<T>, pageSize: nat, fails: nat -> bool, accepts: T -> bool,
                         ghost stop: nat)
    returns (outcome: Outcome, visited: seq<T>, finds: nat)
    requires Shrinks(models, rows, pageSize) && (pageSize > 0 || fails(stop))
    ensures finds > 0 && NoneFails(fails, finds - 1)
    ensures pageSize > 0 ==>
      visited <= AnswersBy(models, rows, pageSize) && finds <= LastBy(models, rows, pageSize) + 1
    ensures outcome == FindFailed <==> fails(finds - 1)
    ensures outcome == FindFailed ==> AllAccepted(accepts, visited)
    ensures outcome == FindFailed && pageSize > 0 ==> |visited| == Start(finds - 1, pageSize)
    ensures outcome == AllVisited ==>
      && pageSize > 0 && visited == AnswersBy(models, rows, pageSize) && finds == LastBy(models, rows, pageSize) + 1
      && AllAccepted(accepts, visited)
    ensures outcome == CallbackFailed ==> LastRefused(accepts, visited)
  {
    var find := FindIn(models, rows, pageSize);
    ghost var last := stop;
    if pageSize > 0 {
      last := LastBy(models, rows, pageSize);
      FullUpTo(models, rows, pageSize, find, last);
    }
    outcome, visited, finds := FindAll(find, pageSize, fails, accepts, last);
    if pageSize > 0 {
      SearchAnswers(models, rows, pageSize, find, finds, visited);
    }
  }

  lemma AllPagesAnswer<T>(models: seq<T> -> seq<T>, rows: seq<T>, size: nat, find: nat -> seq<T>)
    requires size > 0 && Shrinks(models, rows, size) && Finds(find, models, rows, size)
    ensures Visits(find, size, LastBy(models, rows, size) + 1) == AnswersBy(models, rows, size)
  {
    FullUpTo(models, rows, size, find, LastBy(models, rows, size));
    ShortIsLast(models, rows, size, find, LastBy(models, rows, size));
  }

  /** What a search over full pages and one more has visited. */
  lemma SearchAnswers<T>(models: seq<T> -> seq<T>, rows: seq<T>, size: nat, find: nat -> seq<T>, finds: nat,
                         visited: seq<T>)
    requires size > 0 && Shrinks(models, rows, size) && Finds(find, models, rows, size)
    requires finds > 0 && FullBefore(find, size, finds - 1) && visited <= Visits(find, size, finds)
    ensures visited <= AnswersBy(models, rows, size) && finds <= LastBy(models, rows, size) + 1
    ensures |Visits(find, size, finds - 1)| == Start(finds - 1, size)
    ensures |find(Start(finds - 1, size))| < size ==>
      Visits(find, size, finds) == AnswersBy(models, rows, size) && finds == LastBy(models, rows, size) + 1
  {
    ShortIsLast(models, rows, size, find, finds - 1);
    AllPagesAnswer(models, rows, size, find);
    var pages := LastBy(models, rows, size) + 1;
    VisitsGrow(find, size, finds, pages);
    PrefixOf(visited, Visits(find, size, finds), Visits(find, size, pages));
  }

  // ----- What is visited

  /** No model has rows on both sides of a page boundary up to the last page found, and all rows
      after that page are of its last model. */
  ghost predicate PagesFit<T>(rows: seq<T>, size: nat)
    requires size > 0
  {
    FitUpTo(rows, size, LastPage(rows, size))
  }

  ghost predicate FitUpTo<T>(rows: seq<T>, size: nat, last: nat)
    requires size > 0
  {
    && (forall k: nat :: 1 <= k <= last ==> !Straddles(rows, Start(k, size)))
    && forall i :: Start(last + 1, size) <= i < |rows| ==> rows[i] == rows[Start(last + 1, size) - 1]
  }

  ghost predicate Straddles<T>(rows: seq<T>, offset: nat) {
    0 < offset < |rows| && rows[offset - 1] == rows[offset]
  }

  lemma PagesFitNext<T>(rows: seq<T>, size: nat)
    requires size > 0 && |Collapsed(Page(rows, 0, size))| == size
    ensures |rows| >= size && (PagesFit(rows, size) <==> !Straddles(rows, size) && PagesFit(rows[size..], size))
  {
    AnswersStep(rows, size);
    FitUpToNext(rows, size, LastPage(rows[size..], size));
  }

  lemma FitUpToNext<T>(rows: seq<T>, size: nat, last: nat)
    requires size > 0 && |rows| >= size
    ensures FitUpTo(rows, size, last + 1) <==> !Straddles(rows, size) && FitUpTo(rows[size..], size, last)
  {
    var rest := rows[size..];
    assert Start(1, size) == size;
    if FitUpTo(rows, size, last + 1) {
      forall k: nat | 1 <= k <= last
        ensures !Straddles(rest, Start(k, size))
      {
        assert !Straddles(rows, Start(k + 1, size));
      }
      forall i | Start(last + 1, size) <= i < |rest|
        ensures rest[i] == rest[Start(last + 1, size) - 1]
      {
        assert rest[i] == rows[i + size];
      }
    }
    if !Straddles(rows, size) && FitUpTo(rest, size, last) {
      forall k: nat | 1 <= k <= last + 1
        ensures !Straddles(rows, Start(k, size))
      {
        if k > 1 {
          assert !Straddles(rest, Start(k - 1, size));
        }
      }
      forall i | Start(last + 2, size) <= i < |rows|
        ensures rows[i] == rows[Start(last + 2, size) - 1]
      {
        assert rows[i] == rest[i - size];
      }
    }
  }

  /** The pages visit what one find of all rows would, if and only if they fit. */
  lemma {:induction false} VisitedExactlyWhen<T>(rows: seq<T>, size: nat)
    requires size > 0
    ensures Answers(rows, size) == Collapsed(rows) <==> PagesFit(rows, size)
    ensures rows != [] ==> Answers(rows, size) != [] && Answers(rows, size)[0] == rows[0]
    decreases |rows|
  {
    var page := Page(rows, 0, size);
    if |Collapsed(page)| < size {
      LastOfAll(rows, size);
    } else {
      var rest := rows[size..];
      assert rows == page + rest;
      CollapsedIsAll(page);
      VisitedExactlyWhen(rest, size);
      PagesFitNext(rows, size);
      if rest == [] {
        assert page == rows && PagesFit(rest, size);
      } else {
        CollapsedConcat(page, rest);
        if Straddles(rows, size) {
          StraddlingRepeats(rows, page, Answers(rest, size));
        } else {
          SamePrefix(page, Answers(rest, size), Collapsed(rest));
        }
      }
    }
  }

  lemma SamePrefix<T>(a: seq<T>, b: seq<T>, c: seq<T>)
    ensures a + b == a + c <==> b == c
  {
    assert (a + b)[|a|..] == b && (a + c)[|a|..] == c;
  }

  lemma StraddlingRepeats<T>(rows: seq<T>, page: seq<T>, answers: seq<T>)
    requires page != [] && answers != [] && page[|page| - 1] == answers[0]
    ensures page + answers != Collapsed(rows) && !NoRepeat(page + answers)
  {
    CollapsedNoRepeat(rows);
    var all := page + answers;
    assert all[|page| - 1] == all[|page|];
  }

  lemma LastOfAll<T>(rows: seq<T>, size: nat)
    requires size > 0 && |Collapsed(Page(rows, 0, size))| < size
    ensures Answers(rows, size) == Collapsed(rows) <==> PagesFit(rows, size)
  {
    var page := Page(rows, 0, size);
    var rest := rows[|page|..];
    assert rows == page + rest;
    AnswersStep(rows, size);
    FitUpToFirst(rows, size, page, rest);
    if rest == [] {
      assert page == rows;
    } else {
      CollapsedSame(page, rest);
    }
  }

  /** After the first page all rows are of its last model. */
  lemma FitUpToFirst<T>(rows: seq<T>, size: nat, page: seq<T>, rest: seq<T>)
    requires size > 0 && page == Page(rows, 0, size) && rows == page + rest
    ensures rest == [] ==> FitUpTo(rows, size, 0)
    ensures rest != [] ==>
      |page| == size && (FitUpTo(rows, size, 0) <==> forall i :: 0 <= i < |rest| ==> rest[i] == page[size - 1])
  {
    assert Start(1, size) == size;
    assert forall i :: 0 <= i < |rest| ==> rest[i] == rows[|page| + i];
    assert forall i :: |page| <= i < |rows| ==> rows[i] == rest[i - |page|];
  }

  /** Rows without a repeat, as where conditions and sorts go through no to-many relation, always
      fit: every model is visited once, in order, with one find more than there are full pages. */
  lemma NoRepeatFits<T>(rows: seq<T>, size: nat)
    requires size > 0 && NoRepeat(rows)
    ensures PagesFit(rows, size) && Answers(rows, size) == rows
    ensures Start(LastPage(rows, size), size) <= |rows| < Start(LastPage(rows, size) + 1, size)
  {
    NoRepeatAnswers(rows, size);
    CollapsedIsAll(rows);
    VisitedExactlyWhen(rows, size);
  }

  lemma {:induction false} NoRepeatAnswers<T>(rows: seq<T>, size: nat)
    requires size > 0 && NoRepeat(rows)
    ensures Answers(rows, size) == rows
    ensures Start(LastPage(rows, size), size) <= |rows| < Start(LastPage(rows, size) + 1, size)
    decreases |rows|
  {
    var page := Page(rows, 0, size);
    var rest := rows[|page|..];
    assert rows == page + rest;
    NoRepeatSplit(page, rest);
    CollapsedIsAll(page);
    if |page| == size {
      NoRepeatAnswers(rest, size);
    } else {
      assert page == rows;
    }
  }

  // ----- Each model once

  /** Every model is visited, and none twice. */
  ghost predicate EachOnce<T>(rows: seq<T>, visited: seq<T>) {
    Distinct(visited) && forall r :: r in rows ==> r in visited
  }

  /** Where the rows of each model are next to each other, every model is visited once if and only if
      the pages fit. */
  lemma EachOnceExactlyWhen<T>(rows: seq<T>, size: nat)
    requires size > 0 && Grouped(rows)
    ensures EachOnce(rows, Answers(rows, size)) <==> PagesFit(rows, size)
  {
    VisitedExactlyWhen(rows, size);
    CollapsedNoRepeat(rows);
    CollapsedDistinct(rows);
    if EachOnce(rows, Answers(rows, size)) {
      EachOnceFits(rows, size);
    }
  }

  lemma {:induction false} EachOnceFits<T>(rows: seq<T>, size: nat)
    requires size > 0 && Grouped(rows) && EachOnce(rows, Answers(rows, size))
    ensures PagesFit(rows, size)
    decreases |rows|
  {
    var page := Page(rows, 0, size);
    var rest := rows[|page|..];
    assert rows == page + rest;
    AnswersStep(rows, size);
    CollapsedNoRepeat(page);
    if |Collapsed(page)| < size {
      ShortOnce(rows, size, page, rest);
    } else {
      VisitedExactlyWhen(rest, size);
      CollapsedIsAll(page);
      GroupedAfter(page, rest);
      RestOnce(page, rest, Answers(rest, size));
      EachOnceFits(rest, size);
      PagesFitNext(rows, size);
    }
  }

  lemma ShortOnce<T>(rows: seq<T>, size: nat, page: seq<T>, rest: seq<T>)
    requires size > 0 && page == Page(rows, 0, size) && rows == page + rest
    requires Grouped(rows) && forall r :: r in rows ==> r in page
    ensures FitUpTo(rows, size, 0)
  {
    assert Start(1, size) == size;
    forall i | size <= i < |rows|
      ensures rows[i] == rows[size - 1]
    {
      assert rows[i] == rest[i - size] && rows[i] in page;
      var j :| 0 <= j < |page| && page[j] == rest[i - size];
      SharedStraddles(page, rest, j, i - size);
    }
  }

  lemma RestOnce<T>(page: seq<T>, rest: seq<T>, answers: seq<T>)
    requires Grouped(page + rest) && EachOnce(page + rest, page + answers) && page != []
    requires answers != [] <==> rest != []
    requires rest != [] ==> answers[0] == rest[0]
    ensures EachOnce(rest, answers) && (rest != [] ==> page[|page| - 1] != rest[0])
  {
    var all := page + answers;
    assert forall i :: 0 <= i < |answers| ==> answers[i] == all[i + |page|];
    if rest != [] {
      assert all[|page| - 1] != all[|page|];
    }
    forall r | r in rest
      ensures r in answers
    {
      var k :| 0 <= k < |rest| && rest[k] == r;
      if i :| 0 <= i < |page| && page[i] == r {
        SharedStraddles(page, rest, i, k);
      } else {
        assert r in page + rest && r in all;
      }
    }
  }

  // ----- A query that is not visited

  /** A model with two rows, then another, in pages of two: the first page is one model, which ends
      the search. In pages of one the first model is visited twice. */
  lemma SecondModelMissed()
    ensures Answers([7, 7, 8], 2) == [7] && Answers([7, 7, 8], 1) == [7, 7, 8] && Collapsed([7, 7, 8]) == [7, 8]
    ensures !PagesFit([7, 7, 8], 2) && !PagesFit([7, 7, 8], 1)
  {
    var rows := [7, 7, 8];
    assert rows[1..] == [7, 8] && rows[2..] == [8] && rows[3..] == [] && [7, 8][1..] == [8] && [8][1..] == [];
    assert Collapsed([8]) == [8] && Collapsed([7, 8]) == [7, 8] && Collapsed([7, 7])  == [7] && Collapsed([7]) == [7];
    assert Page(rows, 0, 2) == [7, 7] && Page(rows, 0, 1) == [7] && Page([7, 8], 0, 1) == [7] && Page([8], 0, 1) == [8];
    assert Answers([8], 1) == [8];
    VisitedExactlyWhen(rows, 2);
    VisitedExactlyWhen(rows, 1);
  }
}
