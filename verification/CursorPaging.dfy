/**
 `find` in `_id` order, a page at a time: what a page holds, when it offers a cursor,
 and what following the cursors gives.
 */
module CursorPaging {
  import opened Outcomes
  import opened Conjunctions
  import opened Reads

  /** A read of one collection, before paging: the filter, and how a document is shown.
      A shape may be refused; it need not show the `_id`. */
  datatype Query<!D(!new), !P> = Query(matches: D -> Truth, shape: D -> Result<P, Error>)

  datatype Found<P> = Found(docs: seq<P>, next: Option<Key>)

  /** Every row shaped, or the first refusal. */
  function Shaped<D, P>(rows: seq<Row<D>>, shape: D -> Result<P, Error>): Result<seq<P>, Error> {
    if rows == [] then Ok([])
    else
      var front := Shaped(rows[..|rows| - 1], shape);
      if front.Err? then front
      else
        match shape(rows[|rows| - 1].doc)
        case Err(e) => Err(e)
        case Ok(p) => Ok(front.value + [p])
  }

  /** The page a request is answered with: its rows in key order from the cursor, past
      `skip` of them, shaped; and, for a full page without `skip`, where the next one
      begins.  The cursor is taken from the row, not from what is shown of it. */
  function PageOf<D(!new), P>(rows: seq<Row<D>>, q: Query<D, P>, after: Option<Key>, skip: nat, limit: nat)
    : Result<Found<P>, Error>
  {
    match Visit(Beyond(rows, after), q.matches, Some(skip + limit))
    case Err(e) => Err(e)
    case Ok(visited) =>
      var page := Skipped(skip, visited);
      match Shaped(page, q.shape)
      case Err(e) => Err(e)
      case Ok(docs) =>
        Ok(Found(docs, if skip == 0 && |page| == limit && page != [] then Some(page[|page| - 1].key) else None))
  }

  /** Shapes the rows of a page and keeps where the last one is. */
  method ShapePage<D(!new), P>(page: seq<Row<D>>, shape: D -> Result<P, Error>)
    returns (r: Result<seq<P>, Error>, last: Option<Key>)
    ensures r == Shaped(page, shape) && last == if page == [] then None else Some(page[|page| - 1].key)
  {
    var docs: seq<P>, refused: Option<Error> := [], None;
    last := None;
    for i := 0 to |page|
      invariant Shaped(page[..i], shape) == (if refused.Some? then Err(refused.value) else Ok(docs))
      invariant last == if i == 0 then None else Some(page[i - 1].key)
    {
      assert page[..i + 1][..i] == page[..i];
      last := Some(page[i].key);
      match shape(page[i].doc) {
        case Ok(p) => if refused.None? { docs := docs + [p]; }
        case Err(e) => if refused.None? { refused := Some(e); }
      }
    }
    assert page[..|page|] == page;
    r := if refused.Some? then Err(refused.value) else Ok(docs);
  }

  /** How a row is shown. */
  function ByRow<D, P>(shape: D -> Result<P, Error>): Row<D> -> Result<P, Error> { (row: Row<D>) => shape(row.doc) }

  /** What is shown on a page. */
  function Shown<P>(r: Result<Found<P>, Error>): Result<seq<P>, Error> {
    match r
    case Ok(found) => Ok(found.docs)
    case Err(e) => Err(e)
  }

  lemma {:induction false} ShapedIsPage<D, P>(rows: seq<Row<D>>, shape: D -> Result<P, Error>)
    ensures IsPage(rows, ByRow(shape), 0, |rows|, Shaped(rows, shape))
  {
    if rows == [] {
    } else {
      ShapedIsPage(rows[..|rows| - 1], shape);
      var front := Shaped(rows[..|rows| - 1], shape);
      if front.Err? {
        RefusalIsPage(rows, shape, front.error);
      } else {
        OneMoreShown(rows, shape, front.value);
      }
    }
  }

  lemma RefusalIsPage<D, P>(rows: seq<Row<D>>, shape: D -> Result<P, Error>, e: Error)
    requires rows != [] && IsPage(rows[..|rows| - 1], ByRow(shape), 0, |rows| - 1, Err(e))
    ensures IsPage(rows, ByRow(shape), 0, |rows|, Err(e))
  {
    var front := rows[..|rows| - 1];
    var i :| 0 <= i < |front| && ByRow(shape)(front[i]) == Err(e)
             && forall j :: 0 <= j < i ==> ByRow(shape)(front[j]).Ok?;
    forall j | 0 <= j < i ensures ByRow(shape)(rows[j]).Ok? { assert front[j] == rows[j]; }
    assert front[i] == rows[i];
  }

  lemma OneMoreShown<D, P>(rows: seq<Row<D>>, shape: D -> Result<P, Error>, shown: seq<P>)
    requires rows != [] && IsPage(rows[..|rows| - 1], ByRow(shape), 0, |rows| - 1, Ok(shown))
    ensures var n := |rows| - 1;
            match shape(rows[n].doc)
            case Ok(p) => IsPage(rows, ByRow(shape), 0, |rows|, Ok(shown + [p]))
            case Err(e) => IsPage(rows, ByRow(shape), 0, |rows|, Err(e))
  {
    var n := |rows| - 1;
    forall i | 0 <= i < n ensures ByRow(shape)(rows[i]) == Ok(shown[i]) { assert rows[..n][0 + i] == rows[i]; }
    if shape(rows[n].doc).Err? { assert ByRow(shape)(rows[n]) == Err(shape(rows[n].doc).error); }
  }

  /** The filter fails the page: at the first row it fails on, if that comes before enough
      matches. */
  ghost predicate FilterFails<D>(left: seq<Row<D>>, matches: D -> Truth, most: nat, e: Error) {
    exists at: seq<nat>, upTo: nat ::
      Lists(left, matches, at, upTo) && |at| < most && upTo < |left| && matches(left[upTo].doc) == Failed(e)
  }

  /** The page shows the matches at the places `at`, past the first `skip`, each in its shape,
      and where the last of them stands if it is a full page without `skip`. */
  ghost predicate ShowsMatches<D(!new), P>(left: seq<Row<D>>, q: Query<D, P>, skip: nat, limit: nat,
                                           r: Result<Found<P>, Error>, at: seq<nat>, upTo: nat, visited: seq<Row<D>>)
  {
    && IsVisit(left, q.matches, Some(skip + limit), Ok(visited), at, upTo)
    && IsPage(visited, ByRow(q.shape), skip, limit, Shown(r))
    && (r.Ok? ==> r.value.next ==
                  if skip == 0 && limit > 0 && |at| == limit then Some(left[at[limit - 1]].key) else None)
  }

  /** What a request is answered with, from the rows themselves: the filter's failure, or the
      page of the first `skip + limit` rows past the cursor that the filter accepts. */
  ghost predicate IsFound<D(!new), P>(rows: seq<Row<D>>, q: Query<D, P>, after: Option<Key>, skip: nat, limit: nat,
                                      r: Result<Found<P>, Error>)
  {
    exists k: nat :: Starts(rows, after, k) && FoundFrom(rows[k..], q, skip, limit, r)
  }

  ghost predicate FoundFrom<D(!new), P>(left: seq<Row<D>>, q: Query<D, P>, skip: nat, limit: nat,
                                        r: Result<Found<P>, Error>)
  {
    || (r.Err? && FilterFails(left, q.matches, skip + limit, r.error))
    || exists at: seq<nat>, upTo: nat, visited :: ShowsMatches(left, q, skip, limit, r, at, upTo, visited)
  }

  lemma PageFrom<D(!new), P>(rows: seq<Row<D>>, q: Query<D, P>, after: Option<Key>, skip: nat, limit: nat)
    requires Visit(Beyond(rows, after), q.matches, Some(skip + limit)).Ok?
    ensures var visited := Visit(Beyond(rows, after), q.matches, Some(skip + limit)).value;
            var r := PageOf(rows, q, after, skip, limit);
            && IsPage(visited, ByRow(q.shape), skip, limit, Shown(r))
            && (r.Ok? ==> r.value.next ==
                          if skip == 0 && limit > 0 && |visited| == limit then Some(visited[limit - 1].key) else None)
  {
    var visited := Visit(Beyond(rows, after), q.matches, Some(skip + limit)).value;
    VisitIsBounded(Beyond(rows, after), q.matches, skip + limit);
    ShapedIsPage(Skipped(skip, visited), q.shape);
    PageOfRest(Skipped(skip, visited), ByRow(q.shape), |visited|, Shaped(Skipped(skip, visited), q.shape));
    PageOfSkipped(visited, ByRow(q.shape), skip, limit, Shaped(Skipped(skip, visited), q.shape));
  }

  lemma PageOfRest<D, P, E>(docs: seq<D>, shape: D -> Result<P, E>, most: nat, page: Result<seq<P>, E>)
    requires |docs| <= most && IsPage(docs, shape, 0, |docs|, page)
    ensures IsPage(docs, shape, 0, most, page)
  {
  }

  /** A bounded visit is the first so many of the whole one. */
  lemma {:induction false} BoundedIsTaken<D>(rows: seq<Row<D>>, matches: D -> Truth, n: nat, all: seq<Row<D>>)
    requires Visit(rows, matches, None) == Ok(all)
    ensures Visit(rows, matches, Some(n)) == Ok(if n < |all| then all[..n] else all)
  {
    if rows == [] {
    } else {
      var front := Visit(rows[..|rows| - 1], matches, None).value;
      BoundedIsTaken(rows[..|rows| - 1], matches, n, front);
      if front != all {
        assert all == front + [rows[|rows| - 1]];
        if n <= |front| { assert all[..n] == front[..n] && front[..|front|] == front; }
      }
    }
  }

  /** Where the filter fails on nothing past the cursor, the page is the page of everything
      there that it accepts. */
  lemma PageOfWhole<D(!new), P>(rows: seq<Row<D>>, q: Query<D, P>, after: Option<Key>, skip: nat, limit: nat,
                                all: seq<Row<D>>)
    requires Visit(Beyond(rows, after), q.matches, None) == Ok(all)
    ensures IsPage(all, ByRow(q.shape), skip, limit, Shown(PageOf(rows, q, after, skip, limit)))
  {
    BoundedIsTaken(Beyond(rows, after), q.matches, skip + limit, all);
    PageFrom(rows, q, after, skip, limit);
    PageOfTaken(all, if skip + limit < |all| then all[..skip + limit] else all, ByRow(q.shape), skip, limit,
                Shown(PageOf(rows, q, after, skip, limit)));
  }

  lemma VisitIsShown<D(!new), P>(rows: seq<Row<D>>, q: Query<D, P>, after: Option<Key>, skip: nat, limit: nat, k: nat,
                                 visited: seq<Row<D>>)
    requires k <= |rows| && Beyond(rows, after) == rows[k..]
    requires Visit(rows[k..], q.matches, Some(skip + limit)) == Ok(visited)
    ensures FoundFrom(rows[k..], q, skip, limit, PageOf(rows, q, after, skip, limit))
  {
    var at, upTo := VisitMeaning(rows[k..], q.matches, Some(skip + limit));
    PageFrom(rows, q, after, skip, limit);
    assert ShowsMatches(rows[k..], q, skip, limit, PageOf(rows, q, after, skip, limit), at, upTo, visited);
  }

  lemma PageIsFound<D(!new), P>(rows: seq<Row<D>>, q: Query<D, P>, after: Option<Key>, skip: nat, limit: nat)
    requires Ascending(rows)
    ensures IsFound(rows, q, after, skip, limit, PageOf(rows, q, after, skip, limit))
  {
    var k := BeyondMeaning(rows, after);
    var visit := Visit(rows[k..], q.matches, Some(skip + limit));
    if visit.Ok? {
      VisitIsShown(rows, q, after, skip, limit, k, visit.value);
    } else {
      VisitFails(rows[k..], q.matches, skip + limit, visit.error);
    }
  }

  lemma VisitFails<D>(left: seq<Row<D>>, matches: D -> Truth, most: nat, e: Error)
    requires Visit(left, matches, Some(most)) == Err(e)
    ensures FilterFails(left, matches, most, e)
  {
    var at, upTo := VisitMeaning(left, matches, Some(most));
    assert Lists(left, matches, at, upTo);
  }

  method Find<D(!new), P>(rows: seq<Row<D>>, access: Access<D>, q: Query<D, P>, after: Option<Key>, skip: nat,
                          limit: nat)
    returns (r: Result<Found<P>, Error>)
    requires Ascending(rows) && Sound(access, rows, after, q.matches)
    ensures r == PageOf(rows, q, after, skip, limit)
    ensures IsFound(rows, q, after, skip, limit, r)
    ensures var whole := Visit(Beyond(rows, after), q.matches, None);
            whole.Ok? ==> IsPage(whole.value, ByRow(q.shape), skip, limit, Shown(r))
  {
    ghost var whole := Visit(Beyond(rows, after), q.matches, None);
    if whole.Ok? { PageOfWhole(rows, q, after, skip, limit, whole.value); }
    PageIsFound(rows, q, after, skip, limit);
    var visited := VisitMatching(rows, access, after, q.matches, Some(skip + limit));
    if visited.Err? { return Err(visited.error); }
    var page := Skipped(skip, visited.value);
    var docs, last := ShapePage(page, q.shape);
    if docs.Err? { return Err(docs.error); }
    ShapedLength(page, q.shape);
    return Ok(Found(docs.value, if skip == 0 && |docs.value| == limit then last else None));
  }

  lemma {:induction false} ShapedLength<D, P>(rows: seq<Row<D>>, shape: D -> Result<P, Error>)
    ensures Shaped(rows, shape).Ok? ==> |Shaped(rows, shape).value| == |rows|
  {
    if rows == [] {
    } else {
      ShapedLength(rows[..|rows| - 1], shape);
    }
  }

  /** A page of none offers no cursor. */
  lemma NoCursorForLimitZero<D(!new), P>(rows: seq<Row<D>>, q: Query<D, P>, after: Option<Key>, skip: nat)
    ensures PageOf(rows, q, after, skip, 0).Ok? ==> PageOf(rows, q, after, skip, 0).value.next == None
  {
    VisitIsBounded(Beyond(rows, after), q.matches, skip);
  }

  lemma {:induction false} VisitIsBounded<D>(rows: seq<Row<D>>, matches: D -> Truth, n: nat)
    ensures Visit(rows, matches, Some(n)).Ok? ==> |Visit(rows, matches, Some(n)).value| <= n
  {
    if rows == [] {
    } else {
      VisitIsBounded(rows[..|rows| - 1], matches, n);
    }
  }

  // ---------------------------------------------------------------------------
  // A bounded visit is a prefix of the whole one
  // ---------------------------------------------------------------------------

  /** A visit that did not reach its bound is the whole visit. */
  lemma {:induction false} ShortVisitIsWhole<D>(rows: seq<Row<D>>, matches: D -> Truth, n: nat)
    requires Visit(rows, matches, Some(n)).Ok? && |Visit(rows, matches, Some(n)).value| < n
    ensures Visit(rows, matches, None) == Visit(rows, matches, Some(n))
  {
    if rows == [] {
    } else {
      var front := rows[..|rows| - 1];
      VisitIsBounded(front, matches, n);
      ShortVisitIsWhole(front, matches, n);
    }
  }

  lemma {:induction false} FailedVisitFails<D>(rows: seq<Row<D>>, matches: D -> Truth, n: nat)
    requires Visit(rows, matches, Some(n)).Err?
    ensures Visit(rows, matches, None).Err?
  {
    var front := rows[..|rows| - 1];
    if Visit(front, matches, Some(n)).Err? {
      FailedVisitFails(front, matches, n);
    } else {
      VisitIsBounded(front, matches, n);
      ShortVisitIsWhole(front, matches, n);
    }
  }

  /** A visit that reached its bound did so at a row, and is the whole visit up to it. */
  lemma {:induction false} FullVisitEndsAtRow<D>(rows: seq<Row<D>>, matches: D -> Truth, n: nat) returns (k: nat)
    requires n > 0 && Visit(rows, matches, Some(n)).Ok? && |Visit(rows, matches, Some(n)).value| == n
    ensures k < |rows| && rows[k] == Visit(rows, matches, Some(n)).value[n - 1]
    ensures Visit(rows[..k + 1], matches, None) == Visit(rows, matches, Some(n))
  {
    var m := |rows| - 1;
    var front := Visit(rows[..m], matches, Some(n));
    VisitIsBounded(rows[..m], matches, n);
    if |front.value| == n {
      k := FullVisitEndsAtRow(rows[..m], matches, n);
      assert rows[..m][..k + 1] == rows[..k + 1];
    } else {
      ShortVisitIsWhole(rows[..m], matches, n);
      assert rows[..m + 1] == rows;
      k := m;
    }
  }

  function Prepend<T>(done: seq<T>, rest: Result<seq<T>, Error>): Result<seq<T>, Error> {
    match rest
    case Err(e) => Err(e)
    case Ok(more) => Ok(done + more)
  }

  lemma PrependTwice<T>(a: seq<T>, b: seq<T>, rest: Result<seq<T>, Error>)
    ensures Prepend(a, Prepend(b, rest)) == Prepend(a + b, rest)
    ensures Prepend([], rest) == rest
  {
    if rest.Ok? { assert a + (b + rest.value) == (a + b) + rest.value && [] + rest.value == rest.value; }
  }

  lemma {:induction false} VisitAppend<D>(a: seq<Row<D>>, b: seq<Row<D>>, matches: D -> Truth, done: seq<Row<D>>)
    requires Visit(a, matches, None) == Ok(done)
    ensures Visit(a + b, matches, None) == Prepend(done, Visit(b, matches, None))
  {
    if b == [] {
      assert a + b == a && done + [] == done;
    } else {
      var front, last := b[..|b| - 1], b[|b| - 1];
      assert a + b == (a + front) + [last];
      VisitAppend(a, front, matches, done);
      VisitSnoc(a + front, last, matches, None);
      if Visit(front, matches, None).Ok? {
        var more := Visit(front, matches, None).value;
        assert done + (more + [last]) == (done + more) + [last];
      }
    }
  }

  /** The rows after a row are the rows past its key. */
  lemma BeyondIsRest<D>(rows: seq<Row<D>>, k: nat)
    requires Ascending(rows) && k < |rows|
    ensures Beyond(rows, Some(rows[k].key)) == rows[k + 1..]
  {
    BeyondFrom(rows, Some(rows[k].key), k + 1);
  }

  /** Resuming past a row of what a cursor left gives what that row left. */
  lemma BeyondAgain<D>(rows: seq<Row<D>>, after: Option<Key>, key: Key)
    requires Past(key, after)
    ensures Beyond(Beyond(rows, after), Some(key)) == Beyond(rows, Some(key))
  {
    var p, q := (k: Key) => Past(k, after), (k: Key) => Past(k, Some(key));
    RowsInTwice(rows, p, q);
    RowsInAgrees(rows, (k: Key) => p(k) && q(k), q);
  }

  /** The visit of ascending rows, split after its first `limit` matches. */
  lemma SplitAtPage<D>(left: seq<Row<D>>, matches: D -> Truth, limit: nat, page: seq<Row<D>>) returns (k: nat)
    requires Ascending(left) && limit > 0 && Visit(left, matches, Some(limit)) == Ok(page) && |page| == limit
    ensures k < |left| && left[k] == page[limit - 1] && Beyond(left, Some(left[k].key)) == left[k + 1..]
    ensures Visit(left, matches, None) == Prepend(page, Visit(left[k + 1..], matches, None))
  {
    k := FullVisitEndsAtRow(left, matches, limit);
    assert left == left[..k + 1] + left[k + 1..];
    VisitAppend(left[..k + 1], left[k + 1..], matches, page);
    BeyondIsRest(left, k);
  }

  /** One page and the rest of the collection past its cursor make the whole. */
  lemma PageAndRest<D(!new)>(rows: seq<Row<D>>, matches: D -> Truth, after: Option<Key>, limit: nat, page: seq<Row<D>>)
    requires Ascending(rows) && limit > 0
    requires Visit(Beyond(rows, after), matches, Some(limit)) == Ok(page) && |page| == limit
    ensures var next := Some(page[limit - 1].key);
            && Visit(Beyond(rows, after), matches, None) == Prepend(page, Visit(Beyond(rows, next), matches, None))
            && |Beyond(rows, next)| < |Beyond(rows, after)|
  {
    RowsInAscends(rows, (k: Key) => Past(k, after));
    var k := SplitAtPage(Beyond(rows, after), matches, limit, page);
    BeyondAgain(rows, after, page[limit - 1].key);
  }

  // ---------------------------------------------------------------------------
  // Following the cursors
  // ---------------------------------------------------------------------------

  lemma {:induction false} ShapedAppend<D, P>(a: seq<Row<D>>, b: seq<Row<D>>, shape: D -> Result<P, Error>)
    ensures Shaped(a + b, shape) ==
            if Shaped(a, shape).Err? then Shaped(a, shape)
            else if Shaped(b, shape).Err? then Shaped(b, shape)
            else Ok(Shaped(a, shape).value + Shaped(b, shape).value)
  {
    if b == [] {
      assert a + b == a;
      if Shaped(a, shape).Ok? { assert Shaped(a, shape).value + [] == Shaped(a, shape).value; }
    } else {
      var front := b[..|b| - 1];
      assert (a + b)[..|a + b| - 1] == a + front;
      ShapedAppend(a, front, shape);
      if Shaped(a, shape).Ok? && Shaped(b, shape).Ok? {
        var last := [shape(b[|b| - 1].doc).value];
        assert Shaped(a, shape).value + (Shaped(front, shape).value + last) ==
               (Shaped(a, shape).value + Shaped(front, shape).value) + last;
      }
    }
  }

  /** All the matches of the collection, shaped; an error if the filter fails on a row or
      a match cannot be shaped. */
  function Everything<D(!new), P>(rows: seq<Row<D>>, q: Query<D, P>): Result<seq<P>, Error> {
    match Visit(rows, q.matches, None)
    case Err(e) => Err(e)
    case Ok(all) => Shaped(all, q.shape)
  }

  /** The rows in `done` have been shown, and what is past `after` is all that is left. */
  ghost predicate Followed<D(!new), P>(rows: seq<Row<D>>, q: Query<D, P>, after: Option<Key>, done: seq<Row<D>>,
                                       shown: seq<P>)
  {
    && Visit(rows, q.matches, None) == Prepend(done, Visit(Beyond(rows, after), q.matches, None))
    && Shaped(done, q.shape) == Ok(shown)
  }

  lemma NothingFollowed<D(!new), P>(rows: seq<Row<D>>, q: Query<D, P>)
    ensures Followed(rows, q, None, [], []) && Beyond(rows, None) == rows
  {
    BeyondFrom(rows, None, 0);
    PrependTwice<Row<D>>([], [], Visit(rows, q.matches, None));
  }

  lemma PageIsShown<D(!new), P>(rows: seq<Row<D>>, q: Query<D, P>, after: Option<Key>, limit: nat, done: seq<Row<D>>,
                                shown: seq<P>)
    requires limit > 0 && Followed(rows, q, after, done, shown) && PageOf(rows, q, after, 0, limit).Ok?
    ensures var page := PageOf(rows, q, after, 0, limit).value;
            var visited := Visit(Beyond(rows, after), q.matches, Some(limit));
            && visited.Ok? && |visited.value| <= limit && |page.docs| == |visited.value|
            && Shaped(done + visited.value, q.shape) == Ok(shown + page.docs)
            && page.next == if |visited.value| == limit then Some(visited.value[limit - 1].key) else None
  {
    var visited := Visit(Beyond(rows, after), q.matches, Some(limit)).value;
    assert Skipped(0, visited) == visited;
    ShapedAppend(done, visited, q.shape);
    ShapedLength(visited, q.shape);
    VisitIsBounded(Beyond(rows, after), q.matches, limit);
  }

  /** A page without a cursor is the last. */
  lemma LastPage<D(!new), P>(rows: seq<Row<D>>, q: Query<D, P>, after: Option<Key>, limit: nat, done: seq<Row<D>>,
                             shown: seq<P>)
    requires limit > 0 && Followed(rows, q, after, done, shown) && PageOf(rows, q, after, 0, limit).Ok?
    requires PageOf(rows, q, after, 0, limit).value.next.None?
    ensures Everything(rows, q) == Ok(shown + PageOf(rows, q, after, 0, limit).value.docs)
  {
    PageIsShown(rows, q, after, limit, done, shown);
    ShortVisitIsWhole(Beyond(rows, after), q.matches, limit);
  }

  /** A page with one is full, and following it goes on from there with less left. */
  lemma NextPage<D(!new), P>(rows: seq<Row<D>>, q: Query<D, P>, after: Option<Key>, limit: nat, done: seq<Row<D>>,
                             shown: seq<P>)
    requires Ascending(rows) && limit > 0 && Followed(rows, q, after, done, shown)
    requires PageOf(rows, q, after, 0, limit).Ok? && PageOf(rows, q, after, 0, limit).value.next.Some?
    ensures var page := PageOf(rows, q, after, 0, limit).value;
            var visited := Visit(Beyond(rows, after), q.matches, Some(limit)).value;
            && |page.docs| == limit && |Beyond(rows, page.next)| < |Beyond(rows, after)|
            && Followed(rows, q, page.next, done + visited, shown + page.docs)
  {
    PageIsShown(rows, q, after, limit, done, shown);
    var page := PageOf(rows, q, after, 0, limit).value;
    var visited := Visit(Beyond(rows, after), q.matches, Some(limit)).value;
    PageAndRest(rows, q.matches, after, limit, visited);
    PrependTwice(done, visited, Visit(Beyond(rows, page.next), q.matches, None));
  }

  /** One more page: it fails, or is the last, or leaves less to follow. */
  method FollowOne<D(!new), P>(rows: seq<Row<D>>, access: Access<D>, q: Query<D, P>, after: Option<Key>, limit: nat,
                               ghost done: seq<Row<D>>, shown: seq<P>)
    returns (page: Result<Found<P>, Error>, ghost more: seq<Row<D>>)
    requires Ascending(rows) && limit > 0 && Sound(access, rows, after, q.matches)
    requires Followed(rows, q, after, done, shown)
    ensures page.Err? ==> Everything(rows, q).Err?
    ensures page.Ok? && page.value.next.None? ==> Everything(rows, q) == Ok(shown + page.value.docs)
    ensures page.Ok? && page.value.next.Some? ==>
              && |page.value.docs| == limit && |Beyond(rows, page.value.next)| < |Beyond(rows, after)|
              && Followed(rows, q, page.value.next, more, shown + page.value.docs)
  {
    page := Find(rows, access, q, after, 0, limit);
    more := done;
    if page.Err? {
      FailedPageFails(rows, q, after, limit, done);
    } else if page.value.next.None? {
      LastPage(rows, q, after, limit, done, shown);
    } else {
      NextPage(rows, q, after, limit, done, shown);
      more := done + Visit(Beyond(rows, after), q.matches, Some(limit)).value;
    }
  }

  /** Asking for page after page, each from where the last one said the next begins, ends,
      and shows every match once in `_id` order; it fails exactly when reading the whole
      collection would.  Every page but the last holds `limit` documents, and each page may
      be read by whatever sound path the planner chooses for it. */
  method FollowCursors<D(!new), P>(rows: seq<Row<D>>, plan: Option<Key> -> Access<D>, q: Query<D, P>, limit: nat)
    returns (r: Result<seq<P>, Error>, pages: seq<nat>)
    requires Ascending(rows) && limit > 0 && forall after :: Sound(plan(after), rows, after, q.matches)
    ensures r.Ok? <==> Everything(rows, q).Ok?
    ensures r.Ok? ==> r == Everything(rows, q)
    ensures |pages| <= |rows| + 1
    ensures r.Ok? ==> forall i :: 0 <= i < |pages| - 1 ==> pages[i] == limit
  {
    var after: Option<Key>, shown: seq<P> := None, [];
    ghost var done: seq<Row<D>> := [];
    pages := [];
    NothingFollowed(rows, q);
    while true
      invariant Followed(rows, q, after, done, shown)
      invariant |pages| + |Beyond(rows, after)| <= |rows|
      invariant forall i :: 0 <= i < |pages| ==> pages[i] == limit
      decreases |Beyond(rows, after)|
    {
      var page;
      page, done := FollowOne(rows, plan(after), q, after, limit, done, shown);
      if page.Err? { return Err(page.error), pages; }
      shown, pages := shown + page.value.docs, pages + [|page.value.docs|];
      if page.value.next.None? { return Ok(shown), pages; }
      after := page.value.next;
    }
  }

  /** A page that fails is a failure of the whole. */
  lemma FailedPageFails<D(!new), P>(rows: seq<Row<D>>, q: Query<D, P>, after: Option<Key>, limit: nat,
                                    done: seq<Row<D>>)
    requires Ascending(rows) && limit > 0 && PageOf(rows, q, after, 0, limit).Err? && Shaped(done, q.shape).Ok?
    requires Visit(rows, q.matches, None) == Prepend(done, Visit(Beyond(rows, after), q.matches, None))
    ensures Everything(rows, q).Err?
  {
    var left := Beyond(rows, after);
    var visited := Visit(left, q.matches, Some(limit));
    if visited.Err? {
      FailedVisitFails(left, q.matches, limit);
    } else {
      assert Skipped(0, visited.value) == visited.value;
      VisitIsBounded(left, q.matches, limit);
      if |visited.value| < limit {
        ShortVisitIsWhole(left, q.matches, limit);
        ShapedAppend(done, visited.value, q.shape);
      } else {
        PageAndRest(rows, q.matches, after, limit, visited.value);
        var rest := Visit(Beyond(rows, Some(visited.value[limit - 1].key)), q.matches, None);
        if rest.Ok? {
          assert done + (visited.value + rest.value) == (done + visited.value) + rest.value;
          ShapedAppend(done, visited.value, q.shape);
          ShapedAppend(done + visited.value, rest.value, q.shape);
        }
      }
    }
  }
}
