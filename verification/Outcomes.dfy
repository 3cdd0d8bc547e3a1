/** The result shapes and the small functions the rest of the model shares. */
module Outcomes {
  datatype Option<+T> = None | Some(value: T)

  datatype Result<+T, +E> = Ok(value: T) | Err(error: E)

  function Min(a: nat, b: nat): nat { if a < b then a else b }

  function Max(a: nat, b: nat): nat { if a < b then b else a }

  /** What is left of `s` past the first `skip` of it. */
  function Skipped<T>(skip: nat, s: seq<T>): seq<T> { if skip < |s| then s[skip..] else [] }

  /** What is shown of `docs` from the place `skip` on, `limit` of them or as many as there are,
      each in its shape; or the refusal of the first of those that has none. */
  ghost predicate IsPage<D, P, E>(docs: seq<D>, shape: D -> Result<P, E>, skip: nat, limit: nat,
                                  page: Result<seq<P>, E>)
  {
    match page
    case Ok(shown) =>
      && |shown| == (if |docs| <= skip then 0 else if |docs| - skip <= limit then |docs| - skip else limit)
      && forall i :: 0 <= i < |shown| ==> shape(docs[skip + i]) == Ok(shown[i])
    case Err(e) =>
      exists i :: skip <= i < skip + limit && i < |docs| && shape(docs[i]) == Err(e)
                  && forall j :: skip <= j < i ==> shape(docs[j]).Ok?
  }

  lemma ShownHaveShapes<D, P, E>(docs: seq<D>, shape: D -> Result<P, E>, skip: nat, limit: nat, shown: seq<P>)
    requires IsPage(docs, shape, skip, limit, Ok(shown))
    ensures forall i :: skip <= i < skip + limit && i < |docs| ==> shape(docs[i]).Ok?
  {
    forall i | skip <= i < skip + limit && i < |docs| ensures shape(docs[i]).Ok? {
      assert shape(docs[skip + (i - skip)]) == Ok(shown[i - skip]);
    }
  }

  /** There is one such page. */
  lemma PageIsUnique<D, P, E>(docs: seq<D>, shape: D -> Result<P, E>, skip: nat, limit: nat, a: Result<seq<P>, E>,
                              b: Result<seq<P>, E>)
    requires IsPage(docs, shape, skip, limit, a) && IsPage(docs, shape, skip, limit, b)
    ensures a == b
  {
    if a.Ok? { ShownHaveShapes(docs, shape, skip, limit, a.value); }
    if b.Ok? { ShownHaveShapes(docs, shape, skip, limit, b.value); }
    if a.Ok? && b.Ok? { assert a.value == b.value; }
  }

  /** The page of what is left past `skip` is the page from `skip` on. */
  lemma PageOfSkipped<D, P, E>(docs: seq<D>, shape: D -> Result<P, E>, skip: nat, limit: nat, page: Result<seq<P>, E>)
    requires |docs| <= skip + limit && IsPage(Skipped(skip, docs), shape, 0, |docs|, page)
    ensures IsPage(docs, shape, skip, limit, page)
  {
    var rest := Skipped(skip, docs);
    if page.Ok? {
      forall i | 0 <= i < |page.value| ensures shape(docs[skip + i]) == Ok(page.value[i]) {
        assert rest[0 + i] == docs[skip + i];
      }
    } else {
      var i :| 0 <= i < |rest| && shape(rest[i]) == Err(page.error) && forall j :: 0 <= j < i ==> shape(rest[j]).Ok?;
      assert rest[i] == docs[skip + i];
      forall j | skip <= j < skip + i ensures shape(docs[j]).Ok? { assert rest[j - skip] == docs[j]; }
    }
  }

  /** A page looks no further than `skip + limit`. */
  lemma PageOfTaken<D, P, E>(docs: seq<D>, taken: seq<D>, shape: D -> Result<P, E>, skip: nat, limit: nat,
                             page: Result<seq<P>, E>)
    requires taken == if skip + limit < |docs| then docs[..skip + limit] else docs
    requires IsPage(taken, shape, skip, limit, page)
    ensures IsPage(docs, shape, skip, limit, page)
  {
    if page.Ok? {
      forall i | 0 <= i < |page.value| ensures shape(docs[skip + i]) == Ok(page.value[i]) {
        assert taken[skip + i] == docs[skip + i];
      }
    } else {
      var i :| skip <= i < skip + limit && i < |taken| && shape(taken[i]) == Err(page.error)
               && forall j :: skip <= j < i ==> shape(taken[j]).Ok?;
      assert taken[i] == docs[i];
      forall j | skip <= j < i ensures shape(docs[j]).Ok? { assert taken[j] == docs[j]; }
    }
  }
}
