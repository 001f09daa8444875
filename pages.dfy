/**
 * Draining a paginated GitHub listing: the first response, then
 * `getNextPage` for as long as `hasNextPage` holds, every response's `data`
 * appended by `concatAllCommits`.
 */
module Pages {
  import opened Wrappers

  /**
   * One response of a paginated request: its `data` and whether GitHub
   * announces a next page, or a rejected request.
   */
  datatype Response<T> = Page(data: seq<T>, hasNext: bool) | Failed

  /** concatAllCommits: the accumulated items followed by the page's `data`. */
  function ConcatAllCommits<T>(acc: seq<T>, page: Response<T>): (r: seq<T>)
    requires page.Page?
    ensures |r| == |acc| + |page.data|
    ensures r[..|acc|] == acc && r[|acc|..] == page.data
  {
    acc + page.data
  }

  /**
   * What the drain resolves to when the i-th request yields `responses[i]`:
   * the data of every response up to the first one without a next page, or
   * a rejection when a request fails first. A request past the end of
   * `responses` counts as failed.
   */
  function Drained<T>(responses: seq<Response<T>>): (r: Result<seq<T>>)
    ensures r.Ok? ==> responses != [] && responses[0].Page?
    ensures r.Ok? ==> |responses[0].data| <= |r.value| && r.value[..|responses[0].data|] == responses[0].data
    ensures responses != [] && responses[0].Page? && !responses[0].hasNext ==> r == Ok(responses[0].data)
    decreases |responses|
  {
    if responses == [] || responses[0].Failed? then Err
    else if !responses[0].hasNext then Ok(responses[0].data)
    else Prepend(responses[0].data, Drained(responses[1..]))
  }

  function Prepend<T>(front: seq<T>, r: Result<seq<T>>): (prepended: Result<seq<T>>)
  {
    match r
    case Ok(items) => Ok(front + items)
    case Err => Err
  }

  lemma PrependTwice<T>(first: seq<T>, second: seq<T>, r: Result<seq<T>>)
    ensures Prepend(first, Prepend(second, r)) == Prepend(first + second, r)
  {
    if r.Ok? {
      assert first + (second + r.value) == (first + second) + r.value;
    }
  }

  /** The drain stops at response `n`: every earlier one announced a next page, `n` does not. */
  predicate StopsAt<T>(responses: seq<Response<T>>, n: nat)
  {
    n < |responses|
    && (forall j | 0 <= j <= n :: responses[j].Page?)
    && (forall j | 0 <= j < n :: responses[j].hasNext)
    && !responses[n].hasNext
  }

  /** `reduce(concatAllCommits, [])` over a run of pages. */
  function ConcatAll<T>(pages: seq<Response<T>>): (all: seq<T>)
    requires forall j | 0 <= j < |pages| :: pages[j].Page?
  {
    if pages == [] then []
    else ConcatAllCommits(ConcatAll(pages[..|pages| - 1]), pages[|pages| - 1])
  }

  /**
   * The drain succeeds exactly when it reaches a page without a next page,
   * and then yields the concatenation of the pages up to it, in page
   * order and within each page in order, without dropping duplicates.
   */
  lemma {:induction false} DrainedIsConcatenation<T>(responses: seq<Response<T>>, n: nat)
    requires StopsAt(responses, n)
    ensures Drained(responses) == Ok(ConcatAll(responses[..n + 1]))
    decreases n
  {
    if n > 0 {
      var tail := responses[1..];
      assert StopsAt(tail, n - 1) by {
        assert forall j | 0 <= j < |tail| :: tail[j] == responses[j + 1];
      }
      DrainedIsConcatenation(tail, n - 1);
      ConcatAllPrepend(responses[0], tail[..n]);
      assert [responses[0]] + tail[..n] == responses[..n + 1];
      assert Drained(responses) == Prepend(responses[0].data, Ok(ConcatAll(tail[..n])));
    } else {
      assert responses[..1] == [responses[0]] && [responses[0]][..0] == [];
      assert ConcatAll(responses[..1]) == [] + responses[0].data;
    }
  }

  lemma {:induction false} ConcatAllPrepend<T>(first: Response<T>, pages: seq<Response<T>>)
    requires first.Page? && forall j | 0 <= j < |pages| :: pages[j].Page?
    ensures ConcatAll([first] + pages) == first.data + ConcatAll(pages)
    decreases |pages|
  {
    if pages == [] {
      assert [first][..0] == [];
    } else {
      var all := [first] + pages;
      var front, last := pages[..|pages| - 1], pages[|pages| - 1];
      assert all[..|all| - 1] == [first] + front && all[|all| - 1] == last;
      ConcatAllPrepend(first, front);
      assert ConcatAll(all) == ConcatAll([first] + front) + last.data;
      assert ConcatAll(pages) == ConcatAll(front) + last.data;
      assert (first.data + ConcatAll(front)) + last.data == first.data + (ConcatAll(front) + last.data);
    }
  }

  /** Without a stopping page the drain is rejected; responses after the stopping page are never requested. */
  lemma {:induction false} DrainedStopsAtFirstLastPage<T>(responses: seq<Response<T>>, more: seq<Response<T>>)
    ensures (forall n: nat :: !StopsAt(responses, n)) ==> Drained(responses) == Err
    ensures forall n: nat | StopsAt(responses, n) :: Drained(responses[..n + 1] + more) == Drained(responses)
    decreases |responses|
  {
    if responses != [] && responses[0].Page? && responses[0].hasNext {
      var tail := responses[1..];
      DrainedStopsAtFirstLastPage(tail, more);
      forall n: nat | StopsAt(responses, n)
        ensures Drained(responses[..n + 1] + more) == Drained(responses)
      {
        assert StopsAt(tail, n - 1);
        assert (responses[..n + 1] + more)[1..] == tail[..n] + more;
      }
      if forall n: nat :: !StopsAt(responses, n) {
        forall m: nat ensures !StopsAt(tail, m) {
          if StopsAt(tail, m) {
            assert StopsAt(responses, m + 1);
          }
        }
      }
    } else if responses != [] && responses[0].Page? {
      assert StopsAt(responses, 0);
      forall n: nat | StopsAt(responses, n)
        ensures Drained(responses[..n + 1] + more) == Drained(responses)
      {
        assert (responses[..n + 1] + more)[0] == responses[0];
      }
    }
  }

  /**
   * The drain as a loop: request pages while the last one announces a
   * next page, appending each page's data with concatAllCommits.
   */
  method DrainPages<T>(responses: seq<Response<T>>) returns (r: Result<seq<T>>)
    ensures r == Drained(responses)
  {
    var all: seq<T> := [];
    var i := 0;
    assert responses[0..] == responses;
    assert Prepend(all, Drained(responses)) == Drained(responses) by {
      if Drained(responses).Ok? {
        assert [] + Drained(responses).value == Drained(responses).value;
      }
    }
    while i < |responses| && responses[i].Page? && responses[i].hasNext
      invariant 0 <= i <= |responses|
      invariant Drained(responses) == Prepend(all, Drained(responses[i..]))
      decreases |responses| - i
    {
      assert responses[i..][1..] == responses[i + 1..];
      PrependTwice(all, responses[i].data, Drained(responses[i + 1..]));
      all := ConcatAllCommits(all, responses[i]);
      i := i + 1;
    }
    if i == |responses| || responses[i].Failed? {
      r := Err;
    } else {
      r := Ok(ConcatAllCommits(all, responses[i]));
    }
  }
}
