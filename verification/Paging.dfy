/** Reading from the Capella v4 API: bounded retries for one request, and lists read page by page. */
module Paging {

  const MAX_RETRIES := 10
  const PER_PAGE := 100

  /** An error reported by the API has the status of the reply and perhaps one in its body; anything else did not get
      that far. */
  datatype Failure = Api(httpStatus: int, bodyStatus: int) | Other

  datatype Page<T> = Page(data: seq<T>, last: nat)

  datatype Response<T> = Answered(page: Page<T>) | Refused(failure: Failure)

  datatype ReadResult<T> = Got(page: Page<T>) | Failed(failure: Failure) | Cancelled

  datatype ListResult<T> = Listed(all: seq<T>) | ListFailed

  /** The status in the body of an error counts, unless the body has none. */
  function Status(httpStatus: int, bodyStatus: int): int {
    if bodyStatus == 0 then httpStatus else bodyStatus
  }

  predicate Retryable(f: Failure) {
    f.Api? ==> var status := Status(f.httpStatus, f.bodyStatus); status == 408 || status == 429 || status >= 500
  }

  /** A failure that the API reports and that trying again does not help. */
  ghost predicate Permanent(f: Failure) {
    && f.Api? && f.bodyStatus < 500 && f.bodyStatus !in {408, 429}
    && (f.bodyStatus == 0 ==> f.httpStatus < 500 && f.httpStatus !in {408, 429})
  }

  lemma RetryableMeans(f: Failure)
    ensures Retryable(f) <==> !Permanent(f)
  {
  }

  // ----- the backoff -----

  /** How long to wait before trying again when this many retries have been made, in milliseconds. */
  function Delay(retries: nat): nat {
    500 + retries * 100
  }

  /** The total of the first delays. */
  function Backoff(retries: nat): nat {
    if retries == 0 then 0 else Backoff(retries - 1) + Delay(retries - 1)
  }

  lemma {:induction false} BackoffFormula(k: nat)
    ensures Backoff(k) == 500 * k + 50 * k * (k - 1)
    ensures k <= 10 ==> Backoff(k) <= 9500
  {
    if k != 0 {
      BackoffFormula(k - 1);
      assert 50 * k * (k - 1) == 50 * (k - 1) * (k - 2) + 100 * (k - 1);
    }
  }

  // ----- the pages of a collection -----

  function Min(a: nat, b: nat): nat {
    if a < b then a else b
  }

  /** The number of the last page; 0 for an empty collection. */
  function LastPage(n: nat): nat {
    (n + PER_PAGE - 1) / PER_PAGE
  }

  /** How many pages have to be read: at least one. */
  function PagesToRead(n: nat): nat {
    if n == 0 then 1 else LastPage(n)
  }

  /** What a server that holds `items` answers for a page. */
  function PageOf<T>(items: seq<T>, page: nat): Page<T>
    requires page > 0
  {
    Page(items[Min((page - 1) * PER_PAGE, |items|)..Min(page * PER_PAGE, |items|)], LastPage(|items|))
  }

  /** A page goes on where the one before it ended; all but the last have 100 items, and reading stops at the last one,
      not earlier. */
  lemma PageAdvances<T>(items: seq<T>, page: nat)
    requires page > 0 && (page == 1 || 100 * (page - 1) < |items|)
    ensures var p, from := PageOf(items, page), 100 * (page - 1);
      && from + |p.data| <= |items| && p.data == items[from..from + |p.data|]
      && (p.data == [] || page >= p.last <==> from + |p.data| == |items|)
      && (from + |p.data| < |items| ==> |p.data| == 100)
  {
  }

  lemma PageContinues<T>(items: seq<T>, page: nat)
    requires 0 < page <= PagesToRead(|items|)
    ensures items[..Min((page - 1) * PER_PAGE, |items|)] + PageOf(items, page).data
            == items[..Min(page * PER_PAGE, |items|)]
    ensures (PageOf(items, page).data == [] || page >= PageOf(items, page).last) <==> page == PagesToRead(|items|)
    ensures page == PagesToRead(|items|) ==> Min(page * PER_PAGE, |items|) == |items|
  {
  }

  // ----- the client -----

  datatype Request<T> = Request(page: nat, response: Response<T>)

  /** The requests made for one page. */
  ghost predicate Tries<T>(requests: seq<Request<T>>, page: nat) {
    && 0 < |requests| <= 11
    && (forall r | r in requests :: r.page == page)
    && forall i | 0 <= i < |requests| - 1 :: requests[i].response.Refused? && !Permanent(requests[i].response.failure)
  }

  /** A client of a server that holds `items` throughout. Any request may fail, and the context may end at any time. */
  class Client<T> {
    const items: seq<T>
    var contextEnded: bool
    var slept: nat
    ghost var requests: seq<Request<T>>

    constructor (items: seq<T>)
      ensures this.items == items && requests == []
    {
      this.items := items;
      contextEnded, slept, requests := false, 0, [];
    }

    method DoOnce(page: nat) returns (response: Response<T>)
      requires page > 0
      modifies `requests, `contextEnded
      ensures old(contextEnded) ==> contextEnded
      ensures requests == old(requests) + [Request(page, response)]
      ensures response.Answered? ==> response.page == PageOf(items, page)
    {
      var answered: bool, ended: bool := *, *;
      contextEnded := contextEnded || ended;
      if answered {
        response := Answered(PageOf(items, page));
      } else {
        var failure: Failure := *;
        response := Refused(failure);
      }
      requests := requests + [Request(page, response)];
    }

    /** Waits for the whole duration, unless the context ends first. */
    method Wait(duration: nat) returns (cancelled: bool)
      modifies `slept, `contextEnded
      ensures old(contextEnded) ==> contextEnded
      ensures cancelled ==> contextEnded && old(slept) <= slept <= old(slept) + duration
      ensures !cancelled ==> slept == old(slept) + duration
    {
      cancelled := *;
      var elapsed: int := *;
      if cancelled {
        contextEnded := true;
        slept := slept + if 0 <= elapsed <= duration then elapsed else 0;
      } else {
        slept := slept + duration;
      }
    }

    /** One page with retries. `tries` are the requests made for it. */
    method DoRead(page: nat) returns (r: ReadResult<T>, ghost tries: seq<Request<T>>)
      requires page > 0
      modifies this
      ensures requests == old(requests) + tries && Tries(tries, page)
      ensures r.Got? ==> r.page == PageOf(items, page) && tries[|tries| - 1].response == Answered(r.page)
      ensures r.Got? <==> tries[|tries| - 1].response.Answered?
      ensures r.Failed? ==> tries[|tries| - 1].response == Refused(r.failure)
                            && (contextEnded || Permanent(r.failure) || |tries| == 11)
      ensures r.Cancelled? ==> contextEnded && |tries| <= 10 && !Permanent(tries[|tries| - 1].response.failure)
      ensures if r.Cancelled? then Backoff(|tries| - 1) <= slept - old(slept) <= Backoff(|tries|)
              else slept - old(slept) == Backoff(|tries| - 1)
    {
      tries := [];
      var retries := 0;
      while true
        invariant 0 <= retries <= MAX_RETRIES && |tries| == retries
        invariant requests == old(requests) + tries
        invariant slept == old(slept) + Backoff(retries)
        invariant forall t | t in tries :: t.page == page && t.response.Refused? && !Permanent(t.response.failure)
        decreases MAX_RETRIES - retries
      {
        var response := DoOnce(page);
        tries := tries + [Request(page, response)];
        if response.Answered? { return Got(response.page), tries; }
        if contextEnded { return Failed(response.failure), tries; }
        RetryableMeans(response.failure);
        if !Retryable(response.failure) { return Failed(response.failure), tries; }
        if retries >= MAX_RETRIES { return Failed(response.failure), tries; }
        var cancelled := Wait(Delay(retries));
        if cancelled { return Cancelled, tries; }
        retries := retries + 1;
      }
    }

    /** One page, recorded among the requests made since `began`. */
    method ReadNext(page: nat, ghost began: seq<Request<T>>) returns (r: ReadResult<T>)
      requires page > 0 && began <= requests && Passes(requests[|began|..], page - 1)
      modifies this
      ensures began <= requests && Passes(requests[|began|..], page)
      ensures r.Got? ==> r.page == PageOf(items, page)
      ensures requests != [] && (r.Got? <==> requests[|requests| - 1].response.Answered?)
      ensures slept <= old(slept) + 9500
    {
      ghost var tries, before := [], requests;
      r, tries := DoRead(page);
      PassesContinue(began, before, tries, page - 1);
      BackoffFormula(|tries| - 1);
      BackoffFormula(|tries|);
    }

    /** The whole collection in order, or an error; every page is read once, from the first to the last. */
    method ListAll() returns (r: ListResult<T>, ghost pages: nat)
      modifies this
      ensures r.Listed? ==> r.all == items && |items| <= 100 * pages
      ensures 0 < pages && (pages == 1 || 100 * (pages - 1) < |items|)
      ensures old(requests) <= requests && Passes(requests[|old(requests)|..], pages)
      ensures r.Listed? <==> requests[|requests| - 1].response.Answered?
      ensures slept <= old(slept) + 9500 * pages
    {
      var out: seq<T> := [];
      var page := 1;
      pages := 0;
      while true
        invariant page == pages + 1 <= PagesToRead(|items|)
        invariant out == items[..Min(pages * PER_PAGE, |items|)]
        invariant old(requests) <= requests && Passes(requests[|old(requests)|..], pages)
        invariant slept <= old(slept) + 9500 * pages
        decreases PagesToRead(|items|) - page
      {
        var result := ReadNext(page, old(requests));
        pages := page;
        if !result.Got? { return ListFailed, pages; }
        PageContinues(items, page);
        out := out + result.page.data;
        if |result.page.data| == 0 || page >= result.page.last { return Listed(out), pages; }
        page := page + 1;
      }
    }
  }

  /** Requests that read the pages 1 to n in order, each with its retries. */
  ghost predicate Passes<T>(requests: seq<Request<T>>, n: nat)
    decreases n
  {
    if n == 0 then requests == []
    else exists k: nat :: k <= |requests| && Passes(requests[..k], n - 1) && Tries(requests[k..], n)
  }

  lemma PassesExtend<T>(before: seq<Request<T>>, tries: seq<Request<T>>, n: nat)
    requires Passes(before, n) && Tries(tries, n + 1)
    ensures Passes(before + tries, n + 1)
  {
    var all := before + tries;
    assert all[..|before|] == before && all[|before|..] == tries;
  }

  lemma PassesContinue<T>(began: seq<Request<T>>, before: seq<Request<T>>, tries: seq<Request<T>>, n: nat)
    requires began <= before && Passes(before[|began|..], n) && Tries(tries, n + 1)
    ensures began <= before + tries && Passes((before + tries)[|began|..], n + 1)
    ensures (before + tries)[|before + tries| - 1] == tries[|tries| - 1]
  {
    assert (before + tries)[|began|..] == before[|began|..] + tries;
    PassesExtend(before[|began|..], tries, n);
  }

  /** Every page costs at most eleven requests. */
  lemma {:induction false} PassesBounded<T>(requests: seq<Request<T>>, n: nat)
    requires Passes(requests, n)
    decreases n
    ensures n <= |requests| <= 11 * n
  {
    if n != 0 {
      var k: nat :| k <= |requests| && Passes(requests[..k], n - 1) && Tries(requests[k..], n);
      PassesBounded(requests[..k], n - 1);
    }
  }
}
