/**
 * Listing the repositories of one owner (`getAllRepositories` over `getYuqueRepositories`):
 * pages of at most 20 records are requested at offsets 0, 20, 40, ... for as long as the last
 * page came back full; a failed page is swallowed and counts as an empty one.
 *
 * A listing is given as the sequence of answers to the page requests, the k-th answer being
 * the one for offset 20 * k; a request past the end of that sequence answers an empty page.
 */
module Pagination {
  import opened Text
  import opened Remote

  /** The page size the loop test assumes. */
  const PageSize: nat := 20

  /** A repository record as the listing endpoints return it. */
  datatype RepositoryResponse = RepositoryResponse(id: int, name: string, namespace: string)

  /** The answer to one page request. */
  datatype PageResponse = Page(items: seq<RepositoryResponse>) | PageFailed(failure: Failure)

  /** A repository as the service keeps it (`YuqueRepository`). */
  datatype Repository = Repository(id: string, name: string, groupId: string, groupName: string, namespace: string)

  /** `getYuqueRepositories`: the page's records, or `[]` when the request failed. A failed
      request is swallowed, and the empty page it becomes is never full. */
  function Received(p: PageResponse): (r: seq<RepositoryResponse>)
    ensures p.Page? ==> r == p.items
    ensures p.PageFailed? ==> r == [] && |r| < PageSize
  {
    match p
    case Page(items) => items
    case PageFailed(_) => []
  }

  /** The records received for the `k`-th page request. */
  function PageAt(pages: seq<PageResponse>, k: nat): seq<RepositoryResponse>
  {
    if k < |pages| then Received(pages[k]) else []
  }

  predicate Full(pages: seq<PageResponse>, k: nat)
  {
    |PageAt(pages, k)| == PageSize
  }

  /** The first page, from `from` on, that does not come back full. */
  function LastPage(pages: seq<PageResponse>, from: nat): (k: nat)
    ensures from <= k
    ensures !Full(pages, k)
    ensures forall j :: from <= j < k ==> Full(pages, j)
    decreases |pages| - from
  {
    if !Full(pages, from) then from else LastPage(pages, from + 1)
  }

  /** The records of the first `n` pages, concatenated in request order. */
  function Fetched(pages: seq<PageResponse>, n: nat): seq<RepositoryResponse>
  {
    if n == 0 then [] else Fetched(pages, n - 1) + PageAt(pages, n - 1)
  }

  /** The first non-full page is the only index with the properties `LastPage` promises. */
  lemma {:induction false} LastPageUnique(pages: seq<PageResponse>, from: nat, k: nat)
    requires from <= k && !Full(pages, k)
    requires forall j :: from <= j < k ==> Full(pages, j)
    ensures LastPage(pages, from) == k
    decreases k - from
  {
    if from < k {
      LastPageUnique(pages, from + 1, k);
    }
  }

  /** The pagination loop as written: fetch offset 0, then keep fetching the next offset while
      `result.length - offset === 20`. Returns the records and the number of requests issued. */
  method FetchListing(pages: seq<PageResponse>) returns (result: seq<RepositoryResponse>, requests: nat)
    ensures requests == LastPage(pages, 0) + 1
    ensures result == Fetched(pages, requests)
    ensures |result| == PageSize * (requests - 1) + |PageAt(pages, requests - 1)|
  {
    var offset := 0;
    result := PageAt(pages, 0);
    requests := 1;
    assert Fetched(pages, 1) == Fetched(pages, 0) + PageAt(pages, 0);
    while |result| - offset == PageSize
      invariant requests >= 1
      invariant offset == PageSize * (requests - 1)
      invariant |result| == offset + |PageAt(pages, requests - 1)|
      invariant result == Fetched(pages, requests)
      invariant forall j :: 0 <= j < requests - 1 ==> Full(pages, j)
      decreases |pages| - requests + 1
    {
      offset := offset + PageSize;
      result := result + PageAt(pages, offset / PageSize);
      requests := requests + 1;
    }
    LastPageUnique(pages, 0, requests - 1);
  }

  /** The number of page requests a listing takes. */
  function RequestCount(pages: seq<PageResponse>): nat
  {
    LastPage(pages, 0) + 1
  }

  /** The page requests of one listing, in order: offsets 0, 20, ... */
  function PageRequests(isGroup: bool, slug: string, n: nat): (rs: seq<Request>)
    ensures |rs| == n
    ensures forall k :: 0 <= k < n ==> rs[k] == GetRepos(isGroup, slug, PageSize * k)
  {
    seq(n, k requires 0 <= k < n => GetRepos(isGroup, slug, PageSize * k))
  }

  /** One record of a listing as the service keeps it: ids stringified, owner attached. */
  function ToRepository(r: RepositoryResponse, groupId: int, groupName: string): Repository
  {
    Repository(IntToString(r.id), r.name, IntToString(groupId), groupName, r.namespace)
  }

  /** The `result.map(...)` of `getAllRepositories`: same length and order; `id` and the
      owner's id stringified; `name`, `namespace` and the owner's name copied. */
  function ToRepositories(rs: seq<RepositoryResponse>, groupId: int, groupName: string): (out: seq<Repository>)
    ensures |out| == |rs|
    ensures forall i :: 0 <= i < |rs| ==>
              && out[i].id == IntToString(rs[i].id)
              && out[i].name == rs[i].name
              && out[i].groupId == IntToString(groupId)
              && out[i].groupName == groupName
              && out[i].namespace == rs[i].namespace
  {
    seq(|rs|, i requires 0 <= i < |rs| => ToRepository(rs[i], groupId, groupName))
  }

  /** Every id is a rendered number, so none carries the key separator. */
  predicate PlainIds(rs: seq<Repository>)
  {
    forall i :: 0 <= i < |rs| ==> Separator !in rs[i].id
  }

  /** What one listing yields: the repositories and the requests issued for them. */
  datatype Listing = Listing(repos: seq<Repository>, trace: seq<Request>)

  /** `getAllRepositories(isGroup, groupId, groupName)` on the answers `pages`. */
  function AllRepositories(isGroup: bool, groupId: int, groupName: string, pages: seq<PageResponse>): (l: Listing)
    ensures PlainIds(l.repos)
  {
    var n := RequestCount(pages);
    Listing(ToRepositories(Fetched(pages, n), groupId, groupName), PageRequests(isGroup, IntToString(groupId), n))
  }

  // ---------------------------------------------------------------------------------------
  // Properties

  /** The concatenation of the first `n` pages, each full but possibly the last. */
  lemma {:induction false} FetchedLength(pages: seq<PageResponse>, n: nat)
    requires n >= 1
    requires forall j :: 0 <= j < n - 1 ==> Full(pages, j)
    ensures |Fetched(pages, n)| == PageSize * (n - 1) + |PageAt(pages, n - 1)|
    decreases n
  {
    if n > 1 {
      FetchedLength(pages, n - 1);
      assert Full(pages, n - 2);
      assert Fetched(pages, n) == Fetched(pages, n - 1) + PageAt(pages, n - 1);
    } else {
      assert Fetched(pages, 1) == Fetched(pages, 0) + PageAt(pages, 0);
    }
  }

  /** Records past the first `n` pages never show up: a longer prefix of pages extends the
      result. */
  lemma {:induction false} FetchedPrefix(pages: seq<PageResponse>, m: nat, n: nat)
    requires m <= n
    ensures Fetched(pages, m) <= Fetched(pages, n)
    decreases n - m
  {
    if m < n {
      FetchedPrefix(pages, m, n - 1);
    }
  }

  /** A page that fails ends its listing without error: when every earlier page was full, the
      listing stops right there, with exactly the records of the earlier pages. */
  lemma FailedPageEndsListing(pages: seq<PageResponse>, k: nat)
    requires k < |pages| && pages[k].PageFailed?
    requires forall j :: 0 <= j < k ==> Full(pages, j)
    ensures RequestCount(pages) == k + 1
    ensures Fetched(pages, RequestCount(pages)) == Fetched(pages, k)
    ensures |Fetched(pages, RequestCount(pages))| == PageSize * k
  {
    LastPageUnique(pages, 0, k);
    assert Fetched(pages, k + 1) == Fetched(pages, k) + [];
    FetchedLength(pages, k + 1);
  }

  /** A listing whose size is an exact multiple of the page size costs one extra request,
      which comes back empty and ends the listing. */
  lemma ExactMultiple(pages: seq<PageResponse>)
    requires forall j :: 0 <= j < |pages| ==> Full(pages, j)
    ensures RequestCount(pages) == |pages| + 1
    ensures |Fetched(pages, RequestCount(pages))| == PageSize * |pages|
  {
    LastPageUnique(pages, 0, |pages|);
    FetchedLength(pages, |pages| + 1);
  }

  /** Twenty, twenty, then five records: three requests, at offsets 0, 20 and 40, and the 45
      records in the order received. */
  lemma ExampleTwentyTwentyFive(a: seq<RepositoryResponse>, b: seq<RepositoryResponse>, c: seq<RepositoryResponse>,
                                isGroup: bool, groupId: int, groupName: string)
    requires |a| == 20 && |b| == 20 && |c| == 5
    ensures var l := AllRepositories(isGroup, groupId, groupName, [Page(a), Page(b), Page(c)]);
            && l.trace == [GetRepos(isGroup, IntToString(groupId), 0),
                           GetRepos(isGroup, IntToString(groupId), 20),
                           GetRepos(isGroup, IntToString(groupId), 40)]
            && l.repos == ToRepositories(a + b + c, groupId, groupName)
            && |l.repos| == 45
  {
    var pages := [Page(a), Page(b), Page(c)];
    assert PageAt(pages, 0) == a && PageAt(pages, 1) == b && PageAt(pages, 2) == c;
    LastPageUnique(pages, 0, 2);
    assert Fetched(pages, 1) == a by { assert Fetched(pages, 1) == Fetched(pages, 0) + a; }
    assert Fetched(pages, 2) == a + b;
    assert Fetched(pages, 3) == a + b + c;
  }

  /** Distinct record ids stay distinct once stringified, so the id lookups of the service
      find the record they were meant to. */
  lemma ToRepositoriesKeepsIdsApart(rs: seq<RepositoryResponse>, groupId: int, groupName: string, i: nat, j: nat)
    requires i < |rs| && j < |rs| && rs[i].id != rs[j].id
    ensures ToRepositories(rs, groupId, groupName)[i].id != ToRepositories(rs, groupId, groupName)[j].id
  {
    IntToStringInjective(rs[i].id, rs[j].id);
  }
}
