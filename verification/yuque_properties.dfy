/**
 * What the operations of the Yuque document service promise across calls: the user cache,
 * the order and filtering of the repository list, the one-time outline cache, which failures
 * surface, and the requests `createDocument` issues.
 */
module YuqueProperties {
  import opened Wrappers
  import opened Text
  import opened Remote
  import opened Toc
  import opened Pagination
  import opened Yuque

  // ---------------------------------------------------------------------------------------
  // The user cache

  /** Once `getUserInfo` has succeeded, asking again issues no request, whatever the API
      would answer now, and returns the same profile. */
  lemma GetUserInfoCached(s: Service, api1: Api, api2: Api)
    requires GetUserInfo(s, api1).outcome.Returned?
    ensures var c1 := GetUserInfo(s, api1);
            var c2 := GetUserInfo(c1.after, api2);
            c2.after == c1.after && c2.trace == [] && c2.outcome == c1.outcome
  {
  }

  /** A cached user is never fetched again nor replaced by `getRepositories` ... */
  lemma CachedUserKeptByListing(s: Service, api: Api, fuel: nat)
    requires s.userInfo.Some?
    ensures var c := GetRepositories(s, api, fuel);
            c.after.userInfo == s.userInfo && GetUser !in c.trace
  {
    var c := GetRepositories(s, api, fuel);
    var a := OwnRepositories(s, api);
    TraceKinds(s, api, fuel);
    if a.outcome.Returned? {
      var b := GroupRepositories(a.after, api);
      assert b.after == s;
      NotInExtension(GetUser, a.trace + b.trace, c.trace);
    } else {
      assert c.trace == a.trace;
    }
  }

  /** An element missing from a prefix and from every later position is missing. */
  lemma NotInExtension(x: Request, prefix: seq<Request>, s: seq<Request>)
    requires prefix <= s && x !in prefix
    requires forall i :: |prefix| <= i < |s| ==> s[i].GetToc?
    requires !x.GetToc?
    ensures x !in s
  {
    forall i | 0 <= i < |s|
      ensures s[i] != x
    {
      if i < |prefix| {
        assert s[i] == prefix[i];
      }
    }
  }

  /** ... nor by `createDocument`, which then leaves the service as it was. */
  lemma CachedUserKeptByPublishing(s: Service, api: Api, info: DocumentRequest, generated: string)
    requires s.userInfo.Some?
    ensures var c := CreateDocument(s, api, info, generated);
            c.after == s && GetUser !in c.trace
  {
  }

  // ---------------------------------------------------------------------------------------
  // The repository list

  /** The list `getRepositories` should assemble for a service of type `t` and user `u`:
      the user's own repositories unless the type is `group`, then those of every group in
      the order the API listed the groups unless the type is `self`. */
  function ExpectedRepositories(t: RepositoryType, u: UserInfoResponse, api: Api): seq<Repository>
    requires t != Self ==> api.groups.Ok?
  {
    (if t != Group then OwnListing(u, api).repos else [])
    + (if t != Self then GroupListings(api.groups.value, api).repos else [])
  }

  /** A successful `getRepositories` leaves the user cached, the assembled list in
      `repositories`, and returns that list in the same order without namespaces. */
  lemma GetRepositoriesLists(s: Service, api: Api, fuel: nat)
    requires GetRepositories(s, api, fuel).outcome.Returned?
    ensures var c := GetRepositories(s, api, fuel);
            && c.after.userInfo.Some?
            && (s.userInfo.Some? ==> c.after.userInfo == s.userInfo)
            && (s.config.repositoryType != Self ==> api.groups.Ok?)
            && c.after.repositories == ExpectedRepositories(s.config.repositoryType, c.after.userInfo.value, api)
            && c.outcome.value == Views(c.after.repositories)
  {
    var a := OwnRepositories(s, api);
    var b := GroupRepositories(a.after, api);
    assert a.after.config == s.config;
  }

  /** The group listings run group after group, in the order the API gave the groups: the
      listing of a split group list is the two halves' listings, repositories and requests
      alike, one after the other ... */
  lemma {:induction false} GroupListingsAppend(gs1: seq<GroupResponse>, gs2: seq<GroupResponse>, api: Api)
    ensures GroupListings(gs1 + gs2, api).repos == GroupListings(gs1, api).repos + GroupListings(gs2, api).repos
    ensures GroupListings(gs1 + gs2, api).trace == GroupListings(gs1, api).trace + GroupListings(gs2, api).trace
    decreases |gs1|
  {
    if gs1 == [] {
      assert gs1 + gs2 == gs2;
      GroupListingsNone(api);
      LeftUnit(GroupListings(gs2, api).repos);
      LeftUnit(GroupListings(gs2, api).trace);
    } else {
      var all := gs1 + gs2;
      assert all[0] == gs1[0];
      assert all[1..] == gs1[1..] + gs2;
      GroupListingsAppend(gs1[1..], gs2, api);
      GroupListingsCons(all, api);
      GroupListingsCons(gs1, api);
      var first := GroupListing(gs1[0], api);
      var tail := GroupListings(gs1[1..], api);
      var right := GroupListings(gs2, api);
      ConcatAssociates(first.repos, tail.repos, right.repos);
      ConcatAssociates(first.trace, tail.trace, right.trace);
    }
  }

  lemma GroupListingsNone(api: Api)
    ensures GroupListings([], api) == Listing([], [])
  {
  }

  lemma LeftUnit<T>(a: seq<T>)
    ensures [] + a == a
  {
  }

  lemma ConcatAssociates<T>(a: seq<T>, b: seq<T>, c: seq<T>)
    ensures a + (b + c) == (a + b) + c
  {
  }

  lemma GroupListingsCons(gs: seq<GroupResponse>, api: Api)
    requires gs != []
    ensures GroupListings(gs, api).repos == GroupListing(gs[0], api).repos + GroupListings(gs[1..], api).repos
    ensures GroupListings(gs, api).trace == GroupListing(gs[0], api).trace + GroupListings(gs[1..], api).trace
  {
  }

  /** ... and a single group's part is that group's own listing. */
  lemma GroupListingsSingle(g: GroupResponse, api: Api)
    ensures GroupListings([g], api) == GroupListing(g, api)
  {
    assert [g][1..] == [];
  }

  /** Dropping the namespace is all the returned view does: two repositories look the same
      exactly when they differ at most in their namespace. */
  lemma ViewDropsOnlyNamespace(r1: Repository, r2: Repository)
    ensures ViewOf(r1) == ViewOf(r2) <==> r1.(namespace := r2.namespace) == r2
  {
  }

  /** A `self` service asks nothing about groups. */
  lemma SelfAsksNoGroups(s: Service, api: Api, fuel: nat)
    requires s.config.repositoryType == Self
    ensures var c := GetRepositories(s, api, fuel);
            forall i :: 0 <= i < |c.trace| ==> !GroupRequest(c.trace[i])
  {
    TraceKinds(s, api, fuel);
    var a := OwnRepositories(s, api);
    if a.outcome.Returned? {
      assert GroupRepositories(a.after, api).trace == [];
    }
  }

  /** A `group` service lists no personal repositories. */
  lemma GroupAsksNoPersonalPages(s: Service, api: Api, fuel: nat)
    requires s.config.repositoryType == Group
    ensures var c := GetRepositories(s, api, fuel);
            forall i :: 0 <= i < |c.trace| ==> !PersonalPage(c.trace[i])
  {
    TraceKinds(s, api, fuel);
    assert OwnRepositories(s, api).trace == [];
  }

  /** The requests of `getRepositories` come in three runs: the personal part, the group
      part, the outline fetches. */
  lemma TraceKinds(s: Service, api: Api, fuel: nat)
    ensures var c := GetRepositories(s, api, fuel);
            var a := OwnRepositories(s, api);
            && a.trace <= c.trace
            && (a.outcome.Returned? ==>
                  var b := GroupRepositories(a.after, api);
                  && a.trace + b.trace <= c.trace
                  && forall i :: |a.trace + b.trace| <= i < |c.trace| ==> c.trace[i].GetToc?)
  {
    var a := OwnRepositories(s, api);
    if a.outcome.Returned? {
      var b := GroupRepositories(a.after, api);
      TraceAfterListing(s, api, fuel, a, b);
    }
  }

  /** The tail of the trace once both listings are done. */
  lemma TraceAfterListing(s: Service, api: Api, fuel: nat, a: Call<seq<Repository>>, b: Call<seq<Repository>>)
    requires a == OwnRepositories(s, api) && a.outcome.Returned?
    requires b == GroupRepositories(a.after, api)
    ensures var c := GetRepositories(s, api, fuel);
            && a.trace + b.trace <= c.trace
            && forall i :: |a.trace + b.trace| <= i < |c.trace| ==> c.trace[i].GetToc?
  {
    var c := GetRepositories(s, api, fuel);
    if b.outcome.Returned? && a.after.tocs.None? {
      var t := BuildTocs(a.outcome.value + b.outcome.value, api, fuel);
      assert c.trace == (a.trace + b.trace) + t.trace;
      forall i | |a.trace + b.trace| <= i < |c.trace|
        ensures c.trace[i].GetToc?
      {
        assert c.trace[i] == t.trace[i - |a.trace + b.trace|];
      }
    }
  }

  // ---------------------------------------------------------------------------------------
  // The outline cache

  /** Once `tocs` is set, `getRepositories` leaves it as it is and fetches no outline, even
      though it replaces `repositories`. */
  lemma TocsBuiltOnce(s: Service, api: Api, fuel: nat)
    requires s.tocs.Some?
    ensures var c := GetRepositories(s, api, fuel);
            c.after.tocs == s.tocs && forall i :: 0 <= i < |c.trace| ==> !c.trace[i].GetToc?
  {
    var a := OwnRepositories(s, api);
    if a.outcome.Returned? {
      var b := GroupRepositories(a.after, api);
      assert b.after.tocs == s.tocs;
    }
  }

  /** The first successful `getRepositories` builds one outline per repository, in order,
      each rooted at the repository's id and built from that repository's outline listing. */
  lemma TocsPerRepository(s: Service, api: Api, fuel: nat)
    requires s.tocs.None?
    requires GetRepositories(s, api, fuel).outcome.Returned?
    ensures var c := GetRepositories(s, api, fuel);
            && c.after.tocs.Some?
            && |c.after.tocs.value| == |c.after.repositories|
            && forall i :: 0 <= i < |c.after.repositories| ==>
                 var r := c.after.repositories[i];
                 && c.after.tocs.value[i].root == r.id
                 && api.toc(r.id).Ok?
                 && TocInfo(r.id, r.name, api.toc(r.id).value, fuel) == Some(c.after.tocs.value[i])
  {
    var a := OwnRepositories(s, api);
    var b := GroupRepositories(a.after, api);
    assert b.after.tocs.None?;
    var response := a.outcome.value + b.outcome.value;
    var t := BuildTocs(response, api, fuel);
    assert t.outcome.Returned?;
  }

  /** When an outline fetch fails, `tocs` keeps the outlines built before it — fewer than
      there are repositories — and no later `getRepositories` completes it. */
  lemma PartialTocsStay(s: Service, api1: Api, api2: Api, fuel1: nat, fuel2: nat)
    requires s.tocs.None?
    requires GetRepositories(s, api1, fuel1).outcome.Threw?
    requires GetRepositories(s, api1, fuel1).after.tocs.Some?
    ensures var c1 := GetRepositories(s, api1, fuel1);
            && |c1.after.tocs.value| < |c1.after.repositories|
            && GetRepositories(c1.after, api2, fuel2).after.tocs == c1.after.tocs
  {
    var c1 := GetRepositories(s, api1, fuel1);
    var a := OwnRepositories(s, api1);
    var b := GroupRepositories(a.after, api1);
    assert b.after.tocs.None?;
    TocsBuiltOnce(c1.after, api2, fuel2);
  }

  // ---------------------------------------------------------------------------------------
  // Which failures surface

  /** `getRepositories` throws only what the user fetch, the group fetch or an outline fetch
      threw: a failed page of a listing never surfaces. */
  lemma OnlyUserGroupOrOutlineFailuresThrow(s: Service, api: Api, fuel: nat)
    requires GetRepositories(s, api, fuel).outcome.Threw?
    ensures var c := GetRepositories(s, api, fuel);
            var e := c.outcome.error;
            || (api.user.Fail? && e == RequestFailed(api.user.failure))
            || (api.groups.Fail? && e == RequestFailed(api.groups.failure))
            || (exists r :: r in c.after.repositories && api.toc(r.id).Fail? && e == RequestFailed(api.toc(r.id).failure))
  {
    var c := GetRepositories(s, api, fuel);
    var a := OwnRepositories(s, api);
    if a.outcome.Returned? {
      var b := GroupRepositories(a.after, api);
      if b.outcome.Returned? && a.after.tocs.None? {
        var response := a.outcome.value + b.outcome.value;
        var t := BuildTocs(response, api, fuel);
        assert c.after.repositories == response;
        assert response[|t.built|] in c.after.repositories;
      }
    }
  }

  // ---------------------------------------------------------------------------------------
  // Publishing

  /** The user is available to an operation when cached or when the API hands it out. */
  predicate UserAvailable(s: Service, api: Api)
  {
    s.userInfo.Some? || api.user.Ok?
  }

  /** `createDocument` succeeds exactly when the user is available, the repository id is
      one of the cached repositories, and both the create and the move are accepted. */
  lemma CreateDocumentSucceeds(s: Service, api: Api, info: DocumentRequest, generated: string)
    ensures CreateDocument(s, api, info, generated).outcome.Returned?
            <==> UserAvailable(s, api) && FindRepository(s.repositories, info.repositoryId).Some?
                 && api.created.Ok? && api.moved.Ok?
  {
  }

  /** An unknown repository id is rejected before the create or the move is issued; the only
      request that can precede the rejection is the user fetch. */
  lemma UnknownRepositoryRejected(s: Service, api: Api, info: DocumentRequest, generated: string)
    requires forall j :: 0 <= j < |s.repositories| ==> s.repositories[j].id != info.repositoryId
    ensures var c := CreateDocument(s, api, info, generated);
            && c.outcome.Threw?
            && c.trace == EnsureUser(s, api).trace
            && (forall i :: 0 <= i < |c.trace| ==> !PublishRequest(c.trace[i]))
            && (UserAvailable(s, api) ==> c.outcome.error == IllegalRepositoryId)
  {
  }

  /** A missing user is fetched, and its failure reported, before the repository id is
      looked at. */
  lemma UserFetchedBeforeValidation(s: Service, api: Api, info: DocumentRequest, generated: string)
    requires s.userInfo.None? && api.user.Fail?
    ensures CreateDocument(s, api, info, generated) == Call(s, [GetUser], Threw(RequestFailed(api.user.failure)))
  {
  }

  /** A successful `createDocument` issues the create, then the move, for the requested
      repository: a private document with the requested or generated slug, moved by its id
      under the path's heading. The result links the first repository with that id and the
      created slug, and its document id reads back as the created id. */
  lemma CreateDocumentPublishes(s: Service, api: Api, info: DocumentRequest, generated: string)
    requires CreateDocument(s, api, info, generated).outcome.Returned?
    ensures var c := CreateDocument(s, api, info, generated);
            && api.created.Ok? && api.moved.Ok?
            && FindRepository(s.repositories, info.repositoryId).Some?
            && var repo := s.repositories[FindRepository(s.repositories, info.repositoryId).value];
               var data := api.created.value;
               && c.trace == EnsureUser(s, api).trace
                             + [PostDoc(info.repositoryId, CreateBody(info.title, DocumentSlug(info.slug, generated), info.content, true)),
                                PutToc(info.repositoryId, MoveBody(AppendByDocs, [data.id], ParentUid(info.path)))]
               && c.outcome.value.href == Host + "/" + repo.namespace + "/" + data.slug
               && ParseInt(c.outcome.value.documentId) == data.id
  {
    var data := api.created.value;
    ParseIntToString(data.id);
  }

  /** A rejected move is reported as the plain request failure although the document was
      already created: the last two requests are the accepted create and the rejected move. */
  lemma MoveRejectionPropagates(s: Service, api: Api, info: DocumentRequest, generated: string)
    requires UserAvailable(s, api) && FindRepository(s.repositories, info.repositoryId).Some?
    requires api.created.Ok? && api.moved.Fail?
    ensures var c := CreateDocument(s, api, info, generated);
            && c.outcome == Threw(RequestFailed(api.moved.failure))
            && |c.trace| >= 2
            && c.trace[|c.trace| - 2] == PostDoc(info.repositoryId, CreateBodyOf(info, generated))
            && c.trace[|c.trace| - 1] == PutToc(info.repositoryId, MoveBodyOf(info, api.created.value.id))
  {
  }
}
