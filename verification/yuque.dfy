/**
 * The Yuque document service: its cached state (the user, the repository list, the outlines)
 * and the operations on it — `getUserInfo`, `getRepositories` and `createDocument`.
 *
 * Every operation takes the service state and the remote API's answers and returns a `Call`:
 * the state afterwards, the requests issued in order, and how the operation ended. State
 * written before a failure stays written, as it does on the JavaScript object.
 */
module Yuque {
  import opened Wrappers
  import opened Text
  import opened Remote
  import opened Toc
  import opened Pagination

  const Host: string := "https://www.yuque.com"

  /** The `move` action that files a new document under a heading. */
  const AppendByDocs: string := "appendByDocs"

  datatype RepositoryType = All | Self | Group

  datatype Config = Config(accessToken: string, repositoryType: RepositoryType)

  datatype UserInfoResponse = UserInfoResponse(id: int, name: string, login: string, avatarUrl: string, description: string)

  datatype GroupResponse = GroupResponse(id: int, name: string)

  datatype CreatedResponse = CreatedResponse(id: int, slug: string)

  /** The fields of the service object. `tocs` is `None` while it is `undefined`. */
  datatype Service = Service(config: Config, userInfo: Option<UserInfoResponse>,
                             repositories: seq<Repository>, tocs: Option<seq<Outline>>)

  /** The remote API's answers: one per kind of request, page listings per owner, outline
      listings per book. */
  datatype Api = Api(
    user: Reply<UserInfoResponse>,
    groups: Reply<seq<GroupResponse>>,
    listing: (bool, string) -> seq<PageResponse>,
    toc: string -> Reply<seq<TocEntry>>,
    created: Reply<CreatedResponse>,
    moved: Reply<()>)

  datatype Error = IllegalRepositoryId | RequestFailed(failure: Failure)

  /** How an operation ended; `Hangs` when an outline expansion did not finish within the
      fuel given to the call (with `Toc.RunMoreFuel`, no larger fuel changes a finished
      outline; `Toc.LoopingListingHangs` gives a listing for which no fuel suffices). */
  datatype Outcome<T> = Returned(value: T) | Threw(error: Error) | Hangs

  datatype Call<T> = Call(after: Service, trace: seq<Request>, outcome: Outcome<T>)

  /** An unsuccessful outcome, passed on to a caller expecting another result type. */
  function Rethrow<T, U>(o: Outcome<T>): (r: Outcome<U>)
    requires !o.Returned?
    ensures r.Threw? <==> o.Threw?
    ensures r.Threw? ==> r.error == o.error
  {
    if o.Threw? then Threw(o.error) else Hangs
  }

  /** The constructor: repository type defaults to `all`; nothing cached, no outlines. */
  function New(accessToken: string, repositoryType: Option<RepositoryType>): (s: Service)
    ensures s.config.accessToken == accessToken
    ensures repositoryType.Some? ==> s.config.repositoryType == repositoryType.value
    ensures repositoryType.None? ==> s.config.repositoryType == All
    ensures s.userInfo.None? && s.repositories == [] && s.tocs.None?
  {
    Service(Config(accessToken, repositoryType.GetOr(All)), None, [], None)
  }

  // ---------------------------------------------------------------------------------------
  // The user

  /** `if (!this.userInfo) this.userInfo = await this.getYuqueUserInfo()`: the user is fetched
      at most once and then served from the cache; nothing but the cache changes. */
  function EnsureUser(s: Service, api: Api): (c: Call<UserInfoResponse>)
    ensures c.after == s.(userInfo := c.after.userInfo)
    ensures c.outcome.Returned? <==> c.after.userInfo.Some?
    ensures c.outcome.Returned? ==> c.after.userInfo == Some(c.outcome.value)
    ensures s.userInfo.Some? ==> c.after == s && c.trace == []
    ensures s.userInfo.None? ==> c.trace == [GetUser]
    ensures c.outcome.Returned? && s.userInfo.None? ==> api.user == Ok(c.outcome.value)
    ensures c.outcome.Threw? ==> api.user.Fail? && c.outcome.error == RequestFailed(api.user.failure)
    ensures !c.outcome.Hangs?
  {
    if s.userInfo.Some? then Call(s, [], Returned(s.userInfo.value))
    else match api.user
      case Ok(u) => Call(s.(userInfo := Some(u)), [GetUser], Returned(u))
      case Fail(f) => Call(s, [GetUser], Threw(RequestFailed(f)))
  }

  datatype UserView = UserView(avatar: string, name: string, homePage: string, description: string, login: string)

  function HomePage(login: string): string
  {
    Host + "/" + login
  }

  /** The profile `getUserInfo` returns for a fetched user. */
  function UserViewOf(u: UserInfoResponse): UserView
  {
    UserView(u.avatarUrl, u.name, HomePage(u.login), u.description, u.login)
  }

  /** `getUserInfo`: the cached (or freshly fetched) user as a profile whose home page is
      the user's page on the host. */
  function GetUserInfo(s: Service, api: Api): (c: Call<UserView>)
    ensures c.after == EnsureUser(s, api).after && c.trace == EnsureUser(s, api).trace
    ensures c.outcome.Returned? <==> c.after.userInfo.Some?
    ensures c.outcome.Returned? ==> c.outcome.value == UserViewOf(c.after.userInfo.value)
    ensures c.outcome.Returned? ==> c.outcome.value.homePage == Host + "/" + c.outcome.value.login
    ensures c.outcome.Threw? ==> api.user.Fail? && c.outcome.error == RequestFailed(api.user.failure)
  {
    var u := EnsureUser(s, api);
    Call(u.after, u.trace, if u.outcome.Returned? then Returned(UserViewOf(u.outcome.value)) else Rethrow(u.outcome))
  }

  // ---------------------------------------------------------------------------------------
  // Repositories

  function OwnListing(u: UserInfoResponse, api: Api): Listing
  {
    AllRepositories(false, u.id, u.name, api.listing(false, IntToString(u.id)))
  }

  function GroupListing(g: GroupResponse, api: Api): Listing
  {
    AllRepositories(true, g.id, g.name, api.listing(true, IntToString(g.id)))
  }

  function GroupIds(groups: seq<GroupResponse>): set<string>
  {
    set g | g in groups :: IntToString(g.id)
  }

  /** Predicates on the requests of a trace. */
  predicate PersonalPage(r: Request) { r.GetRepos? && !r.isGroup }
  predicate GroupRequest(r: Request) { r.GetGroups? || (r.GetRepos? && r.isGroup) }
  predicate PublishRequest(r: Request) { r.PostDoc? || r.PutToc? }

  /** The listings of the groups, one after the other in the order the API gave the groups:
      only group pages are requested, and every repository belongs to one of the groups. */
  function GroupListings(groups: seq<GroupResponse>, api: Api): (l: Listing)
    ensures forall i :: 0 <= i < |l.repos| ==> l.repos[i].groupId in GroupIds(groups)
    ensures forall i :: 0 <= i < |l.trace| ==> l.trace[i].GetRepos? && l.trace[i].isGroup
    ensures PlainIds(l.repos)
  {
    if groups == [] then Listing([], [])
    else
      var first := GroupListing(groups[0], api);
      var rest := GroupListings(groups[1..], api);
      assert forall i :: 0 <= i < |rest.repos| ==> rest.repos[i].groupId in GroupIds(groups) by {
        assert forall g :: g in groups[1..] ==> g in groups;
      }
      Listing(first.repos + rest.repos, first.trace + rest.trace)
  }

  /** The personal part of `getRepositories`: none for a `group` service, otherwise the
      listing of the (cached or fetched) user. */
  function OwnRepositories(s: Service, api: Api): (c: Call<seq<Repository>>)
    ensures c.after == s.(userInfo := c.after.userInfo)
    ensures s.userInfo.Some? ==> c.after == s
    ensures !c.outcome.Hangs?
    ensures c.outcome.Threw? ==> api.user.Fail? && c.outcome.error == RequestFailed(api.user.failure)
    ensures s.config.repositoryType == Group ==> c == Call(s, [], Returned([]))
    ensures s.config.repositoryType != Group && c.outcome.Returned? ==>
              c.after.userInfo.Some? && c.outcome.value == OwnListing(c.after.userInfo.value, api).repos
    ensures forall i :: 0 <= i < |c.trace| ==> c.trace[i] == GetUser || PersonalPage(c.trace[i])
    ensures s.userInfo.Some? ==> GetUser !in c.trace
  {
    if s.config.repositoryType == Group then Call(s, [], Returned([]))
    else
      var u := EnsureUser(s, api);
      if !u.outcome.Returned? then Call(u.after, u.trace, Rethrow(u.outcome))
      else
        var l := OwnListing(u.outcome.value, api);
        Call(u.after, u.trace + l.trace, Returned(l.repos))
  }

  /** The group part of `getRepositories`: none for a `self` service, otherwise the user's
      groups (`getUserGroups`), each listed in turn. */
  function GroupRepositories(s: Service, api: Api): (c: Call<seq<Repository>>)
    ensures c.after == s.(userInfo := c.after.userInfo)
    ensures s.userInfo.Some? ==> c.after == s
    ensures !c.outcome.Hangs?
    ensures c.outcome.Threw? ==>
              (api.user.Fail? && c.outcome.error == RequestFailed(api.user.failure))
              || (api.groups.Fail? && c.outcome.error == RequestFailed(api.groups.failure))
    ensures s.config.repositoryType == Self ==> c == Call(s, [], Returned([]))
    ensures s.config.repositoryType != Self && c.outcome.Returned? ==>
              c.after.userInfo.Some? && api.groups.Ok?
              && c.outcome.value == GroupListings(api.groups.value, api).repos
    ensures forall i :: 0 <= i < |c.trace| ==> c.trace[i] == GetUser || GroupRequest(c.trace[i])
    ensures s.userInfo.Some? ==> GetUser !in c.trace
  {
    if s.config.repositoryType == Self then Call(s, [], Returned([]))
    else
      var u := EnsureUser(s, api);
      if !u.outcome.Returned? then Call(u.after, u.trace, Rethrow(u.outcome))
      else
        var ask := GetGroups(u.outcome.value.login);
        match api.groups
        case Fail(f) => Call(u.after, u.trace + [ask], Threw(RequestFailed(f)))
        case Ok(gs) =>
          var l := GroupListings(gs, api);
          Call(u.after, u.trace + [ask] + l.trace, Returned(l.repos))
  }

  /** A repository as `getRepositories` returns it: without its namespace. */
  datatype RepositoryView = RepositoryView(id: string, name: string, groupId: string, groupName: string)

  function ViewOf(r: Repository): RepositoryView
  {
    RepositoryView(r.id, r.name, r.groupId, r.groupName)
  }

  /** `response.map(({ namespace, ...rest }) => ({ ...rest }))`. */
  function Views(rs: seq<Repository>): (vs: seq<RepositoryView>)
    ensures |vs| == |rs|
    ensures forall i :: 0 <= i < |rs| ==> vs[i] == ViewOf(rs[i])
  {
    seq(|rs|, i requires 0 <= i < |rs| => ViewOf(rs[i]))
  }

  /** The outlines built so far, the outline requests issued, and how building ended. */
  datatype Tocs = Tocs(built: seq<Outline>, trace: seq<Request>, outcome: Outcome<()>)

  /** The `tocs` loop: one outline per repository, in order, each fetched for the repository's
      id and rooted at it under the repository's name. A failed fetch stops the loop with the
      outlines built so far. */
  function BuildTocs(repos: seq<Repository>, api: Api, fuel: nat): (t: Tocs)
    ensures |t.built| <= |repos|
    ensures t.outcome.Returned? ==> |t.built| == |repos|
    ensures !t.outcome.Returned? ==> |t.built| < |repos|
    ensures |t.trace| == if t.outcome.Returned? then |t.built| else |t.built| + 1
    ensures forall i :: 0 <= i < |t.trace| ==> t.trace[i] == GetToc(repos[i].id)
    ensures forall i :: 0 <= i < |t.built| ==>
              api.toc(repos[i].id).Ok?
              && TocInfo(repos[i].id, repos[i].name, api.toc(repos[i].id).value, fuel) == Some(t.built[i])
    ensures t.outcome.Threw? ==>
              |t.built| < |repos| && api.toc(repos[|t.built|].id).Fail?
              && t.outcome.error == RequestFailed(api.toc(repos[|t.built|].id).failure)
    ensures t.outcome.Hangs? ==>
              |t.built| < |repos| && api.toc(repos[|t.built|].id).Ok?
              && TocInfo(repos[|t.built|].id, repos[|t.built|].name, api.toc(repos[|t.built|].id).value, fuel).None?
  {
    if repos == [] then Tocs([], [], Returned(()))
    else
      var r := repos[0];
      match api.toc(r.id)
      case Fail(f) => Tocs([], [GetToc(r.id)], Threw(RequestFailed(f)))
      case Ok(rows) =>
        match TocInfo(r.id, r.name, rows, fuel)
        case None => Tocs([], [GetToc(r.id)], Hangs)
        case Some(o) =>
          var rest := BuildTocs(repos[1..], api, fuel);
          Tocs([o] + rest.built, [GetToc(r.id)] + rest.trace, rest.outcome)
  }

  /** `getRepositories`: the personal listing, then the group listings; the list replaces
      `repositories`; the outlines are built only while `tocs` is unset; the list is returned
      without namespaces. */
  function GetRepositories(s: Service, api: Api, fuel: nat): (c: Call<seq<RepositoryView>>)
    ensures c.after.config == s.config
    ensures c.outcome.Returned? ==> c.outcome.value == Views(c.after.repositories)
    ensures s.tocs.Some? ==> c.after.tocs == s.tocs
  {
    var a := OwnRepositories(s, api);
    if !a.outcome.Returned? then Call(a.after, a.trace, Rethrow(a.outcome))
    else
      var b := GroupRepositories(a.after, api);
      if !b.outcome.Returned? then Call(b.after, a.trace + b.trace, Rethrow(b.outcome))
      else
        var response := a.outcome.value + b.outcome.value;
        var listed := b.after.(repositories := response);
        if listed.tocs.Some? then Call(listed, a.trace + b.trace, Returned(Views(response)))
        else
          var t := BuildTocs(response, api, fuel);
          Call(listed.(tocs := Some(t.built)), a.trace + b.trace + t.trace,
               if t.outcome.Returned? then Returned(Views(response)) else Rethrow(t.outcome))
  }

  // ---------------------------------------------------------------------------------------
  // Publishing

  datatype DocumentRequest = DocumentRequest(title: string, content: string, repositoryId: string,
                                             path: Option<string>, slug: Option<string>)

  datatype CompleteStatus = CompleteStatus(href: string, repositoryId: string, documentId: string, accessToken: string)

  /** `this.repositories.find(o => o.id === repositoryId)`, as the index of the first match. */
  function FindRepository(repos: seq<Repository>, id: string): (i: Option<nat>)
    ensures i.Some? ==> i.value < |repos| && repos[i.value].id == id
    ensures i.Some? ==> forall j :: 0 <= j < i.value ==> repos[j].id != id
    ensures i.None? <==> forall j :: 0 <= j < |repos| ==> repos[j].id != id
  {
    if repos == [] then None
    else if repos[0].id == id then Some(0)
    else match FindRepository(repos[1..], id)
      case None => None
      case Some(k) => Some(k + 1)
  }

  /** `(path ? path : '|').split('|')[0]`: the heading the document goes under. A missing or
      empty path and a root key give the empty string. */
  function ParentUid(path: Option<string>): (p: string)
    ensures p == Head(path.GetOr(""))
  {
    Head(if path.None? || path.value == "" then [Separator] else path.value)
  }

  /** `info.slug || generateUuid()`: the generated slug is an argument. */
  function DocumentSlug(slug: Option<string>, generated: string): (r: string)
    ensures slug.Some? && slug.value != "" ==> r == slug.value
    ensures slug.None? || slug.value == "" ==> r == generated
  {
    if slug.Some? && slug.value != "" then slug.value else generated
  }

  /** The create request's body: the document is always private, keeps the clipped title
      and content, and takes the requested slug unless it is missing or empty. */
  function CreateBodyOf(info: DocumentRequest, generated: string): (b: CreateBody)
    ensures b.isPrivate
    ensures b.title == info.title && b.body == info.content
    ensures info.slug.Some? && info.slug.value != "" ==> b.slug == info.slug.value
    ensures info.slug.None? || info.slug.value == "" ==> b.slug == generated
  {
    CreateBody(info.title, DocumentSlug(info.slug, generated), info.content, true)
  }

  /** The move request that files document `docId` under the path's heading: it moves that
      one document, appending it, to the path's first `|`-component, which holds no separator. */
  function MoveBodyOf(info: DocumentRequest, docId: int): (m: MoveBody)
    ensures m.action == AppendByDocs && m.docIds == [docId]
    ensures Separator !in m.targetUuid
    ensures m.targetUuid == Head(info.path.GetOr(""))
    ensures info.path.None? ==> m.targetUuid == ""
  {
    MoveBody(AppendByDocs, [docId], ParentUid(info.path))
  }

  /** The result for a created document in a repository with namespace `ns`: the document id
      names the created document and no other, and the account's token and the requested repository are
      passed on. */
  function StatusOf(s: Service, info: DocumentRequest, ns: string, data: CreatedResponse): (st: CompleteStatus)
    ensures forall j :: IntToString(j) == st.documentId <==> j == data.id
    ensures Separator !in st.documentId
    ensures st.accessToken == s.config.accessToken && st.repositoryId == info.repositoryId
    ensures st.href == Host + "/" + ns + "/" + data.slug
  {
    assert forall j :: IntToString(j) == IntToString(data.id) <==> j == data.id by {
      forall j ensures IntToString(j) == IntToString(data.id) <==> j == data.id {
        IntToStringInjective(j, data.id);
      }
    }
    CompleteStatus(Host + "/" + ns + "/" + data.slug, info.repositoryId, IntToString(data.id), s.config.accessToken)
  }

  /** `createDocument`: make sure the user is known, check the repository id against the
      cached list, create the document, then move it under the heading named by the path. */
  function CreateDocument(s: Service, api: Api, info: DocumentRequest, generated: string): (c: Call<CompleteStatus>)
    ensures c.after == s.(userInfo := c.after.userInfo)
    ensures !c.outcome.Hangs?
    ensures c.outcome.Returned? ==> c.outcome.value.accessToken == s.config.accessToken
    ensures c.outcome.Returned? ==> c.outcome.value.repositoryId == info.repositoryId
  {
    var u := EnsureUser(s, api);
    if !u.outcome.Returned? then Call(u.after, u.trace, Rethrow(u.outcome))
    else
      match FindRepository(u.after.repositories, info.repositoryId)
      case None => Call(u.after, u.trace, Threw(IllegalRepositoryId))
      case Some(i) =>
        var post := PostDoc(info.repositoryId, CreateBodyOf(info, generated));
        match api.created
        case Fail(f) => Call(u.after, u.trace + [post], Threw(RequestFailed(f)))
        case Ok(data) =>
          var put := PutToc(info.repositoryId, MoveBodyOf(info, data.id));
          match api.moved
          case Fail(f) => Call(u.after, u.trace + [post, put], Threw(RequestFailed(f)))
          case Ok(_) =>
            Call(u.after, u.trace + [post, put],
                 Returned(StatusOf(s, info, u.after.repositories[i].namespace, data)))
  }
}
