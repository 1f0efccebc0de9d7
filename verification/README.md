# Yuque document service — a Dafny model

This project models the Yuque back end of the web clipper. That back end is the service that:

- lists the user's Yuque repositories (personal and group ones);
- builds an outline tree for each repository from its flat table-of-contents listing;
- publishes a clipped page as a new document under a heading chosen in the publishing form.

The form side is modelled too: the slug validation pattern, and the decoding of the selected outline key.

Modules:

- `Wrappers`: `Option`.
- `Text`: splitting at `|` and joining with it (`split('|')[0]`, `split('|')[1]`, `a + '|' + b`). Also `String(n)` for integer ids, with its inverse.
- `Remote`: the boundary with the HTTP API. It holds the request kinds and their bodies, and the `Reply` type (a value or a failure).
- `Toc`: `getYuqueTocInfo` as written, in two phases:
  - the first pass builds the id → node map and the parent → child-id lists;
  - the breadth-first expansion runs over a queue with no visited set.

  The JavaScript object graph is a store `map<string, TocNode>`. A node's children are keys into that store, because the source shares node objects by reference.
- `TocById`: the same builder, except that children are enqueued by id instead of by title. This is the corrected half of the finding below.
- `Pagination`: `getAllRepositories` / `getYuqueRepositories`. A listing is the sequence of answers to its page requests. A request past the end answers an empty page.
- `Yuque`: the service state and its operations: the constructor, `getUserInfo`, `getRepositories` and `createDocument`. Each operation takes the state and the API's answers (`Api`). It returns a `Call`, made of:
  - the state afterwards;
  - the requests issued, in order;
  - the outcome: returned, threw, or hangs.

  State written before a failure stays written, as on the JavaScript object.
- `YuqueProperties`: properties of the operations across calls.
- `HeaderForm`: the slug rule, the picker's `onSelect`, and how the compound key round-trips between the form and `createDocument`.

Two behaviours one might expect of such a service differ from what the code does; the model follows the code:

- The outline tree. A builder meant to nest headings would give root → A → B on the listing A (top level), B (under A). In the code, children are enqueued by the first `|`-component of their title, not by their id. So B is never attached (`Toc.ExampleAsWritten`). This is recorded under Findings.
- Move failures. A document that is created but cannot be moved is not reported as a partially published document: there is no such error in the code. A rejected move after a successful create throws the plain request failure (`YuqueProperties.MoveRejectionPropagates`).

## Model

| member | source | states |
|---|---|---|
| Text.Head | src/common/backend/services/yuque/service.ts:109 | the first separator-delimited component is a prefix of the string, holds no separator, and is followed by a separator when shorter |
| Text.AfterSeparator | src/common/backend/services/yuque/headerForm.tsx:18 | there is a remainder exactly when the string has a separator, and the string is head, separator, remainder |
| Text.Second | src/common/backend/services/yuque/headerForm.tsx:18 | the second component exists exactly when the string holds a separator; it holds no separator, and the string starts with the first component, a separator, then it, up to the next separator or the end of the string |
| Text.SecondOfJoin | src/common/backend/services/yuque/headerForm.tsx:18 | the second component of a, separator, b (a without separator) is the first component of `b` |
| Text.SecondOfJoinIsRight | src/common/backend/services/yuque/service.ts:160 | the second component of a, separator, b (a without separator) gives back `b` if and only if `b` has no separator |
| Text.HeadOfJoin | src/common/backend/services/yuque/service.ts:109 | the first component of a, separator, b gives back `a` when `a` has no separator |
| Text.NatToString | src/common/backend/services/yuque/service.ts:226 | decimal rendering is non-empty, all digits, with no leading zero |
| Text.IntToString | src/common/backend/services/yuque/service.ts:226-228 | a rendered id never contains the key separator |
| Text.ParseNatToString | src/common/backend/services/yuque/service.ts:133 | reading the digits back gives the number |
| Text.ParseIntToString | src/common/backend/services/yuque/service.ts:133 | the rendered id reads back as the id, negative ones included |
| Text.IntToStringInjective | src/common/backend/services/yuque/service.ts:226 | two ids render alike if and only if they are equal |
| Toc.File | src/common/backend/services/yuque/service.ts:152-169 | one row of the first pass adds its id to the node map and its parent key to the child lists only for a TITLE row, and keeps every child reference resolvable |
| Toc.ParentKey | src/common/backend/services/yuque/service.ts:158 | a row is filed under its parent when the parent is truthy; it lands anywhere but under the book only through its own parent, and never under the empty key unless the book id is empty |
| Toc.Collect | src/common/backend/services/yuque/service.ts:141-170 | after the first pass the node keys are the book id plus the TITLE ids, the child-list keys are the parent keys of TITLE rows, and every listed child has a node |
| Toc.CollectNodes | src/common/backend/services/yuque/service.ts:143-163 | first-pass nodes are childless; the root keeps `rootPath` and the root key (separator, book id) unless a TITLE row reuses the book id; every other node holds the title of the last row with its id and the key uuid, separator, book id as value |
| Toc.LastTitleOfRow | src/common/backend/services/yuque/service.ts:159-163 | the title a node keeps belongs to some TITLE row with that id |
| Toc.CollectDepth | src/common/backend/services/yuque/service.ts:158-169 | each child list is exactly the ids of the TITLE rows filed under that key, in listing order; a missing or empty parent files under the book id |
| Toc.ChildIdsFacts | src/common/backend/services/yuque/service.ts:165-169 | child lists name TITLE rows only, and are non-empty exactly for keys some TITLE row is filed under |
| Toc.NoPendingChildren | src/common/backend/services/yuque/service.ts:165-169 | a key no TITLE row is filed under has no child list |
| Toc.Attach | src/common/backend/services/yuque/service.ts:185 | pushing children onto a node adds no node |
| Toc.Visit | src/common/backend/services/yuque/service.ts:174-185 | processing a dequeued key adds no node |
| Toc.Enqueued | src/common/backend/services/yuque/service.ts:183-188 | the inner loop enqueues at most one key per child, and only keys that have a child list |
| Toc.EnqueuedComplete | src/common/backend/services/yuque/service.ts:183-188 | every child whose title head has a child list gets that head enqueued (with `Toc.EnqueuedHeads`, the enqueued keys are exactly those heads) |
| Toc.Run | src/common/backend/services/yuque/service.ts:172-190 | the queue loop adds no node to the store |
| Toc.RunMoreFuel | src/common/backend/services/yuque/service.ts:172-190 | a run that finishes within some number of rounds gives the same store for any larger bound, so running out of rounds only means the bound was too small |
| Toc.ProcessChildren | src/common/backend/services/yuque/service.ts:181-189 | the inner loop appends all pending children to the dequeued node, and enqueues the title heads that name a child list, in order |
| Toc.Expand | src/common/backend/services/yuque/service.ts:172-190 | the queue loop computes exactly the reference run from `[bookId]` (fuel-bounded) |
| Toc.TocInfo | src/common/backend/services/yuque/service.ts:138-193 | the returned store (`maps`, entered at the book id) holds exactly the root and one node per TITLE row id, never any other kind of row; the tree handed to the caller is the part reachable from the root, which need not reach every stored node |
| Toc.TocInfoMoreFuel | src/common/backend/services/yuque/service.ts:138-193 | an outline built within some bound is the outline for every larger bound, and a listing with no outline under a bound has none under any smaller one |
| Toc.GrownVisit | src/common/backend/services/yuque/service.ts:185 | a round only appends (repeats of) a node's pending children to it |
| Toc.RunGrows | src/common/backend/services/yuque/service.ts:172-190 | over a whole run every node only gains copies of its pending children |
| Toc.GrownResolved | src/common/backend/services/yuque/service.ts:182-185 | every child pushed onto a node is itself a node of the map |
| Toc.EnqueuedHeads | src/common/backend/services/yuque/service.ts:183-188 | what a round enqueues is the title head of one of its children, and names a child list |
| Toc.EnqueuedNone | src/common/backend/services/yuque/service.ts:186-188 | children whose title heads name no child list enqueue nothing |
| Toc.RunLeavesUnqueued | src/common/backend/services/yuque/service.ts:172-190 | a node that is not queued and that no title head names is never changed by the run |
| Toc.RunStopsAfterRoot | src/common/backend/services/yuque/service.ts:172-190 | when no child's title head names a child list, the run processes the root alone |
| Toc.OutlineShape | src/common/backend/services/yuque/service.ts:143-163 | in the built tree the root keeps `rootPath` and the root key (unless reused), every other node keeps its title and the key uuid, separator, book id, and every child reference names a node |
| Toc.FirstRound | src/common/backend/services/yuque/service.ts:172-185 | the first round processes the book id and gives the root exactly the rows filed under the book |
| Toc.ChildTitle | src/common/backend/services/yuque/service.ts:182-183 | the title a listed child is looked up by is the title of a TITLE row |
| Toc.NoChildTitleNames | src/common/backend/services/yuque/service.ts:183-186 | a key that is not the first separator-delimited component of any TITLE title is never named by a child's title head |
| Toc.RootChildrenFirst | src/common/backend/services/yuque/service.ts:172-185 | the rows filed under the book (no parent, or the book id as parent) are the first children of the root, in listing order |
| Toc.RootKept | src/common/backend/services/yuque/service.ts:172-190 | after the first round the root node is never changed again unless a child title names it |
| Toc.RootChildrenExact | src/common/backend/services/yuque/service.ts:172-190 | when the book id is not the first separator-delimited component of any TITLE title, the root's children are exactly the rows filed under the book |
| Toc.FlatOutline | src/common/backend/services/yuque/service.ts:183-188 | when no title head names a parent key, the tree is the root with its direct rows, and no deeper node gets children |
| Toc.ExampleRootRows | src/common/backend/services/yuque/service.ts:158 | on the example listing only A is filed under the book |
| Toc.ExampleTitlesNameNoParent | src/common/backend/services/yuque/service.ts:183 | on the example listing no title head names a parent key |
| Toc.ExampleAsWritten | src/common/backend/services/yuque/service.ts:183-188 | on the listing A; B under A; C under an unlisted id, the root gets A and A gets nothing |
| Toc.SelfNamingLoops | src/common/backend/services/yuque/service.ts:172-190 | with no visited set, a key that has a node and, among its pending children, one whose title head is that key, is enqueued again each time it is processed: from any queue holding it the loop never ends |
| Toc.LoopRowsFiled | src/common/backend/services/yuque/service.ts:158-169 | the first pass files heading 1 under the book and heading 2 under 1 |
| Toc.LoopRowsCollected | src/common/backend/services/yuque/service.ts:141-170 | the first pass's node titles and child lists for the looping listing |
| Toc.LoopingRunExhausts | src/common/backend/services/yuque/service.ts:172-190 | on that listing the expansion exhausts any positive bound |
| Toc.NoFuelNoOutline | src/common/backend/services/yuque/service.ts:172-173 | with no fuel, no tree is built |
| Toc.LoopingListingHangs | src/common/backend/services/yuque/service.ts:172-190 | on the listing `LoopRows` (heading 1 at the top, heading 2 under 1 and titled "1"), where the parent of the self-naming heading is itself expanded, `getYuqueTocInfo` builds no outline for any bound: the source loops forever on it |
| TocById.EnqueuedById | src/common/backend/services/yuque/service.ts:183-188 | the id-keyed round enqueues exactly the children that have child lists |
| TocById.TocInfoById | src/common/backend/services/yuque/service.ts:138-193 | the corrected builder has the same node set as the original: root and TITLE rows |
| TocById.ProgressStep | src/common/backend/services/yuque/service.ts:173-189 | one id-keyed round preserves the invariant: nodes resolve, touched nodes carry their pending children first, and attached nodes with pending children are expanded or queued |
| TocById.StepPrefixed | src/common/backend/services/yuque/service.ts:185 | a round keeps every touched node's pending children at the front |
| TocById.StepQueued | src/common/backend/services/yuque/service.ts:183-188 | a round keeps every attached, unexpanded node with pending children on the queue |
| TocById.RunByIdCloses | src/common/backend/services/yuque/service.ts:172-190 | a finished id-keyed run leaves every attached node carrying all its pending children |
| TocById.RunByIdExtends | src/common/backend/services/yuque/service.ts:172-190 | the id-keyed run adds no node and loses no child |
| TocById.StartProgress | src/common/backend/services/yuque/service.ts:143-172 | the invariant holds after the first pass with the book id queued |
| TocById.FirstRoundById | src/common/backend/services/yuque/service.ts:172-185 | the first id-keyed round processes the book id |
| TocById.RunByIdFromRoot | src/common/backend/services/yuque/service.ts:172-190 | from the root, the id-keyed run keeps the root's first-round children and ends closed |
| TocById.OutlineByIdClosed | src/common/backend/services/yuque/service.ts:138-193 | built by id, the root starts with the rows filed under the book, and every attached node with rows under it carries them |
| TocById.TwoRounds | src/common/backend/services/yuque/service.ts:172-190 | a root with one child that has only leaf children is done in two id-keyed rounds |
| TocById.EnqueuedByIdNone | src/common/backend/services/yuque/service.ts:186-188 | leaf children enqueue nothing by id |
| TocById.ExampleDepth | src/common/backend/services/yuque/service.ts:165-169 | the example's child lists: A under the book, B under A, C under 99 |
| TocById.ExampleRunById | src/common/backend/services/yuque/service.ts:172-190 | the id-keyed run on the example processes the root, then A, and stops |
| TocById.ExampleById | src/common/backend/services/yuque/service.ts:138-193 | built by id, the example gives root → A → B |
| TocById.ExampleAsWrittenNotClosed | src/common/backend/services/yuque/service.ts:183 | built as written, the example tree is not closed: A hangs under the root with B filed under it, yet has no child |
| Pagination.LastPage | src/common/backend/services/yuque/service.ts:220 | the stop index is the first page, from the start, that is not full |
| Pagination.LastPageUnique | src/common/backend/services/yuque/service.ts:220 | any index past full pages whose own page is not full is that stop index |
| Pagination.Received | src/common/backend/services/yuque/service.ts:239-246 | a successful page gives its records; a failed request is swallowed as an empty page, which is never full and so ends the listing |
| Pagination.FetchListing | src/common/backend/services/yuque/service.ts:217-223 | the loop issues one request per leading full page plus one, and returns those pages concatenated in order, of length `20 * (requests - 1)` plus the last page's size |
| Pagination.PageRequests | src/common/backend/services/yuque/service.ts:219-222 | the k-th page request asks at offset `20 * k` for the same owner |
| Pagination.ToRepositories | src/common/backend/services/yuque/service.ts:224-232 | the mapping keeps length and order, stringifies the id and the owner id, and copies name, owner name and namespace |
| Pagination.AllRepositories | src/common/backend/services/yuque/service.ts:217-233 | every listed repository id is a rendered number, free of the key separator |
| Pagination.FetchedLength | src/common/backend/services/yuque/service.ts:218-223 | after full pages and one last page, the result holds `20 * (n - 1)` plus the last page's size |
| Pagination.FetchedPrefix | src/common/backend/services/yuque/service.ts:222 | fetching further pages only extends the result |
| Pagination.FailedPageEndsListing | src/common/backend/services/yuque/service.ts:239-246 | a failed page counts as empty: the listing stops there without error, with exactly the earlier pages' records |
| Pagination.ExactMultiple | src/common/backend/services/yuque/service.ts:220-222 | a listing that is an exact multiple of 20 costs one extra, empty request |
| Pagination.ExampleTwentyTwentyFive | src/common/backend/services/yuque/service.ts:217-233 | pages of 20, 20 and 5 give three requests at offsets 0, 20, 40 and 45 repositories in order |
| Pagination.ToRepositoriesKeepsIdsApart | src/common/backend/services/yuque/service.ts:226 | records with distinct ids keep distinct string ids |
| Yuque.New | src/common/backend/services/yuque/service.ts:33-56 | the constructor keeps the token, defaults the type to `all`, and caches nothing |
| Yuque.EnsureUser | src/common/backend/services/yuque/service.ts:60-63 | the user is fetched only when not cached; on success it is cached, on failure the failure is thrown and nothing else changes |
| Yuque.GetUserInfo | src/common/backend/services/yuque/service.ts:60-73 | the profile is that of the cached or fetched user, and its home page is the host followed by the login |
| Yuque.GroupListings | src/common/backend/services/yuque/service.ts:86-89 | group listings request only group pages, and every repository belongs to one of the groups |
| YuqueProperties.GroupListingsAppend | src/common/backend/services/yuque/service.ts:86-89 | the group listings follow the order the API gave the groups: a split group list lists as its two halves one after the other, repositories and requests alike |
| YuqueProperties.GroupListingsSingle | src/common/backend/services/yuque/service.ts:86-89 | one group's part is exactly that group's own paged listing |
| Yuque.OwnRepositories | src/common/backend/services/yuque/service.ts:77-83 | no personal part for a `group` service; otherwise the user's own listing, with no group request |
| Yuque.GroupRepositories | src/common/backend/services/yuque/service.ts:84-90 | no group part for a `self` service; otherwise the groups' listings; only a user or groups failure throws |
| Yuque.Views | src/common/backend/services/yuque/service.ts:101 | the returned list has the same length and order, each item without its namespace |
| Yuque.BuildTocs | src/common/backend/services/yuque/service.ts:92-99 | one outline per repository, in order, fetched by the repository id and rooted at it; a failed fetch stops the loop with the outlines built before it |
| Yuque.GetRepositories | src/common/backend/services/yuque/service.ts:75-102 | the configuration is kept, the result is the new repository list without namespaces, and a set outline cache is left alone |
| Yuque.FindRepository | src/common/backend/services/yuque/service.ts:110-113 | the first repository with the requested id, or none exactly when no repository has it |
| Yuque.ParentUid | src/common/backend/services/yuque/service.ts:109 | the parent is the first separator-delimited component of the path, and an absent path behaves as an empty one |
| Yuque.DocumentSlug | src/common/backend/services/yuque/service.ts:116 | the given slug when non-empty, the generated one otherwise |
| Yuque.CreateBodyOf | src/common/backend/services/yuque/service.ts:114-119 | the create request is always private, keeps the clipped title and content, and uses the requested slug unless it is missing or empty, the generated one otherwise |
| Yuque.MoveBodyOf | src/common/backend/services/yuque/service.ts:195-205 | the move appends exactly the created document, to the first separator-delimited component of the path (an absent path acting as empty), so the target holds no separator and is empty for a missing path |
| Yuque.StatusOf | src/common/backend/services/yuque/service.ts:130-135 | the returned document id names the created id and no other and holds no separator; the token and repository are passed on; the href is host, namespace, slug |
| Yuque.CreateDocument | src/common/backend/services/yuque/service.ts:104-136 | only the user cache changes; the result carries the account's token and the requested repository id |
| YuqueProperties.GetUserInfoCached | src/common/backend/services/yuque/service.ts:60-63 | after a successful call, asking again issues no request and returns the same profile, whatever the API would answer |
| YuqueProperties.CachedUserKeptByListing | src/common/backend/services/yuque/service.ts:78-80 | with the user cached, `getRepositories` neither refetches nor replaces it |
| YuqueProperties.CachedUserKeptByPublishing | src/common/backend/services/yuque/service.ts:105-107 | with the user cached, `createDocument` neither refetches it nor changes the service |
| YuqueProperties.GetRepositoriesLists | src/common/backend/services/yuque/service.ts:75-91 | on success, `repositories` is the personal listing (unless `group`) followed by the group listings in API order (unless `self`), and the result is that list without namespaces |
| YuqueProperties.ViewDropsOnlyNamespace | src/common/backend/services/yuque/service.ts:101 | two repositories look alike in the result if and only if they differ at most in namespace |
| YuqueProperties.SelfAsksNoGroups | src/common/backend/services/yuque/service.ts:84 | a `self` service issues no group request |
| YuqueProperties.GroupAsksNoPersonalPages | src/common/backend/services/yuque/service.ts:77 | a `group` service requests no personal listing page |
| YuqueProperties.TraceKinds | src/common/backend/services/yuque/service.ts:75-99 | the requests come as the personal part, then the group part, then outline fetches only |
| YuqueProperties.TraceAfterListing | src/common/backend/services/yuque/service.ts:91-99 | after both listings, only outline fetches follow |
| YuqueProperties.TocsBuiltOnce | src/common/backend/services/yuque/service.ts:92 | once set, the outline cache stays as it is and no outline is fetched, although the repository list is replaced |
| YuqueProperties.TocsPerRepository | src/common/backend/services/yuque/service.ts:92-99 | the first success builds one outline per repository, in order, each rooted at the repository id and built from its listing |
| YuqueProperties.PartialTocsStay | src/common/backend/services/yuque/service.ts:92-99 | a failed outline fetch leaves a shorter outline list in the cache, which no later call completes |
| YuqueProperties.OnlyUserGroupOrOutlineFailuresThrow | src/common/backend/services/yuque/service.ts:239-246 | `getRepositories` throws only a user, groups or outline failure; a failed listing page never surfaces |
| YuqueProperties.CreateDocumentSucceeds | src/common/backend/services/yuque/service.ts:104-136 | publishing succeeds if and only if the user is available, the id is a cached repository, and both create and move are accepted |
| YuqueProperties.UnknownRepositoryRejected | src/common/backend/services/yuque/service.ts:110-113 | an unknown repository id throws `illegal repositoryId` before any create or move; at most the user fetch precedes it |
| YuqueProperties.UserFetchedBeforeValidation | src/common/backend/services/yuque/service.ts:105-110 | a missing user is fetched, and its failure thrown, before the repository id is checked |
| YuqueProperties.CreateDocumentPublishes | src/common/backend/services/yuque/service.ts:114-135 | on success: a private create with the given or generated slug, then an `appendByDocs` move of the new id under the path's heading; the href is host/namespace/slug of the first matching repository; the document id reads back as the created id |
| YuqueProperties.MoveRejectionPropagates | src/common/backend/services/yuque/service.ts:120-128 | a rejected move after an accepted create throws the plain request failure, with the create already issued |
| HeaderForm.ValidateSlug | src/common/backend/services/yuque/headerForm.tsx:26 | the scan accepts if and only if the slug has 2 to 190 characters, each a letter, digit, `_`, `-` or `.` |
| HeaderForm.SlugPattern | src/common/backend/services/yuque/headerForm.tsx:26 | a slug the pattern accepts is non-empty and holds no key separator, space or slash |
| HeaderForm.SlugExamples | src/common/backend/services/yuque/headerForm.tsx:26 | `my-note_1.0` and 190 letters pass; one letter, a space, a slash and 191 letters fail |
| HeaderForm.AcceptedSlugUsedAsIs | src/common/backend/services/yuque/service.ts:116 | a slug the form accepts reaches the create request unchanged |
| HeaderForm.SelectedRepository | src/common/backend/services/yuque/headerForm.tsx:16-19 | `onSelect` yields a repository exactly when the value holds a separator, and that repository holds none |
| HeaderForm.RootKeyRoundTrip | src/common/backend/services/yuque/service.ts:145 | the root key (separator, book id) selects the book and files at the top level |
| HeaderForm.KeyRoundTrip | src/common/backend/services/yuque/service.ts:160 | the key uuid, separator, book id files under `uuid`, and selects `bookId` if and only if the book id has no separator |
| HeaderForm.MissingPathIsTopLevel | src/common/backend/services/yuque/service.ts:109 | a missing or empty path files at the top level |
| HeaderForm.ListedIdsPlain | src/common/backend/services/yuque/service.ts:224-232 | every repository listed by a successful `getRepositories` has a separator-free id |
| HeaderForm.OutlinePickRoundTrip | src/common/backend/services/yuque/headerForm.tsx:16-19 | picking a plain-keyed node of a built outline names its book, and files under the node (the top level for the root) |
| HeaderForm.PickedOutlineNamesListedRepository | src/common/backend/services/yuque/headerForm.tsx:16-19 | after the first listing, picking a node of the i-th outline names the i-th repository, which `createDocument` finds |

## Left out

- Termination of the outline expansion: the source loops until its queue is empty, and has no visited set. The model bounds the number of rounds with a `fuel` argument. Running out surfaces as `Hangs` in `getRepositories`, which therefore means "did not finish within this fuel", not "would never finish". `Toc.RunMoreFuel` and `Toc.TocInfoMoreFuel` show that more fuel never changes a finished outline, and `Toc.LoopingListingHangs` shows a listing where no bound suffices.
- A page server that never ends: a listing is a finite sequence of page answers, and every request past its end answers an empty page. A server that answers a full page of 20 records at every offset, on which the page loop at src/common/backend/services/yuque/service.ts:217-223 never stops, is not modelled.
- HTTP plumbing is not modelled: `RequestHelper`, base URLs, headers, the `X-Auth-Token` header, the response interceptor and `qs.stringify`. Each remote answer is a field of `Api`. Every request a call makes is recorded in its trace.
- Each kind of request has one fixed answer in `Api`. Within one call the model never asks the same kind twice, except page and outline requests, which are keyed by owner and by book.
- `getId` (md5 of the token) is an opaque library call.
- `generateUuid` is an argument of `CreateDocument`.
- async scheduling: every call is sequential.
- `console.log` in `moveDoc` is not modelled.
- React/antd rendering, the event bus and locales are not modelled. Whether the form library skips the pattern for an empty slug field is the library's business. The model only has the pattern and the selection decoding.
- `for ... in` over a response without a `toc` field: the rows are an input sequence.
- JavaScript prototype keys (`constructor`, `__proto__`, …) used as ids in the plain-object maps are not modelled. Nor is the `typeof depth[...]` lookup they would disturb.
- `String(id)` is modelled for integer ids only. Non-integer or huge numbers, which JavaScript renders in other notations, are left out.
- Toc.Attach: its own contract only says that no node is added. What the push appends is stated by `Toc.GrownVisit` and `Toc.ProcessChildren`.
- Toc.Visit: its own contract only says that no node is added. What a round appends is stated by `Toc.GrownVisit`; what it enqueues is stated by `Toc.EnqueuedHeads` and `Toc.EnqueuedComplete`.
- Pagination.AllRepositories: its own contract only states that ids are separator-free. The request count, order and mapping are stated by `Pagination.FetchListing`, `Pagination.PageRequests` and `Pagination.ToRepositories`.
- Yuque.GetRepositories: its own contract states only the kept configuration, the returned view and the kept outline cache. Order, filtering, outline building and failures are stated by the `YuqueProperties` lemmas.
- Yuque.CreateDocument: its own contract states only that the user cache is the sole change, and the token and repository id of the result. The requests, the href, the rejection paths and the success condition are stated by the `YuqueProperties` lemmas.
- Yuque.GroupListings: its own contract states group membership and request kinds only. The order of repositories and requests across groups is stated by `YuqueProperties.GroupListingsAppend` and `YuqueProperties.GroupListingsSingle`.

## Findings

| source | as written | input that shows it | evidently intended | confidence | as-written member | corrected member |
|---|---|---|---|---|---|---|
| src/common/backend/services/yuque/service.ts:183 | the child key enqueued for expansion is the text of the child's title before its first separator | rows A (no parent), B (parent A's id), C (parent 99): the tree is root → A, and B is never attached under A | enqueue the child's id (the first component of its value, which is its uuid), so every row filed under an attached heading is attached | not executed | Toc.ExampleAsWritten, TocById.ExampleAsWrittenNotClosed | TocById.OutlineByIdClosed, TocById.ExampleById |

The rest of the model keeps the as-written builder (`Toc.TocInfo`), because that is what the service stores in `tocs`. `TocById` proves the intended property of the corrected loop: every attached node with rows filed under it carries them (`Closed`).
