/**
 * The boundary with the remote API. Each call the adapter makes is recorded as a `Request`
 * in the order it is issued; each answer is either a value or a failure raised by the request
 * helper, which the adapter passes on unchanged unless it catches it.
 */
module Remote {

  /** Whatever the request helper raised (a non-2xx status or a transport error). */
  datatype Failure = Failure(detail: string)

  /** An answer from the remote API. */
  datatype Reply<T> = Ok(value: T) | Fail(failure: Failure)

  /** Body of the create-document POST. */
  datatype CreateBody = CreateBody(title: string, slug: string, body: string, isPrivate: bool)

  /** Body of the move PUT on the repository's table of contents. */
  datatype MoveBody = MoveBody(action: string, docIds: seq<int>, targetUuid: string)

  /** The remote calls, with the parameters that distinguish them. */
  datatype Request =
    | GetUser
    | GetGroups(login: string)
    | GetRepos(isGroup: bool, slug: string, offset: nat)
    | GetToc(bookId: string)
    | PostDoc(repositoryId: string, create: CreateBody)
    | PutToc(repositoryId: string, move: MoveBody)
}
