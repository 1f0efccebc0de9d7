/**
 * The publishing form of the Yuque service: the slug field's validation pattern
 * `^[\w-.]{2,190}$`, and the outline picker, whose selected key `uuid|bookId` names the
 * repository (second component) while `createDocument` reads the parent heading from the
 * same key (first component).
 */
module HeaderForm {
  import opened Wrappers
  import opened Text
  import opened Toc
  import opened Pagination
  import opened Yuque
  import opened YuqueProperties

  const MinSlugLength: nat := 2
  const MaxSlugLength: nat := 190

  /** `[\w-.]` of a non-unicode pattern: an ASCII letter, a digit, `_`, `-` or `.`. */
  predicate SlugChar(c: char)
  {
    || ('a' <= c <= 'z')
    || ('A' <= c <= 'Z')
    || ('0' <= c <= '9')
    || c == '_' || c == '-' || c == '.'
  }

  /** The whole field matches `^[\w-.]{2,190}$`. A matching slug is never empty, and holds
      neither the key separator, a space nor a slash. */
  predicate SlugPattern(s: string): (ok: bool)
    ensures ok ==> s != [] && Separator !in s && ' ' !in s && '/' !in s
  {
    MinSlugLength <= |s| <= MaxSlugLength && forall i :: 0 <= i < |s| ==> SlugChar(s[i])
  }

  /** The slug rule, checked the way an anchored matcher does it: the length bounds, then one
      class test per character up to the first miss. */
  method ValidateSlug(s: string) returns (ok: bool)
    ensures ok <==> SlugPattern(s)
  {
    if |s| < MinSlugLength || |s| > MaxSlugLength {
      return false;
    }
    var i := 0;
    while i < |s|
      invariant 0 <= i <= |s|
      invariant forall j :: 0 <= j < i ==> SlugChar(s[j])
    {
      if !SlugChar(s[i]) {
        return false;
      }
      i := i + 1;
    }
    return true;
  }

  /** Slugs the rule accepts and rejects. */
  lemma SlugExamples()
    ensures SlugPattern("my-note_1.0")
    ensures !SlugPattern("a")
    ensures !SlugPattern("my note")
    ensures !SlugPattern("a/b")
    ensures !SlugPattern(seq(MaxSlugLength + 1, _ => 'a'))
    ensures SlugPattern(seq(MaxSlugLength, _ => 'a'))
  {
    assert "my note"[2] == ' ';
    assert "a/b"[1] == '/';
  }

  /** A slug the form accepts reaches the create request unchanged. */
  lemma AcceptedSlugUsedAsIs(slug: string, generated: string)
    requires SlugPattern(slug)
    ensures DocumentSlug(Some(slug), generated) == slug
  {
  }

  /** `onSelect`: `value.split('|')[1]`, the repository the selected outline key names. */
  function SelectedRepository(value: string): (r: Option<string>)
    ensures r.None? <==> Separator !in value
    ensures r.Some? ==> Separator !in r.value
  {
    Second(value)
  }

  /** The root key `|bookId` selects the book and files the document at the top level. */
  lemma RootKeyRoundTrip(bookId: string)
    requires Separator !in bookId
    ensures SelectedRepository(Join("", bookId)) == Some(bookId)
    ensures ParentUid(Some(Join("", bookId))) == ""
  {
    SecondOfJoinIsRight("", bookId);
    HeadOfJoin("", bookId);
  }

  /** A heading key `uuid|bookId` selects the book and files the document under the heading,
      and the book is recovered exactly when it has no separator of its own. */
  lemma KeyRoundTrip(uuid: string, bookId: string)
    requires Separator !in uuid
    ensures SelectedRepository(Join(uuid, bookId)) == Some(bookId) <==> Separator !in bookId
    ensures ParentUid(Some(Join(uuid, bookId))) == uuid
  {
    SecondOfJoinIsRight(uuid, bookId);
    HeadOfJoin(uuid, bookId);
  }

  /** Without a path the document goes to the top level. */
  lemma MissingPathIsTopLevel()
    ensures ParentUid(None) == ""
    ensures ParentUid(Some("")) == ""
  {
  }

  /** Every repository a successful `getRepositories` lists has a numeric id. */
  lemma ListedIdsPlain(s: Service, api: Api, fuel: nat)
    requires GetRepositories(s, api, fuel).outcome.Returned?
    ensures PlainIds(GetRepositories(s, api, fuel).after.repositories)
  {
    GetRepositoriesLists(s, api, fuel);
    var c := GetRepositories(s, api, fuel);
    var t := s.config.repositoryType;
    var own: seq<Repository> := if t != Group then OwnListing(c.after.userInfo.value, api).repos else [];
    var groups: seq<Repository> := if t != Self then GroupListings(api.groups.value, api).repos else [];
    assert c.after.repositories == own + groups;
    assert PlainIds(own) && PlainIds(groups);
  }

  /** Picking any node of an outline with a plain key, then publishing with the picked value
      as path and the picked repository, addresses the outline's repository and files the
      document under that node (at the top level for the root). */
  lemma OutlinePickRoundTrip(bookId: string, rootPath: string, entries: seq<TocEntry>, fuel: nat, k: string)
    requires Separator !in bookId && Separator !in k
    requires TocInfo(bookId, rootPath, entries, fuel).Some?
    requires k in TocInfo(bookId, rootPath, entries, fuel).value.nodes
    ensures var v := TocInfo(bookId, rootPath, entries, fuel).value.nodes[k].value;
            && SelectedRepository(v) == Some(bookId)
            && ParentUid(Some(v)) == (if k in HeadingIds(entries) then k else "")
  {
    OutlineShape(bookId, rootPath, entries, fuel);
    if k in HeadingIds(entries) {
      KeyRoundTrip(k, bookId);
    } else {
      RootKeyRoundTrip(bookId);
    }
  }

  /** After the first successful `getRepositories`, picking a plain-keyed node of the i-th
      outline names the i-th repository, which `createDocument` then finds. */
  lemma PickedOutlineNamesListedRepository(s: Service, api: Api, fuel: nat, i: nat, k: string)
    requires s.tocs.None? && GetRepositories(s, api, fuel).outcome.Returned?
    requires i < |GetRepositories(s, api, fuel).after.repositories|
    requires Separator !in k
    requires k in GetRepositories(s, api, fuel).after.tocs.value[i].nodes
    ensures var c := GetRepositories(s, api, fuel);
            var v := c.after.tocs.value[i].nodes[k].value;
            && SelectedRepository(v) == Some(c.after.repositories[i].id)
            && FindRepository(c.after.repositories, SelectedRepository(v).value).Some?
  {
    var c := GetRepositories(s, api, fuel);
    TocsPerRepository(s, api, fuel);
    ListedIdsPlain(s, api, fuel);
    var r := c.after.repositories[i];
    OutlinePickRoundTrip(r.id, r.name, api.toc(r.id).value, fuel, k);
  }
}
