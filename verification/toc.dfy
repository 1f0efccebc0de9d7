/**
 * The outline builder (`getYuqueTocInfo`): a flat table-of-contents listing becomes a tree
 * rooted at a synthetic node for the repository (the "book").
 *
 * The source builds JavaScript objects that are shared by reference: `maps` holds one node
 * object per key and every `children` array holds references to those objects. The model
 * keeps that store as a map from key to node whose `children` are KEYS, so that a node
 * reached twice, or expanded twice, behaves exactly as the shared object does.
 */
module Toc {
  import opened Wrappers
  import opened Text

  /** The only entry kind that takes part in the outline. */
  const TitleKind: string := "TITLE"

  /** One row of the remote listing: `uuid`, `type`, `parent_uuid` and `title`.
      A missing or empty `parent_uuid` is falsy and files the row under the book itself. */
  datatype TocEntry = TocEntry(uuid: string, kind: string, parent: Option<string>, title: string)

  /** A node object: its label, its compound `uuid|bookId` key, and the keys of its children. */
  datatype TocNode = TocNode(title: string, value: string, children: seq<string>)

  /** The two dictionaries of the first pass: key to node object (`maps`), and parent key to
      the keys of the rows filed under it, in listing order (`depth`). */
  datatype Index = Index(nodes: map<string, TocNode>, depth: map<string, seq<string>>)

  /** The result of the breadth-first expansion: the node store once the queue is empty, or
      `FuelExhausted` when more dequeues were needed than the bound allowed. */
  datatype Expansion = Finished(nodes: map<string, TocNode>) | FuelExhausted

  /** A built outline: the store, entered at the book's own key. */
  datatype Outline = Outline(root: string, nodes: map<string, TocNode>)

  predicate IsHeading(e: TocEntry)
  {
    e.kind == TitleKind
  }

  /** The key a row is filed under: its `parent_uuid` when truthy, otherwise the book id.
      A row lands anywhere but under the book only through its own parent, and never under
      the empty key unless the book id is itself empty. */
  function ParentKey(e: TocEntry, bookId: string): (k: string)
    ensures e.parent.Some? && e.parent.value != "" ==> k == e.parent.value
    ensures k != bookId ==> e.parent == Some(k)
    ensures k == "" ==> bookId == ""
  {
    if e.parent.Some? && e.parent.value != "" then e.parent.value else bookId
  }

  /** The synthetic root: labelled with the repository name, keyed `|bookId`. */
  function RootNode(bookId: string, rootPath: string): TocNode
  {
    TocNode(rootPath, Join("", bookId), [])
  }

  /** The node object created for a heading row. */
  function EntryNode(e: TocEntry, bookId: string): TocNode
  {
    TocNode(e.title, Join(e.uuid, bookId), [])
  }

  /** Ids of the heading rows. */
  function HeadingIds(entries: seq<TocEntry>): set<string>
  {
    set e | e in entries && IsHeading(e) :: e.uuid
  }

  /** Keys some heading row is filed under. */
  function ParentKeys(entries: seq<TocEntry>, bookId: string): set<string>
  {
    set e | e in entries && IsHeading(e) :: ParentKey(e, bookId)
  }

  /** The title of the last heading row with id `k`: the row whose object `maps[k]` ends up
      holding, since a later row with the same id replaces the earlier object. */
  function LastTitle(entries: seq<TocEntry>, k: string): string
    requires k in HeadingIds(entries)
    decreases |entries|
  {
    var last := entries[|entries| - 1];
    var init := entries[..|entries| - 1];
    assert entries == init + [last];
    if IsHeading(last) && last.uuid == k then last.title else LastTitle(init, k)
  }

  /** The last title with id `k` is the title of some heading row with that id. */
  lemma {:induction false} LastTitleOfRow(entries: seq<TocEntry>, k: string)
    requires k in HeadingIds(entries)
    ensures exists e :: e in entries && IsHeading(e) && e.uuid == k && e.title == LastTitle(entries, k)
    decreases |entries|
  {
    var last := entries[|entries| - 1];
    var init := entries[..|entries| - 1];
    assert entries == init + [last];
    if !(IsHeading(last) && last.uuid == k) {
      LastTitleOfRow(init, k);
    }
  }

  /** Reference definition of a `depth` list: ids of the heading rows filed under `p`, in
      listing order. */
  function ChildIds(entries: seq<TocEntry>, bookId: string, p: string): seq<string>
    decreases |entries|
  {
    if |entries| == 0 then []
    else
      var last := entries[|entries| - 1];
      ChildIds(entries[..|entries| - 1], bookId, p)
        + (if IsHeading(last) && ParentKey(last, bookId) == p then [last.uuid] else [])
  }

  /** A child list names heading rows only, and is non-empty exactly for the keys that some
      heading row is filed under. */
  lemma {:induction false} ChildIdsFacts(entries: seq<TocEntry>, bookId: string, p: string)
    ensures forall c :: c in ChildIds(entries, bookId, p) ==> c in HeadingIds(entries)
    ensures |ChildIds(entries, bookId, p)| > 0 <==> p in ParentKeys(entries, bookId)
    decreases |entries|
  {
    if |entries| > 0 {
      var last := entries[|entries| - 1];
      var init := entries[..|entries| - 1];
      assert entries == init + [last];
      ChildIdsFacts(init, bookId, p);
    }
  }

  /** Every child key recorded in `depth` names a node of the store. */
  predicate Wired(nodes: map<string, TocNode>, depth: map<string, seq<string>>)
  {
    forall p, c :: p in depth && c in depth[p] ==> c in nodes
  }

  /** One iteration of the first pass over a single row. */
  function File(ix: Index, bookId: string, e: TocEntry): (r: Index)
    ensures r.nodes.Keys == ix.nodes.Keys + (if IsHeading(e) then {e.uuid} else {})
    ensures r.depth.Keys == ix.depth.Keys + (if IsHeading(e) then {ParentKey(e, bookId)} else {})
    ensures Wired(ix.nodes, ix.depth) ==> Wired(r.nodes, r.depth)
  {
    if !IsHeading(e) then ix
    else
      var p := ParentKey(e, bookId);
      var pending := if p in ix.depth then ix.depth[p] else [];
      Index(ix.nodes[e.uuid := EntryNode(e, bookId)], ix.depth[p := pending + [e.uuid]])
  }

  /** The first pass of `getYuqueTocInfo`: the root object, then one node per heading row
      (a later row with the same id replaces the earlier object, and a row whose id is the
      book id replaces the root) and the per-parent child lists. */
  function Collect(bookId: string, rootPath: string, entries: seq<TocEntry>): (ix: Index)
    ensures ix.nodes.Keys == {bookId} + HeadingIds(entries)
    ensures ix.depth.Keys == ParentKeys(entries, bookId)
    ensures Wired(ix.nodes, ix.depth)
    decreases |entries|
  {
    if |entries| == 0 then Index(map[bookId := RootNode(bookId, rootPath)], map[])
    else
      var last := entries[|entries| - 1];
      var init := entries[..|entries| - 1];
      assert entries == init + [last];
      File(Collect(bookId, rootPath, init), bookId, last)
  }

  // ---------------------------------------------------------------------------------------
  // The breadth-first expansion

  /** `maps[p].children.push(...)` for each of `cs`. */
  function Attach(nodes: map<string, TocNode>, p: string, cs: seq<string>): (r: map<string, TocNode>)
    requires p in nodes
    ensures r.Keys == nodes.Keys
  {
    nodes[p := nodes[p].(children := nodes[p].children + cs)]
  }

  /** Processing one dequeued key: when it has both a node and pending children, all of the
      pending children are appended to its node; otherwise nothing happens. */
  function Visit(nodes: map<string, TocNode>, depth: map<string, seq<string>>, p: string): (r: map<string, TocNode>)
    ensures r.Keys == nodes.Keys
  {
    if p in nodes && p in depth then Attach(nodes, p, depth[p]) else nodes
  }

  /** What the inner loop enqueues for the children `cs`: the first `|`-component of each
      child's TITLE, kept when it is a key of `depth`. */
  function Enqueued(nodes: map<string, TocNode>, depth: map<string, seq<string>>, cs: seq<string>): (us: seq<string>)
    requires forall c :: c in cs ==> c in nodes
    ensures |us| <= |cs|
    ensures forall u :: u in us ==> u in depth
  {
    if |cs| == 0 then []
    else
      var u := Head(nodes[cs[|cs| - 1]].title);
      Enqueued(nodes, depth, cs[..|cs| - 1]) + (if u in depth then [u] else [])
  }

  /** Keys enqueued by processing `p`. */
  function Next(nodes: map<string, TocNode>, depth: map<string, seq<string>>, p: string): seq<string>
    requires Wired(nodes, depth)
  {
    if p in nodes && p in depth then Enqueued(nodes, depth, depth[p]) else []
  }

  /** Reference definition of the expansion loop: dequeue, process, enqueue, until the queue
      is empty. There is no visited set, so nothing bounds the number of rounds; `fuel` caps it.
      The run adds no node. */
  function Run(nodes: map<string, TocNode>, depth: map<string, seq<string>>, queue: seq<string>, fuel: nat): (e: Expansion)
    requires Wired(nodes, depth)
    ensures e.Finished? ==> e.nodes.Keys == nodes.Keys
    decreases fuel
  {
    if |queue| == 0 then Finished(nodes)
    else if fuel == 0 then FuelExhausted
    else Run(Visit(nodes, depth, queue[0]), depth, queue[1..] + Next(nodes, depth, queue[0]), fuel - 1)
  }

  /** The inner loop of one round: each pending child of `p` is pushed onto `p`'s children,
      and the first `|`-component of the child's title is enqueued when it is a key of `depth`. */
  method ProcessChildren(nodes0: map<string, TocNode>, depth: map<string, seq<string>>, p: string, queue0: seq<string>)
    returns (nodes: map<string, TocNode>, queue: seq<string>)
    requires Wired(nodes0, depth)
    requires p in nodes0 && p in depth
    ensures nodes == Visit(nodes0, depth, p)
    ensures queue == queue0 + Next(nodes0, depth, p)
  {
    nodes := nodes0;
    queue := queue0;
    var childs := depth[p];
    var i := 0;
    assert nodes0[p].children + childs[..0] == nodes0[p].children;
    assert nodes0[p := nodes0[p]] == nodes0;
    while i < |childs|
      invariant 0 <= i <= |childs|
      invariant nodes == Attach(nodes0, p, childs[..i])
      invariant queue == queue0 + Enqueued(nodes0, depth, childs[..i])
    {
      var c := childs[i];
      var toc := nodes[c];
      var u := Head(toc.title);
      assert childs[..i + 1] == childs[..i] + [c];
      assert toc.title == nodes0[c].title;
      assert Enqueued(nodes0, depth, childs[..i + 1])
          == Enqueued(nodes0, depth, childs[..i]) + (if u in depth then [u] else []);
      assert nodes[p].children + [c] == nodes0[p].children + childs[..i + 1];
      nodes := nodes[p := nodes[p].(children := nodes[p].children + [c])];
      if u in depth {
        queue := queue + [u];
      }
      i := i + 1;
    }
    assert childs[..|childs|] == childs;
  }

  /** The expansion loop as the source writes it: a queue seeded with the book id, one shift
      per round, and the children of the shifted key processed when it has a node and pending
      children. At most `fuel` rounds are run. */
  method Expand(nodes0: map<string, TocNode>, depth: map<string, seq<string>>, root: string, fuel: nat)
    returns (x: Expansion)
    requires Wired(nodes0, depth)
    ensures x == Run(nodes0, depth, [root], fuel)
  {
    var nodes := nodes0;
    var queue := [root];
    var budget := fuel;
    while |queue| > 0
      invariant Wired(nodes, depth)
      invariant Run(nodes, depth, queue, budget) == Run(nodes0, depth, [root], fuel)
      decreases budget
    {
      if budget == 0 {
        return FuelExhausted;
      }
      var p := queue[0];
      queue := queue[1..];
      budget := budget - 1;
      if p in nodes && p in depth {
        nodes, queue := ProcessChildren(nodes, depth, p, queue);
      } else {
        assert queue + [] == queue;
      }
    }
    return Finished(nodes);
  }

  /** `getYuqueTocInfo` on a fetched listing: the first pass, then the expansion from the book
      id; the result is the object stored under the book id. `None` when the fuel ran out. */
  function TocInfo(bookId: string, rootPath: string, entries: seq<TocEntry>, fuel: nat): (o: Option<Outline>)
    ensures o.Some? ==> o.value.root == bookId && o.value.nodes.Keys == {bookId} + HeadingIds(entries)
  {
    var ix := Collect(bookId, rootPath, entries);
    var x := Run(ix.nodes, ix.depth, [bookId], fuel);
    if x.Finished? then RunGrows(ix.nodes, ix.depth, [bookId], fuel); Some(Outline(bookId, x.nodes))
    else None
  }

  // ---------------------------------------------------------------------------------------
  // What the first pass records

  /** Every node of the first pass is childless; the root object survives unless a heading
      row carries the book id; every other object is that of the LAST heading row with its id. */
  lemma {:induction false} CollectNodes(bookId: string, rootPath: string, entries: seq<TocEntry>)
    ensures forall k :: k in Collect(bookId, rootPath, entries).nodes ==>
              Collect(bookId, rootPath, entries).nodes[k].children == []
    ensures bookId !in HeadingIds(entries) ==>
              Collect(bookId, rootPath, entries).nodes[bookId] == RootNode(bookId, rootPath)
    ensures forall k :: k in HeadingIds(entries) ==>
              Collect(bookId, rootPath, entries).nodes[k] == TocNode(LastTitle(entries, k), Join(k, bookId), [])
    decreases |entries|
  {
    if |entries| > 0 {
      var last := entries[|entries| - 1];
      var init := entries[..|entries| - 1];
      assert entries == init + [last];
      CollectNodes(bookId, rootPath, init);
      var ix := Collect(bookId, rootPath, init);
      var r := Collect(bookId, rootPath, entries);
      assert r == File(ix, bookId, last);
      forall k | k in HeadingIds(entries)
        ensures r.nodes[k] == TocNode(LastTitle(entries, k), Join(k, bookId), [])
      {
        if !(IsHeading(last) && k == last.uuid) {
          var e :| e in entries && IsHeading(e) && e.uuid == k;
          assert e in init;
          assert k in HeadingIds(init);
        }
      }
    }
  }

  /** The child lists of the first pass are the heading rows filed under each key, in
      listing order. */
  lemma {:induction false} CollectDepth(bookId: string, rootPath: string, entries: seq<TocEntry>)
    ensures forall p :: p in Collect(bookId, rootPath, entries).depth ==>
              Collect(bookId, rootPath, entries).depth[p] == ChildIds(entries, bookId, p)
    decreases |entries|
  {
    if |entries| > 0 {
      var last := entries[|entries| - 1];
      var init := entries[..|entries| - 1];
      assert entries == init + [last];
      CollectDepth(bookId, rootPath, init);
      var ix := Collect(bookId, rootPath, init);
      assert Collect(bookId, rootPath, entries) == File(ix, bookId, last);
      forall p | p in Collect(bookId, rootPath, entries).depth
        ensures Collect(bookId, rootPath, entries).depth[p] == ChildIds(entries, bookId, p)
      {
        if p !in ix.depth {
          NoPendingChildren(bookId, init, p);
        }
      }
    }
  }

  /** A key absent from `depth` has no pending children. */
  lemma NoPendingChildren(bookId: string, entries: seq<TocEntry>, p: string)
    requires p !in ParentKeys(entries, bookId)
    ensures ChildIds(entries, bookId, p) == []
  {
    ChildIdsFacts(entries, bookId, p);
  }

  // ---------------------------------------------------------------------------------------
  // What the expansion does to the store

  /** `s` is zero or more copies of `d`, end to end. */
  predicate IsRepeat(s: seq<string>, d: seq<string>)
    decreases |s|
  {
    |s| == 0 || (0 < |d| <= |s| && s[..|d|] == d && IsRepeat(s[|d|..], d))
  }

  /** The pending children recorded for `k`. */
  function Pending(depth: map<string, seq<string>>, k: string): seq<string>
  {
    if k in depth then depth[k] else []
  }

  /** `after` is `before` with, for each key, its pending children appended zero or more times
      (once per time the key was processed); keys, labels and compound keys are untouched. */
  predicate Grown(before: map<string, TocNode>, after: map<string, TocNode>, depth: map<string, seq<string>>)
  {
    && after.Keys == before.Keys
    && forall k :: k in before ==>
         && after[k].title == before[k].title
         && after[k].value == before[k].value
         && before[k].children <= after[k].children
         && IsRepeat(after[k].children[|before[k].children|..], Pending(depth, k))
  }

  /** Every child reference names a node of the store. */
  predicate Resolved(nodes: map<string, TocNode>)
  {
    forall k, c :: k in nodes && c in nodes[k].children ==> c in nodes
  }

  lemma {:induction false} RepeatConcat(x: seq<string>, y: seq<string>, d: seq<string>)
    requires IsRepeat(x, d) && IsRepeat(y, d)
    ensures IsRepeat(x + y, d)
    decreases |x|
  {
    if |x| == 0 {
      assert x + y == y;
    } else {
      assert (x + y)[..|d|] == x[..|d|];
      assert (x + y)[|d|..] == x[|d|..] + y;
      RepeatConcat(x[|d|..], y, d);
    }
  }

  lemma {:induction false} RepeatMembers(s: seq<string>, d: seq<string>, c: string)
    requires IsRepeat(s, d) && c in s
    ensures c in d
    decreases |s|
  {
    var i :| 0 <= i < |s| && s[i] == c;
    if i < |d| {
      assert s[..|d|][i] == c;
    } else {
      assert s[|d|..][i - |d|] == c;
      RepeatMembers(s[|d|..], d, c);
    }
  }

  lemma GrownTrans(a: map<string, TocNode>, b: map<string, TocNode>, c: map<string, TocNode>, depth: map<string, seq<string>>)
    requires Grown(a, b, depth) && Grown(b, c, depth)
    ensures Grown(a, c, depth)
  {
    forall k | k in a
      ensures a[k].children <= c[k].children
      ensures IsRepeat(c[k].children[|a[k].children|..], Pending(depth, k))
    {
      assert k in b;
      RepeatTrans(a[k].children, b[k].children, c[k].children, Pending(depth, k));
    }
  }

  /** Appending repeats twice appends repeats. */
  lemma RepeatTrans(x: seq<string>, y: seq<string>, z: seq<string>, d: seq<string>)
    requires x <= y && y <= z
    requires IsRepeat(y[|x|..], d) && IsRepeat(z[|y|..], d)
    ensures x <= z && IsRepeat(z[|x|..], d)
  {
    assert z[|x|..] == y[|x|..] + z[|y|..];
    RepeatConcat(y[|x|..], z[|y|..], d);
  }

  lemma GrownVisit(nodes: map<string, TocNode>, depth: map<string, seq<string>>, p: string)
    ensures Grown(nodes, Visit(nodes, depth, p), depth)
  {
    var v := Visit(nodes, depth, p);
    forall k | k in nodes
      ensures IsRepeat(v[k].children[|nodes[k].children|..], Pending(depth, k))
    {
      if k == p && p in depth {
        var d := depth[p];
        assert v[k].children[|nodes[k].children|..] == d;
        assert d[|d|..] == [];
      } else {
        assert v[k].children[|nodes[k].children|..] == [];
      }
    }
  }

  /** Whatever the run does, it only appends pending children to nodes; nothing else changes. */
  lemma {:induction false} RunGrows(nodes: map<string, TocNode>, depth: map<string, seq<string>>, queue: seq<string>, fuel: nat)
    requires Wired(nodes, depth)
    requires Run(nodes, depth, queue, fuel).Finished?
    ensures Grown(nodes, Run(nodes, depth, queue, fuel).nodes, depth)
    decreases fuel
  {
    if |queue| == 0 {
      var n := Run(nodes, depth, queue, fuel).nodes;
      forall k | k in nodes
        ensures IsRepeat(n[k].children[|nodes[k].children|..], Pending(depth, k))
      {
        assert n[k].children[|nodes[k].children|..] == [];
      }
    } else {
      var v := Visit(nodes, depth, queue[0]);
      GrownVisit(nodes, depth, queue[0]);
      RunGrows(v, depth, queue[1..] + Next(nodes, depth, queue[0]), fuel - 1);
      GrownTrans(nodes, v, Run(nodes, depth, queue, fuel).nodes, depth);
    }
  }

  /** A grown store still resolves every child reference. */
  lemma GrownResolved(before: map<string, TocNode>, after: map<string, TocNode>, depth: map<string, seq<string>>)
    requires Wired(before, depth) && Resolved(before) && Grown(before, after, depth)
    ensures Resolved(after)
  {
    forall k, c | k in after && c in after[k].children
      ensures c in after
    {
      var bk := before[k].children;
      var ak := after[k].children;
      assert ak == bk + ak[|bk|..];
      if c !in bk {
        RepeatMembers(ak[|bk|..], Pending(depth, k), c);
      }
    }
  }

  /** Each key the inner loop enqueues is a key of `depth` and the title head of one of the
      children. */
  lemma {:induction false} EnqueuedHeads(nodes: map<string, TocNode>, depth: map<string, seq<string>>, cs: seq<string>)
    requires forall c :: c in cs ==> c in nodes
    ensures forall u :: u in Enqueued(nodes, depth, cs) ==>
              u in depth && exists c :: c in cs && Head(nodes[c].title) == u
    decreases |cs|
  {
    if |cs| > 0 {
      var init := cs[..|cs| - 1];
      assert forall c :: c in init ==> c in cs;
      EnqueuedHeads(nodes, depth, init);
    }
  }

  /** ... and, conversely, every child whose title head is a key of `depth` gets that head
      enqueued. */
  lemma {:induction false} EnqueuedComplete(nodes: map<string, TocNode>, depth: map<string, seq<string>>, cs: seq<string>)
    requires forall c :: c in cs ==> c in nodes
    ensures forall c :: c in cs && Head(nodes[c].title) in depth ==> Head(nodes[c].title) in Enqueued(nodes, depth, cs)
    decreases |cs|
  {
    if |cs| > 0 {
      var init := cs[..|cs| - 1];
      var last := cs[|cs| - 1];
      assert cs == init + [last];
      assert forall c :: c in init ==> c in cs;
      EnqueuedComplete(nodes, depth, init);
      var u := Head(nodes[last].title);
      assert Enqueued(nodes, depth, cs) == Enqueued(nodes, depth, init) + (if u in depth then [u] else []);
    }
  }

  /** Children none of whose title heads is a key of `depth` enqueue nothing. */
  lemma {:induction false} EnqueuedNone(nodes: map<string, TocNode>, depth: map<string, seq<string>>, cs: seq<string>)
    requires forall c :: c in cs ==> c in nodes && Head(nodes[c].title) !in depth
    ensures Enqueued(nodes, depth, cs) == []
    decreases |cs|
  {
    if |cs| > 0 {
      var init := cs[..|cs| - 1];
      assert forall c :: c in init ==> c in cs;
      EnqueuedNone(nodes, depth, init);
    }
  }

  /** A key that is not queued and that no child title names is never processed again: its
      node comes out of the run as it went in. */
  lemma {:induction false} RunLeavesUnqueued(nodes: map<string, TocNode>, depth: map<string, seq<string>>,
                                             queue: seq<string>, fuel: nat, k: string)
    requires Wired(nodes, depth)
    requires k !in queue && k in nodes
    requires forall p, c :: p in depth && c in depth[p] ==> Head(nodes[c].title) != k
    requires Run(nodes, depth, queue, fuel).Finished?
    ensures k in Run(nodes, depth, queue, fuel).nodes
    ensures Run(nodes, depth, queue, fuel).nodes[k] == nodes[k]
    decreases fuel
  {
    RunGrows(nodes, depth, queue, fuel);
    if |queue| > 0 {
      var p := queue[0];
      var v := Visit(nodes, depth, p);
      var q := queue[1..] + Next(nodes, depth, p);
      if p in nodes && p in depth {
        EnqueuedHeads(nodes, depth, depth[p]);
      }
      assert k !in q;
      assert forall c :: c in nodes ==> v[c].title == nodes[c].title;
      RunLeavesUnqueued(v, depth, q, fuel - 1, k);
    }
  }

  /** When no child's title head is a key of `depth`, the first round enqueues nothing and the
      run ends after processing the root alone. */
  lemma RunStopsAfterRoot(nodes: map<string, TocNode>, depth: map<string, seq<string>>, root: string, fuel: nat)
    requires Wired(nodes, depth)
    requires fuel >= 1
    requires forall p, c :: p in depth && c in depth[p] ==> Head(nodes[c].title) !in depth
    ensures Run(nodes, depth, [root], fuel) == Finished(Visit(nodes, depth, root))
  {
    if root in nodes && root in depth {
      EnqueuedNone(nodes, depth, depth[root]);
    }
    assert [root][1..] + Next(nodes, depth, root) == [];
  }

  // ---------------------------------------------------------------------------------------
  // Properties of `getYuqueTocInfo`

  /** No heading title has a key that rows are filed under as its first `|`-component. */
  predicate TitlesNameNoParent(entries: seq<TocEntry>, bookId: string)
  {
    forall e, f :: e in entries && f in entries && IsHeading(e) && IsHeading(f) ==>
      Head(e.title) != ParentKey(f, bookId)
  }

  /** The shape of a built outline: besides the root, exactly one node per heading id, none for
      any other kind of row; the root keeps the repository name and the `|bookId` key unless a
      heading row carries the book id; every other node carries the title of (the last) row
      with its id and the key `uuid|bookId`; every child reference names a node. */
  lemma OutlineShape(bookId: string, rootPath: string, entries: seq<TocEntry>, fuel: nat)
    requires TocInfo(bookId, rootPath, entries, fuel).Some?
    ensures var o := TocInfo(bookId, rootPath, entries, fuel).value;
            && (bookId !in HeadingIds(entries) ==>
                  o.nodes[bookId].title == rootPath && o.nodes[bookId].value == Join("", bookId))
            && (forall k :: k in HeadingIds(entries) ==>
                  o.nodes[k].title == LastTitle(entries, k) && o.nodes[k].value == Join(k, bookId))
            && Resolved(o.nodes)
  {
    var ix := Collect(bookId, rootPath, entries);
    var n := Run(ix.nodes, ix.depth, [bookId], fuel).nodes;
    CollectNodes(bookId, rootPath, entries);
    RunGrows(ix.nodes, ix.depth, [bookId], fuel);
    GrownResolved(ix.nodes, n, ix.depth);
  }

  /** The first round of the expansion processes the book id and hands the rest of the run
      the root with exactly the rows filed under the book as children. */
  lemma FirstRound(bookId: string, rootPath: string, entries: seq<TocEntry>, fuel: nat)
    requires fuel >= 1
    ensures var ix := Collect(bookId, rootPath, entries);
            && Run(ix.nodes, ix.depth, [bookId], fuel)
               == Run(Visit(ix.nodes, ix.depth, bookId), ix.depth, Next(ix.nodes, ix.depth, bookId), fuel - 1)
            && Visit(ix.nodes, ix.depth, bookId)[bookId].children == ChildIds(entries, bookId, bookId)
  {
    var ix := Collect(bookId, rootPath, entries);
    CollectNodes(bookId, rootPath, entries);
    CollectDepth(bookId, rootPath, entries);
    assert [bookId][1..] + Next(ix.nodes, ix.depth, bookId) == Next(ix.nodes, ix.depth, bookId);
    if bookId !in ix.depth {
      NoPendingChildren(bookId, entries, bookId);
    }
  }

  /** A child title in the first-pass store is the title of some heading row. */
  lemma ChildTitle(bookId: string, rootPath: string, entries: seq<TocEntry>, p: string, c: string)
    requires p in Collect(bookId, rootPath, entries).depth
    requires c in Collect(bookId, rootPath, entries).depth[p]
    ensures exists e :: e in entries && IsHeading(e) &&
              Collect(bookId, rootPath, entries).nodes[c].title == e.title
  {
    CollectNodes(bookId, rootPath, entries);
    CollectDepth(bookId, rootPath, entries);
    ChildIdsFacts(entries, bookId, p);
    LastTitleOfRow(entries, c);
  }

  /** When `x` is no heading title's first `|`-component, no child title of the store after the first
      round has `x` as its first component either. */
  lemma NoChildTitleNames(bookId: string, rootPath: string, entries: seq<TocEntry>, x: string)
    requires forall e :: e in entries && IsHeading(e) ==> Head(e.title) != x
    ensures var ix := Collect(bookId, rootPath, entries);
            forall p, c :: p in ix.depth && c in ix.depth[p] ==>
              Head(Visit(ix.nodes, ix.depth, bookId)[c].title) != x
  {
    var ix := Collect(bookId, rootPath, entries);
    var v := Visit(ix.nodes, ix.depth, bookId);
    forall p, c | p in ix.depth && c in ix.depth[p]
      ensures Head(v[c].title) != x
    {
      ChildTitle(bookId, rootPath, entries, p, c);
      var e :| e in entries && IsHeading(e) && ix.nodes[c].title == e.title;
      assert v[c].title == ix.nodes[c].title;
    }
  }

  /** The root's children begin with the heading rows filed under the book (no or empty
      `parent_uuid`, or the book id itself), in listing order. */
  lemma RootChildrenFirst(bookId: string, rootPath: string, entries: seq<TocEntry>, fuel: nat)
    requires TocInfo(bookId, rootPath, entries, fuel).Some?
    ensures ChildIds(entries, bookId, bookId) <= TocInfo(bookId, rootPath, entries, fuel).value.nodes[bookId].children
  {
    var ix := Collect(bookId, rootPath, entries);
    RootFirstStore(ix.nodes, ix.depth, bookId, fuel);
    FirstRound(bookId, rootPath, entries, fuel);
  }

  /** A finished run from a single key keeps, at that key, what its first round appended. */
  lemma RootFirstStore(nodes: map<string, TocNode>, depth: map<string, seq<string>>, root: string, fuel: nat)
    requires Wired(nodes, depth) && root in nodes
    requires Run(nodes, depth, [root], fuel).Finished?
    ensures fuel >= 1 && root in Run(nodes, depth, [root], fuel).nodes
    ensures Visit(nodes, depth, root)[root].children <= Run(nodes, depth, [root], fuel).nodes[root].children
  {
    RunFromOne(nodes, depth, root, fuel);
    RunKeepsChildren(Visit(nodes, depth, root), depth, Next(nodes, depth, root), fuel - 1, root);
  }

  /** A finished run from a single key is its first round followed by the rest. */
  lemma RunFromOne(nodes: map<string, TocNode>, depth: map<string, seq<string>>, root: string, fuel: nat)
    requires Wired(nodes, depth)
    requires Run(nodes, depth, [root], fuel).Finished?
    ensures fuel >= 1
    ensures Run(nodes, depth, [root], fuel) == Run(Visit(nodes, depth, root), depth, Next(nodes, depth, root), fuel - 1)
  {
    assert [root][1..] + Next(nodes, depth, root) == Next(nodes, depth, root);
  }

  /** A finished run only appends to a node's children. */
  lemma RunKeepsChildren(nodes: map<string, TocNode>, depth: map<string, seq<string>>, queue: seq<string>, fuel: nat, k: string)
    requires Wired(nodes, depth) && k in nodes
    requires Run(nodes, depth, queue, fuel).Finished?
    ensures k in Run(nodes, depth, queue, fuel).nodes
    ensures nodes[k].children <= Run(nodes, depth, queue, fuel).nodes[k].children
  {
    RunGrows(nodes, depth, queue, fuel);
  }

  /** A root whose key no child title names keeps, through the rest of the run, the children
      the first round gave it. */
  lemma RootKept(nodes: map<string, TocNode>, depth: map<string, seq<string>>, root: string, fuel: nat)
    requires Wired(nodes, depth) && root in nodes && fuel >= 1
    requires forall p, c :: p in depth && c in depth[p] ==> Head(Visit(nodes, depth, root)[c].title) != root
    requires Run(Visit(nodes, depth, root), depth, Next(nodes, depth, root), fuel - 1).Finished?
    ensures root in Run(Visit(nodes, depth, root), depth, Next(nodes, depth, root), fuel - 1).nodes
    ensures Run(Visit(nodes, depth, root), depth, Next(nodes, depth, root), fuel - 1).nodes[root]
            == Visit(nodes, depth, root)[root]
  {
    RootNotRequeued(nodes, depth, root);
    RunLeavesUnqueued(Visit(nodes, depth, root), depth, Next(nodes, depth, root), fuel - 1, root);
  }

  /** A key that no child's title head names is not enqueued by its own round. */
  lemma RootNotRequeued(nodes: map<string, TocNode>, depth: map<string, seq<string>>, root: string)
    requires Wired(nodes, depth) && root in nodes
    requires forall p, c :: p in depth && c in depth[p] ==> Head(Visit(nodes, depth, root)[c].title) != root
    ensures root !in Next(nodes, depth, root)
  {
    if root in depth {
      EnqueuedHeads(nodes, depth, depth[root]);
      forall c | c in depth[root]
        ensures Head(nodes[c].title) != root
      {
        assert Visit(nodes, depth, root)[c].title == nodes[c].title;
      }
    }
  }

  /** When the book id is no heading title's first `|`-component, the root is never queued again, and its
      children are exactly the heading rows filed under the book, in listing order. */
  lemma RootChildrenExact(bookId: string, rootPath: string, entries: seq<TocEntry>, fuel: nat)
    requires TocInfo(bookId, rootPath, entries, fuel).Some?
    requires forall e :: e in entries && IsHeading(e) ==> Head(e.title) != bookId
    ensures TocInfo(bookId, rootPath, entries, fuel).value.nodes[bookId].children == ChildIds(entries, bookId, bookId)
  {
    var ix := Collect(bookId, rootPath, entries);
    FirstRound(bookId, rootPath, entries, fuel);
    NoChildTitleNames(bookId, rootPath, entries, bookId);
    RootKept(ix.nodes, ix.depth, bookId, fuel);
  }

  /** The quirk of keying the expansion on titles: when no heading's title head is a key that
      rows are filed under, only the book id is ever dequeued, so the root gets the rows filed
      under the book and every other node stays childless (the tree has depth at most one). */
  lemma FlatOutline(bookId: string, rootPath: string, entries: seq<TocEntry>, fuel: nat)
    requires fuel >= 1
    requires TitlesNameNoParent(entries, bookId)
    ensures TocInfo(bookId, rootPath, entries, fuel).Some?
    ensures TocInfo(bookId, rootPath, entries, fuel).value.nodes[bookId].children == ChildIds(entries, bookId, bookId)
    ensures forall k :: k in TocInfo(bookId, rootPath, entries, fuel).value.nodes && k != bookId ==>
              TocInfo(bookId, rootPath, entries, fuel).value.nodes[k].children == []
  {
    var ix := Collect(bookId, rootPath, entries);
    HeadsNameNoKey(bookId, rootPath, entries);
    FirstRound(bookId, rootPath, entries, fuel);
    RunStopsAfterRoot(ix.nodes, ix.depth, bookId, fuel);
    OthersChildless(bookId, rootPath, entries);
  }

  lemma HeadsNameNoKey(bookId: string, rootPath: string, entries: seq<TocEntry>)
    requires TitlesNameNoParent(entries, bookId)
    ensures var ix := Collect(bookId, rootPath, entries);
            forall p, c :: p in ix.depth && c in ix.depth[p] ==> Head(ix.nodes[c].title) !in ix.depth
  {
    var ix := Collect(bookId, rootPath, entries);
    forall p, c | p in ix.depth && c in ix.depth[p]
      ensures Head(ix.nodes[c].title) !in ix.depth
    {
      ChildTitle(bookId, rootPath, entries, p, c);
    }
  }

  /** The first round touches only the root: every other node stays as childless as the
      first pass made it. */
  lemma OthersChildless(bookId: string, rootPath: string, entries: seq<TocEntry>)
    ensures var ix := Collect(bookId, rootPath, entries);
            var v := Visit(ix.nodes, ix.depth, bookId);
            forall k :: k in v && k != bookId ==> v[k].children == []
  {
    CollectNodes(bookId, rootPath, entries);
  }

  /** The three-row listing A (no parent), B (under A), C (under the id 99, which is not listed). */
  function ExampleRows(): seq<TocEntry>
  {
    [TocEntry("1", TitleKind, None, "A"),
     TocEntry("2", TitleKind, Some("1"), "B"),
     TocEntry("3", TitleKind, Some("99"), "C")]
  }

  /** A book id that is none of the example's ids, parent ids or titles. */
  predicate ExampleBook(bookId: string)
  {
    bookId !in {"1", "2", "3", "99", "A", "B", "C"}
  }

  lemma ExampleRootRows(bookId: string)
    requires ExampleBook(bookId)
    ensures ChildIds(ExampleRows(), bookId, bookId) == ["1"]
    ensures "1" in HeadingIds(ExampleRows())
  {
    var entries := ExampleRows();
    assert entries[..1][..0] == [];
    assert ChildIds(entries[..1], bookId, bookId) == ["1"];
    assert entries[..2][..1] == entries[..1];
    assert ChildIds(entries[..2], bookId, bookId) == ["1"];
    assert entries[..3] == entries;
  }

  lemma ExampleTitlesNameNoParent(bookId: string)
    requires ExampleBook(bookId)
    ensures TitlesNameNoParent(ExampleRows(), bookId)
  {
    assert Head("A") == "A" && Head("B") == "B" && Head("C") == "C";
  }

  /** On the example listing, in any book whose id is none of the ids and titles involved, the
      root gets A, and B is NOT attached under A, because A's title is not a key of the child
      lists; C hangs under nothing. */
  lemma ExampleAsWritten(bookId: string, rootPath: string, fuel: nat)
    requires fuel >= 1
    requires ExampleBook(bookId)
    ensures TocInfo(bookId, rootPath, ExampleRows(), fuel).Some?
    ensures TocInfo(bookId, rootPath, ExampleRows(), fuel).value.nodes[bookId].children == ["1"]
    ensures TocInfo(bookId, rootPath, ExampleRows(), fuel).value.nodes["1"].children == []
  {
    ExampleTitlesNameNoParent(bookId);
    ExampleRootRows(bookId);
    FlatOutline(bookId, rootPath, ExampleRows(), fuel);
  }

  // ---------------------------------------------------------------------------------------
  // No visited set

  /** A key that has a pending child whose title head is that very key is enqueued again every
      time it is processed; so once it is queued, the expansion never drains its queue. */
  lemma {:induction false} SelfNamingLoops(nodes: map<string, TocNode>, depth: map<string, seq<string>>,
                                           queue: seq<string>, k: string, c: string, fuel: nat)
    requires Wired(nodes, depth)
    requires k in nodes && k in depth && c in depth[k]
    requires Head(nodes[c].title) == k
    requires k in queue
    ensures Run(nodes, depth, queue, fuel) == FuelExhausted
    decreases fuel
  {
    if fuel > 0 {
      var p := queue[0];
      var v := Visit(nodes, depth, p);
      var q := queue[1..] + Next(nodes, depth, p);
      assert k in q by {
        if p == k {
          EnqueuedComplete(nodes, depth, depth[k]);
          assert k in Next(nodes, depth, k);
        } else {
          assert queue == [p] + queue[1..];
        }
      }
      assert c in nodes;
      assert v[c].title == nodes[c].title;
      assert Wired(v, depth);
      assert Run(nodes, depth, queue, fuel) == Run(v, depth, q, fuel - 1);
      SelfNamingLoops(v, depth, q, k, c, fuel - 1);
    }
  }

  /** Heading 1 at the top; heading 2 under 1, titled "1". */
  function LoopRows(): seq<TocEntry>
  {
    [TocEntry("1", TitleKind, None, "1"),
     TocEntry("2", TitleKind, Some("1"), "1")]
  }

  lemma LoopRowsFiled(bookId: string)
    requires bookId != "1" && bookId != "2"
    ensures ChildIds(LoopRows(), bookId, bookId) == ["1"]
    ensures ChildIds(LoopRows(), bookId, "1") == ["2"]
    ensures LastTitle(LoopRows(), "1") == "1" && LastTitle(LoopRows(), "2") == "1"
    ensures "1" in HeadingIds(LoopRows()) && "2" in HeadingIds(LoopRows())
  {
    var entries := LoopRows();
    assert entries[0] in entries && entries[1] in entries;
    assert entries[..1][..0] == [];
    assert entries[..1] == [entries[0]];
    assert ChildIds(entries[..1], bookId, bookId) == ["1"];
    assert ChildIds(entries[..1], bookId, "1") == [];
    assert LastTitle(entries[..1], "1") == "1";
  }

  /** What the first pass records for the listing above. */
  lemma LoopRowsCollected(bookId: string, rootPath: string)
    requires bookId != "1" && bookId != "2"
    ensures var ix := Collect(bookId, rootPath, LoopRows());
            && bookId in ix.nodes && bookId in ix.depth && ix.depth[bookId] == ["1"]
            && "1" in ix.depth && ix.depth["1"] == ["2"]
            && "1" in ix.nodes && ix.nodes["1"].title == "1"
            && "2" in ix.nodes && ix.nodes["2"].title == "1"
  {
    var entries := LoopRows();
    LoopRowsFiled(bookId);
    CollectNodes(bookId, rootPath, entries);
    CollectDepth(bookId, rootPath, entries);
    assert ParentKey(entries[0], bookId) == bookId;
    assert ParentKey(entries[1], bookId) == "1";
    assert entries[0] in entries && entries[1] in entries;
  }

  /** On the listing above the expansion runs out of any fuel ... */
  lemma LoopingRunExhausts(bookId: string, rootPath: string, fuel: nat)
    requires bookId != "1" && bookId != "2"
    requires fuel > 0
    ensures var ix := Collect(bookId, rootPath, LoopRows());
            Run(ix.nodes, ix.depth, [bookId], fuel) == FuelExhausted
  {
    var ix := Collect(bookId, rootPath, LoopRows());
    LoopRowsCollected(bookId, rootPath);
    FirstRound(bookId, rootPath, LoopRows(), fuel);
    StoreLoops(ix.nodes, ix.depth, bookId, fuel);
  }

  /** Store-level form: the root's only child is "1", whose only pending child is titled "1". */
  lemma StoreLoops(nodes: map<string, TocNode>, depth: map<string, seq<string>>, root: string, fuel: nat)
    requires Wired(nodes, depth) && fuel > 0
    requires root in nodes && root in depth && depth[root] == ["1"]
    requires "1" in depth && depth["1"] == ["2"]
    requires "1" in nodes && nodes["1"].title == "1"
    requires "2" in nodes && nodes["2"].title == "1"
    ensures Run(Visit(nodes, depth, root), depth, Next(nodes, depth, root), fuel - 1) == FuelExhausted
  {
    assert Head("1") == "1";
    assert Enqueued(nodes, depth, ["1"]) == Enqueued(nodes, depth, []) + ["1"];
    var v := Visit(nodes, depth, root);
    assert v["2"].title == "1";
    SelfNamingLoops(v, depth, Next(nodes, depth, root), "1", "2", fuel - 1);
  }

  /** Without fuel no outline is built. */
  lemma NoFuelNoOutline(bookId: string, rootPath: string, entries: seq<TocEntry>)
    ensures TocInfo(bookId, rootPath, entries, 0).None?
  {
  }

  /** A run that finishes within some fuel finishes, with the same store, within any larger
      fuel: running out of fuel only ever means the bound was too small. */
  lemma {:induction false} RunMoreFuel(nodes: map<string, TocNode>, depth: map<string, seq<string>>, queue: seq<string>, f: nat, g: nat)
    requires Wired(nodes, depth)
    requires Run(nodes, depth, queue, f).Finished? && f <= g
    ensures Run(nodes, depth, queue, g) == Run(nodes, depth, queue, f)
    decreases f
  {
    if |queue| > 0 {
      RunMoreFuel(Visit(nodes, depth, queue[0]), depth, queue[1..] + Next(nodes, depth, queue[0]), f - 1, g - 1);
    }
  }

  /** So an outline built within some fuel is the outline for every larger fuel, and a
      listing without an outline under a large fuel has none under any smaller one. */
  lemma TocInfoMoreFuel(bookId: string, rootPath: string, entries: seq<TocEntry>, f: nat, g: nat)
    requires f <= g
    ensures TocInfo(bookId, rootPath, entries, f).Some? ==> TocInfo(bookId, rootPath, entries, g) == TocInfo(bookId, rootPath, entries, f)
    ensures TocInfo(bookId, rootPath, entries, g).None? ==> TocInfo(bookId, rootPath, entries, f).None?
  {
    var ix := Collect(bookId, rootPath, entries);
    if Run(ix.nodes, ix.depth, [bookId], f).Finished? {
      RunMoreFuel(ix.nodes, ix.depth, [bookId], f, g);
    }
  }

  /** ... so getYuqueTocInfo would not return on it. */
  lemma LoopingListingHangs(bookId: string, rootPath: string, fuel: nat)
    requires bookId != "1" && bookId != "2"
    ensures TocInfo(bookId, rootPath, LoopRows(), fuel).None?
  {
    if fuel == 0 {
      NoFuelNoOutline(bookId, rootPath, LoopRows());
    } else {
      LoopingRunExhausts(bookId, rootPath, fuel);
    }
  }
}
