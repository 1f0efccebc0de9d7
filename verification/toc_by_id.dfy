/**
 * The outline expansion keyed on the child's ID rather than on its title: the evidently
 * intended reading of the expansion loop of `getYuqueTocInfo`, where the value enqueued is
 * the child's own key in the node map (the uuid its row was stored under), not its title.
 * The first pass and the per-round attaching are shared with the as-written model.
 */
module TocById {
  import opened Wrappers
  import opened Toc

  /** What the inner loop enqueues when keyed on ids: each child that has pending children. */
  function EnqueuedById(depth: map<string, seq<string>>, cs: seq<string>): (us: seq<string>)
    ensures forall c :: c in cs && c in depth ==> c in us
    ensures forall u :: u in us ==> u in cs && u in depth
  {
    if |cs| == 0 then []
    else
      var c := cs[|cs| - 1];
      EnqueuedById(depth, cs[..|cs| - 1]) + (if c in depth then [c] else [])
  }

  function NextById(nodes: map<string, TocNode>, depth: map<string, seq<string>>, p: string): seq<string>
  {
    if p in nodes && p in depth then EnqueuedById(depth, depth[p]) else []
  }

  /** The expansion loop with children enqueued by id; `fuel` caps the number of rounds. */
  function RunById(nodes: map<string, TocNode>, depth: map<string, seq<string>>, queue: seq<string>, fuel: nat): Expansion
    decreases fuel
  {
    if |queue| == 0 then Finished(nodes)
    else if fuel == 0 then FuelExhausted
    else RunById(Visit(nodes, depth, queue[0]), depth, queue[1..] + NextById(nodes, depth, queue[0]), fuel - 1)
  }

  /** `getYuqueTocInfo` with the expansion keyed on ids. */
  function TocInfoById(bookId: string, rootPath: string, entries: seq<TocEntry>, fuel: nat): (o: Option<Outline>)
    ensures o.Some? ==> o.value.root == bookId && o.value.nodes.Keys == {bookId} + HeadingIds(entries)
  {
    var ix := Collect(bookId, rootPath, entries);
    var x := RunById(ix.nodes, ix.depth, [bookId], fuel);
    if x.Finished? then RunByIdExtends(ix.nodes, ix.depth, [bookId], fuel); Some(Outline(bookId, x.nodes))
    else None
  }

  /** The property the outline is meant to have: every node that hangs in the tree and has
      rows filed under it carries those rows as its (first) children. */
  predicate Closed(nodes: map<string, TocNode>, depth: map<string, seq<string>>)
  {
    forall k, c :: k in nodes && c in nodes[k].children && c in depth ==>
      c in nodes && depth[c] <= nodes[c].children
  }

  /** Every node is either untouched or carries its pending children first. */
  predicate Prefixed(nodes: map<string, TocNode>, depth: map<string, seq<string>>)
  {
    forall k :: k in nodes ==> nodes[k].children == [] || (k in depth && depth[k] <= nodes[k].children)
  }

  /** An attached node with pending children is expanded or still queued. */
  predicate Queued(nodes: map<string, TocNode>, depth: map<string, seq<string>>, queue: seq<string>)
  {
    forall k, c :: k in nodes && c in nodes[k].children && c in depth && c in nodes ==>
      depth[c] <= nodes[c].children || c in queue
  }

  /** The loop invariant behind `Closed`. */
  predicate Progress(nodes: map<string, TocNode>, depth: map<string, seq<string>>, queue: seq<string>)
  {
    Resolved(nodes) && Prefixed(nodes, depth) && Queued(nodes, depth, queue)
  }

  lemma ProgressStep(nodes: map<string, TocNode>, depth: map<string, seq<string>>, queue: seq<string>)
    requires Wired(nodes, depth) && |queue| > 0
    requires Progress(nodes, depth, queue)
    ensures Progress(Visit(nodes, depth, queue[0]), depth, queue[1..] + NextById(nodes, depth, queue[0]))
  {
    GrownVisit(nodes, depth, queue[0]);
    GrownResolved(nodes, Visit(nodes, depth, queue[0]), depth);
    StepPrefixed(nodes, depth, queue[0]);
    StepQueued(nodes, depth, queue);
  }

  lemma StepPrefixed(nodes: map<string, TocNode>, depth: map<string, seq<string>>, p: string)
    requires Prefixed(nodes, depth)
    ensures Prefixed(Visit(nodes, depth, p), depth)
  {
    var v := Visit(nodes, depth, p);
    forall k | k in v
      ensures v[k].children == [] || (k in depth && depth[k] <= v[k].children)
    {
      if k == p && p in nodes && p in depth {
        assert v[k].children == nodes[k].children + depth[k];
      }
    }
  }

  lemma StepQueued(nodes: map<string, TocNode>, depth: map<string, seq<string>>, queue: seq<string>)
    requires Wired(nodes, depth) && |queue| > 0
    requires Resolved(nodes) && Prefixed(nodes, depth) && Queued(nodes, depth, queue)
    ensures Queued(Visit(nodes, depth, queue[0]), depth, queue[1..] + NextById(nodes, depth, queue[0]))
  {
    var p := queue[0];
    var v := Visit(nodes, depth, p);
    var q := queue[1..] + NextById(nodes, depth, p);
    assert forall k :: k in nodes ==> nodes[k].children <= v[k].children;
    forall k, c | k in v && c in v[k].children && c in depth
      ensures depth[c] <= v[c].children || c in q
    {
      if c in nodes[k].children {
        if c !in queue[1..] && !(depth[c] <= nodes[c].children) {
          assert c in queue;
          assert queue == [p] + queue[1..];
          assert c == p;
        }
      } else {
        assert k == p && p in nodes && p in depth && c in depth[p];
        assert c in NextById(nodes, depth, p);
      }
    }
  }

  /** A finished id-keyed run leaves every attached node with pending children expanded. */
  lemma {:induction false} RunByIdCloses(nodes: map<string, TocNode>, depth: map<string, seq<string>>, queue: seq<string>, fuel: nat)
    requires Wired(nodes, depth)
    requires Progress(nodes, depth, queue)
    requires RunById(nodes, depth, queue, fuel).Finished?
    ensures Closed(RunById(nodes, depth, queue, fuel).nodes, depth)
    decreases fuel
  {
    if |queue| > 0 {
      ProgressStep(nodes, depth, queue);
      RunByIdCloses(Visit(nodes, depth, queue[0]), depth, queue[1..] + NextById(nodes, depth, queue[0]), fuel - 1);
    }
  }

  /** An id-keyed run only ever appends to a node's children. */
  lemma {:induction false} RunByIdExtends(nodes: map<string, TocNode>, depth: map<string, seq<string>>, queue: seq<string>, fuel: nat)
    requires RunById(nodes, depth, queue, fuel).Finished?
    ensures RunById(nodes, depth, queue, fuel).nodes.Keys == nodes.Keys
    ensures forall k :: k in nodes ==> nodes[k].children <= RunById(nodes, depth, queue, fuel).nodes[k].children
    decreases fuel
  {
    if |queue| > 0 {
      var v := Visit(nodes, depth, queue[0]);
      RunByIdExtends(v, depth, queue[1..] + NextById(nodes, depth, queue[0]), fuel - 1);
      assert forall k :: k in nodes ==> nodes[k].children <= v[k].children;
    }
  }

  /** Before the first round nothing is attached, so the invariant holds trivially. */
  lemma StartProgress(bookId: string, rootPath: string, entries: seq<TocEntry>)
    ensures Progress(Collect(bookId, rootPath, entries).nodes, Collect(bookId, rootPath, entries).depth, [bookId])
  {
    CollectNodes(bookId, rootPath, entries);
  }

  /** The first id-keyed round processes the book id. */
  lemma FirstRoundById(bookId: string, rootPath: string, entries: seq<TocEntry>, fuel: nat)
    requires fuel >= 1
    ensures var ix := Collect(bookId, rootPath, entries);
            RunById(ix.nodes, ix.depth, [bookId], fuel)
            == RunById(Visit(ix.nodes, ix.depth, bookId), ix.depth, NextById(ix.nodes, ix.depth, bookId), fuel - 1)
  {
    var ix := Collect(bookId, rootPath, entries);
    assert [bookId][1..] + NextById(ix.nodes, ix.depth, bookId) == NextById(ix.nodes, ix.depth, bookId);
  }

  /** A run from a single key keeps what the first round gave that key and ends `Closed`. */
  lemma RunByIdFromRoot(nodes: map<string, TocNode>, depth: map<string, seq<string>>, root: string, fuel: nat)
    requires Wired(nodes, depth) && root in nodes
    requires Progress(nodes, depth, [root])
    requires RunById(nodes, depth, [root], fuel).Finished?
    ensures root in RunById(nodes, depth, [root], fuel).nodes
    ensures Visit(nodes, depth, root)[root].children <= RunById(nodes, depth, [root], fuel).nodes[root].children
    ensures Closed(RunById(nodes, depth, [root], fuel).nodes, depth)
  {
    RunByIdCloses(nodes, depth, [root], fuel);
    RunByIdKeepsRoot(nodes, depth, root, fuel);
  }

  lemma RunByIdKeepsRoot(nodes: map<string, TocNode>, depth: map<string, seq<string>>, root: string, fuel: nat)
    requires root in nodes
    requires RunById(nodes, depth, [root], fuel).Finished?
    ensures root in RunById(nodes, depth, [root], fuel).nodes
    ensures Visit(nodes, depth, root)[root].children <= RunById(nodes, depth, [root], fuel).nodes[root].children
  {
    var v := Visit(nodes, depth, root);
    var q := NextById(nodes, depth, root);
    assert [root][1..] + q == q;
    assert RunById(nodes, depth, [root], fuel) == RunById(v, depth, q, fuel - 1);
    RunByIdExtends(v, depth, q, fuel - 1);
  }

  /** The intended outline: the root carries the rows filed under the book, in listing order,
      and every attached node with rows filed under it carries them as its children. */
  lemma OutlineByIdClosed(bookId: string, rootPath: string, entries: seq<TocEntry>, fuel: nat)
    requires TocInfoById(bookId, rootPath, entries, fuel).Some?
    ensures ChildIds(entries, bookId, bookId) <= TocInfoById(bookId, rootPath, entries, fuel).value.nodes[bookId].children
    ensures Closed(TocInfoById(bookId, rootPath, entries, fuel).value.nodes, Collect(bookId, rootPath, entries).depth)
  {
    var ix := Collect(bookId, rootPath, entries);
    StartProgress(bookId, rootPath, entries);
    FirstRound(bookId, rootPath, entries, fuel);
    RunByIdFromRoot(ix.nodes, ix.depth, bookId, fuel);
  }

  /** Two rounds: the root has the single child `a`, which has children, none of which has. */
  lemma TwoRounds(nodes: map<string, TocNode>, depth: map<string, seq<string>>, root: string, a: string, fuel: nat)
    requires fuel >= 2 && root in nodes && a in nodes
    requires root in depth && depth[root] == [a] && a in depth
    requires forall c :: c in depth[a] ==> c !in depth
    ensures RunById(nodes, depth, [root], fuel) == Finished(Visit(Visit(nodes, depth, root), depth, a))
  {
    var v1 := Visit(nodes, depth, root);
    assert EnqueuedById(depth, [a]) == [a];
    assert NextById(nodes, depth, root) == [a];
    assert [root][1..] + [a] == [a];
    var v2 := Visit(v1, depth, a);
    EnqueuedByIdNone(depth, depth[a]);
    assert NextById(v1, depth, a) == [];
    assert [a][1..] + [] == [];
    assert RunById(nodes, depth, [root], fuel) == RunById(v1, depth, [a], fuel - 1);
    assert RunById(v1, depth, [a], fuel - 1) == RunById(v2, depth, [], fuel - 2);
  }

  /** Children none of which has pending children enqueue nothing. */
  lemma {:induction false} EnqueuedByIdNone(depth: map<string, seq<string>>, cs: seq<string>)
    requires forall c :: c in cs ==> c !in depth
    ensures EnqueuedById(depth, cs) == []
    decreases |cs|
  {
    if |cs| > 0 {
      assert forall c :: c in cs[..|cs| - 1] ==> c in cs;
      EnqueuedByIdNone(depth, cs[..|cs| - 1]);
    }
  }

  lemma ExampleDepthKeys(bookId: string, rootPath: string)
    requires ExampleBook(bookId)
    ensures Collect(bookId, rootPath, ExampleRows()).depth.Keys == {bookId, "1", "99"}
  {
    var entries := ExampleRows();
    assert ParentKey(entries[0], bookId) == bookId;
    assert ParentKey(entries[1], bookId) == "1";
    assert ParentKey(entries[2], bookId) == "99";
  }

  lemma ExampleRowsUnderA(bookId: string)
    requires ExampleBook(bookId)
    ensures ChildIds(ExampleRows(), bookId, "1") == ["2"]
  {
    var entries := ExampleRows();
    assert entries[..1][..0] == [];
    assert ChildIds(entries[..1], bookId, "1") == [];
    assert entries[..2][..1] == entries[..1];
    assert ChildIds(entries[..2], bookId, "1") == ["2"];
    assert entries[..3] == entries;
  }

  lemma ExampleRowsUnder99(bookId: string)
    requires ExampleBook(bookId)
    ensures ChildIds(ExampleRows(), bookId, "99") == ["3"]
  {
    var entries := ExampleRows();
    assert entries[..1][..0] == [];
    assert ChildIds(entries[..1], bookId, "99") == [];
    assert entries[..2][..1] == entries[..1];
    assert ChildIds(entries[..2], bookId, "99") == [];
    assert entries[..3] == entries;
  }

  /** On the example listing, filed under the book: A; under A: B; under the unlisted 99: C. */
  lemma ExampleDepth(bookId: string, rootPath: string)
    requires ExampleBook(bookId)
    ensures Collect(bookId, rootPath, ExampleRows()).depth.Keys == {bookId, "1", "99"}
    ensures Collect(bookId, rootPath, ExampleRows()).depth[bookId] == ["1"]
    ensures Collect(bookId, rootPath, ExampleRows()).depth["1"] == ["2"]
    ensures Collect(bookId, rootPath, ExampleRows()).depth["99"] == ["3"]
  {
    ExampleDepthKeys(bookId, rootPath);
    CollectDepth(bookId, rootPath, ExampleRows());
    ExampleRootRows(bookId);
    ExampleRowsUnderA(bookId);
    ExampleRowsUnder99(bookId);
  }

  /** The id-keyed run on the example processes the root, then A, and stops. */
  lemma ExampleRunById(bookId: string, rootPath: string, fuel: nat)
    requires fuel >= 2
    requires ExampleBook(bookId)
    ensures var ix := Collect(bookId, rootPath, ExampleRows());
            RunById(ix.nodes, ix.depth, [bookId], fuel)
            == Finished(Visit(Visit(ix.nodes, ix.depth, bookId), ix.depth, "1"))
  {
    var ix := Collect(bookId, rootPath, ExampleRows());
    ExampleDepth(bookId, rootPath);
    ExampleRootRows(bookId);
    assert bookId in ix.nodes && "1" in ix.nodes;
    assert "2" !in ix.depth;
    assert forall c :: c in ix.depth["1"] ==> c !in ix.depth;
    TwoRounds(ix.nodes, ix.depth, bookId, "1", fuel);
  }

  /** The example built by id: the run ends after two rounds, and B hangs under A. */
  lemma ExampleById(bookId: string, rootPath: string, fuel: nat)
    requires fuel >= 2
    requires ExampleBook(bookId)
    ensures TocInfoById(bookId, rootPath, ExampleRows(), fuel).Some?
    ensures "1" in TocInfoById(bookId, rootPath, ExampleRows(), fuel).value.nodes
    ensures TocInfoById(bookId, rootPath, ExampleRows(), fuel).value.nodes[bookId].children == ["1"]
    ensures TocInfoById(bookId, rootPath, ExampleRows(), fuel).value.nodes["1"].children == ["2"]
  {
    var ix := Collect(bookId, rootPath, ExampleRows());
    ExampleRunById(bookId, rootPath, fuel);
    ExampleDepth(bookId, rootPath);
    ExampleRootRows(bookId);
    CollectNodes(bookId, rootPath, ExampleRows());
    var v1 := Visit(ix.nodes, ix.depth, bookId);
    assert v1[bookId].children == ["1"];
    assert v1["1"].children == [];
    var v2 := Visit(v1, ix.depth, "1");
    assert v2[bookId].children == ["1"];
    assert v2["1"].children == ["2"];
  }

  /** The same example built as written is not `Closed`: A hangs under the root and has B filed
      under it, yet A has no children. */
  lemma ExampleAsWrittenNotClosed(bookId: string, rootPath: string, fuel: nat)
    requires fuel >= 1
    requires ExampleBook(bookId)
    ensures TocInfo(bookId, rootPath, ExampleRows(), fuel).Some?
    ensures !Closed(TocInfo(bookId, rootPath, ExampleRows(), fuel).value.nodes, Collect(bookId, rootPath, ExampleRows()).depth)
  {
    ExampleAsWritten(bookId, rootPath, fuel);
    ExampleDepth(bookId, rootPath);
    var n := TocInfo(bookId, rootPath, ExampleRows(), fuel).value.nodes;
    assert "1" in n[bookId].children;
  }
}
