/**
 * The evaluation script's modelled parts: the top-n root-to-leaf paths of an
 * event graph, the multi-branch baseline chain, and the per-strategy
 * averaging of the judge's seven category scores.
 */
module RunEvaluation {
  import opened Wrappers
  import Text
  import Argmax
  import Ranking
  import EventGraphPy

  // ---------------------------------------------------------------------------
  // Top-n paths
  // ---------------------------------------------------------------------------

  /** One `(path, path_text, path_score)` triple. */
  datatype TopEntry = TopEntry(path: seq<int>, pathText: string, pathScore: real)

  function EntryScore(e: TopEntry): real
  {
    e.pathScore
  }

  /** A path with its texts as "- t" lines joined by "\n" and its score. */
  function Entry(g: EventGraphPy.EventGraph, p: seq<int>): TopEntry
    reads g
    requires OnNodes(g, p)
  {
    TopEntry(p, Text.Bulleted(g.Texts(p)), g.PathScore(p))
  }

  /** Every node of `p` is in the graph. */
  predicate OnNodes(g: EventGraphPy.EventGraph, p: seq<int>)
    reads g
  {
    forall j :: 0 <= j < |p| ==> p[j] in g.nodes
  }

  predicate InGraph(g: EventGraphPy.EventGraph, paths: seq<seq<int>>)
    reads g
  {
    forall i :: 0 <= i < |paths| ==> OnNodes(g, paths[i])
  }

  function Entries(g: EventGraphPy.EventGraph, paths: seq<seq<int>>): (r: seq<TopEntry>)
    reads g
    requires InGraph(g, paths)
    ensures |r| == |paths| && forall i :: 0 <= i < |paths| ==> r[i] == Entry(g, paths[i])
  {
    seq(|paths|, i reads g requires 0 <= i < |paths| && OnNodes(g, paths[i]) => Entry(g, paths[i]))
  }

  /** Python's `xs[:n]`: the first n entries, or for negative n all but the last -n. */
  function SliceTo<T>(xs: seq<T>, n: int): (r: seq<T>)
    ensures |r| <= |xs| && r == xs[..|r|]
    ensures n >= 0 ==> |r| == (if n <= |xs| then n else |xs|)
    ensures n < 0 ==> |r| == (if |xs| + n >= 0 then |xs| + n else 0)
  {
    if n >= 0 then (if n <= |xs| then xs[..n] else xs)
    else if |xs| + n >= 0 then xs[..|xs| + n]
    else []
  }

  /** The scoring loop of `get_top_n_paths`: each path with its text and score. */
  method ScoreEntries(g: EventGraphPy.EventGraph, paths: seq<seq<int>>) returns (scored: seq<TopEntry>)
    requires InGraph(g, paths)
    ensures scored == Entries(g, paths)
  {
    scored := [];
    for i := 0 to |paths|
      invariant |scored| == i
      invariant forall j :: 0 <= j < i ==> scored[j] == Entry(g, paths[j])
    {
      var pathScore := g.ComputePathScore(paths[i]);
      var pathText := Text.Bulleted(g.Texts(paths[i]));
      scored := scored + [TopEntry(paths[i], pathText, pathScore)];
    }
  }

  /** The entries' scores are the paths' scores, so the sort puts `get_top_path`'s choice first. */
  lemma EntriesHead(g: EventGraphPy.EventGraph, paths: seq<seq<int>>)
    requires InGraph(g, paths) && |paths| > 0
    ensures Argmax.FirstMaxIndex(g.PathScores(paths)).Some?
    ensures Ranking.SortDesc(Entries(g, paths), EntryScore)[0].path
         == paths[Argmax.FirstMaxIndex(g.PathScores(paths)).value]
  {
    Ranking.SortDescHead(Entries(g, paths), EntryScore);
    EntryKeys(g, paths);
  }

  /** The entries' sort keys are the paths' scores. */
  lemma EntryKeys(g: EventGraphPy.EventGraph, paths: seq<seq<int>>)
    requires InGraph(g, paths)
    ensures Ranking.Keys(Entries(g, paths), EntryScore) == g.PathScores(paths)
  {
    var es, ks, ps := Entries(g, paths), Ranking.Keys(Entries(g, paths), EntryScore), g.PathScores(paths);
    forall i | 0 <= i < |paths| ensures ks[i] == ps[i] {
      assert es[i] == Entry(g, paths[i]);
    }
  }

  /** A cut of a sorted list is sorted and holds only members of the list. */
  lemma SliceOfSorted<T>(xs: seq<T>, key: T -> real, n: int)
    ensures var r := SliceTo(Ranking.SortDesc(xs, key), n);
      Ranking.SortedDesc(r, key) && forall x :: x in r ==> x in xs
  {
    var sorted := Ranking.SortDesc(xs, key);
    Ranking.SortDescSorted(xs, key);
    var r := SliceTo(sorted, n);
    forall x | x in r ensures x in xs {
      assert x in multiset(sorted);
    }
  }

  /** Each member of the entries is the entry of one of the paths. */
  lemma EntryMember(g: EventGraphPy.EventGraph, paths: seq<seq<int>>, e: TopEntry)
    requires InGraph(g, paths) && e in Entries(g, paths)
    ensures e.path in paths && OnNodes(g, e.path) && e == Entry(g, e.path)
  {
    var es := Entries(g, paths);
    var j :| 0 <= j < |es| && es[j] == e;
    assert e == Entry(g, paths[j]);
    assert e.path == paths[j];
  }

  /** Each entry of the sorted, cut list is the entry of one of the paths. */
  lemma SlicedEntries(g: EventGraphPy.EventGraph, paths: seq<seq<int>>, n: int)
    requires InGraph(g, paths)
    ensures var r := SliceTo(Ranking.SortDesc(Entries(g, paths), EntryScore), n);
      forall i :: 0 <= i < |r| ==> r[i].path in paths && OnNodes(g, r[i].path) && r[i] == Entry(g, r[i].path)
  {
    var r := SliceTo(Ranking.SortDesc(Entries(g, paths), EntryScore), n);
    SliceOfSorted(Entries(g, paths), EntryScore, n);
    forall i | 0 <= i < |r|
      ensures r[i].path in paths && OnNodes(g, r[i].path) && r[i] == Entry(g, r[i].path)
    {
      EntryMember(g, paths, r[i]);
    }
  }

  /** The non-empty case of `get_top_n_paths`: score, sort, cut. */
  method TopNOf(g: EventGraphPy.EventGraph, paths: seq<seq<int>>, n: int) returns (r: seq<TopEntry>)
    requires InGraph(g, paths) && |paths| > 0
    ensures r == SliceTo(Ranking.SortDesc(Entries(g, paths), EntryScore), n)
    ensures Ranking.SortedDesc(r, EntryScore)
    ensures forall i :: 0 <= i < |r| ==> r[i].path in paths && OnNodes(g, r[i].path) && r[i] == Entry(g, r[i].path)
    ensures n >= 0 ==> |r| <= n
    ensures n >= 1 ==>
      var best := Argmax.FirstMaxIndex(g.PathScores(paths));
      best.Some? && r[0].path == paths[best.value]
  {
    var scoredPaths := ScoreEntries(g, paths);
    var sorted := Ranking.SortDesc(scoredPaths, EntryScore);
    r := SliceTo(sorted, n);
    SliceOfSorted(scoredPaths, EntryScore, n);
    SlicedEntries(g, paths, n);
    if n >= 1 {
      EntriesHead(g, paths);
    }
  }

  /** The root-to-leaf paths only visit nodes of the graph. */
  lemma LeafPathsInGraph(g: EventGraphPy.EventGraph, rootId: int)
    requires g.Valid()
    ensures InGraph(g, g.RootToLeafPaths(rootId))
  {
    var paths := g.RootToLeafPaths(rootId);
    forall i | 0 <= i < |paths| ensures OnNodes(g, paths[i]) {
      assert g.IsLeafPath(rootId, paths[i]);
    }
  }

  /**
   * What `get_top_n_paths` returns given the root-to-leaf `paths`: the root
   * alone when there is none; otherwise the paths with their texts and
   * scores, stably sorted by non-increasing score, cut to the first `n`.
   */
  function TopN(g: EventGraphPy.EventGraph, rootId: int, paths: seq<seq<int>>, n: int): seq<TopEntry>
    reads g
    requires rootId in g.nodes && InGraph(g, paths)
  {
    if |paths| == 0 then [Entry(g, [rootId])]
    else SliceTo(Ranking.SortDesc(Entries(g, paths), EntryScore), n)
  }

  /** The body of `get_top_n_paths` once the root-to-leaf paths are known. */
  method TopNFromPaths(g: EventGraphPy.EventGraph, rootId: int, allPaths: seq<seq<int>>, n: int) returns (r: seq<TopEntry>)
    requires rootId in g.nodes && InGraph(g, allPaths)
    ensures r == TopN(g, rootId, allPaths, n)
  {
    if |allPaths| == 0 {
      var singlePath := [rootId];
      var pathScore := g.ComputePathScore(singlePath);
      var text := Text.Bulleted(g.Texts(singlePath));
      return [TopEntry(singlePath, text, pathScore)];
    }
    r := TopNOf(g, allPaths, n);
  }

  /** `get_top_n_paths`: the top `n` root-to-leaf paths with their texts and scores. */
  method GetTopNPaths(g: EventGraphPy.EventGraph, rootId: int, n: int) returns (r: seq<TopEntry>)
    requires g.Valid() && rootId in g.nodes
    ensures InGraph(g, g.RootToLeafPaths(rootId))
    ensures r == TopN(g, rootId, g.RootToLeafPaths(rootId), n)
  {
    var allPaths := g.RootToLeafPaths(rootId);
    LeafPathsInGraph(g, rootId);
    r := TopNFromPaths(g, rootId, allPaths, n);
  }

  /**
   * The top-n list is sorted by non-increasing score and has at most `n`
   * entries unless it is the root alone.
   */
  lemma TopNSorted(g: EventGraphPy.EventGraph, rootId: int, paths: seq<seq<int>>, n: int)
    requires rootId in g.nodes && InGraph(g, paths)
    ensures Ranking.SortedDesc(TopN(g, rootId, paths, n), EntryScore)
    ensures paths == [] ==> |TopN(g, rootId, paths, n)| == 1
    ensures paths != [] && n >= 0 ==> |TopN(g, rootId, paths, n)| <= n
  {
    if |paths| > 0 {
      SliceOfSorted(Entries(g, paths), EntryScore, n);
    }
  }

  /** With no path, the only entry is the root's. */
  lemma TopNRootEntry(g: EventGraphPy.EventGraph, rootId: int, paths: seq<seq<int>>, n: int)
    requires rootId in g.nodes && InGraph(g, paths) && paths == []
    ensures OnNodes(g, [rootId]) && TopN(g, rootId, paths, n) == [Entry(g, [rootId])]
  {
    assert |paths| == 0;
  }

  /** With paths, each entry is one of them. */
  lemma TopNPathEntries(g: EventGraphPy.EventGraph, rootId: int, paths: seq<seq<int>>, n: int)
    requires rootId in g.nodes && InGraph(g, paths) && paths != []
    ensures var r := TopN(g, rootId, paths, n);
      forall i :: 0 <= i < |r| ==> r[i].path in paths && OnNodes(g, r[i].path) && r[i] == Entry(g, r[i].path)
  {
    SlicedEntries(g, paths, n);
    assert TopN(g, rootId, paths, n) == SliceTo(Ranking.SortDesc(Entries(g, paths), EntryScore), n);
  }

  /**
   * Each top-n entry is the root or one of the given paths, with its own
   * texts as bullet lines and its own score.
   */
  lemma TopNEntries(g: EventGraphPy.EventGraph, rootId: int, paths: seq<seq<int>>, n: int)
    requires rootId in g.nodes && InGraph(g, paths)
    ensures var r := TopN(g, rootId, paths, n);
      forall i :: 0 <= i < |r| ==> (r[i].path == [rootId] || r[i].path in paths) && OnNodes(g, r[i].path) && r[i] == Entry(g, r[i].path)
  {
    if paths == [] {
      TopNRootEntry(g, rootId, paths, n);
    } else {
      TopNPathEntries(g, rootId, paths, n);
    }
  }

  /** With paths and `n >= 1`, the first entry is the path `get_top_path` picks. */
  lemma TopNHeadIsTopPath(g: EventGraphPy.EventGraph, rootId: int, paths: seq<seq<int>>, n: int)
    requires rootId in g.nodes && InGraph(g, paths) && n >= 1 && paths != []
    ensures var best := Argmax.FirstMaxIndex(g.PathScores(paths));
      best.Some? && |TopN(g, rootId, paths, n)| >= 1 && TopN(g, rootId, paths, n)[0].path == paths[best.value]
  {
    EntriesHead(g, paths);
  }

  // ---------------------------------------------------------------------------
  // The multi-branch baseline
  // ---------------------------------------------------------------------------

  /** Every node of `a` is in `b` with the same attributes. */
  predicate Extends(a: map<int, EventGraphPy.NodeData>, b: map<int, EventGraphPy.NodeData>)
  {
    a.Keys <= b.Keys && forall x :: x in a ==> b[x] == a[x]
  }

  /** The texts of the chain's nodes, in chain order. */
  function ChainTexts(nodes: map<int, EventGraphPy.NodeData>, chain: seq<int>): (r: seq<string>)
    requires forall i :: 0 <= i < |chain| ==> chain[i] in nodes
    ensures |r| == |chain| && forall i :: 0 <= i < |chain| ==> r[i] == nodes[chain[i]].text
  {
    seq(|chain|, i requires 0 <= i < |chain| => nodes[chain[i]].text)
  }

  lemma ExtendsAt(a: map<int, EventGraphPy.NodeData>, b: map<int, EventGraphPy.NodeData>, x: int)
    requires Extends(a, b) && x in a
    ensures x in b && b[x] == a[x]
  {
  }

  lemma ExtendsTrans(a: map<int, EventGraphPy.NodeData>, b: map<int, EventGraphPy.NodeData>,
                     c: map<int, EventGraphPy.NodeData>)
    requires Extends(a, b) && Extends(b, c)
    ensures Extends(a, c)
  {
    forall x | x in a
      ensures x in c && c[x] == a[x]
    {
      ExtendsAt(a, b, x);
      ExtendsAt(b, c, x);
    }
  }

  /**
   * The prompt `generate_next_event(from_node=k)` sends when `chain` is the
   * chain ending at `k`: the chain's texts and `k`'s forward guesses, with no
   * entity graph and no user prompt.
   */
  function ChainPrompt(nodes: map<int, EventGraphPy.NodeData>, chain: seq<int>): string
    requires |chain| >= 1 && forall i :: 0 <= i < |chain| ==> chain[i] in nodes
  {
    EventGraphPy.NextPrompt(ChainTexts(nodes, chain), nodes[chain[|chain| - 1]].prevGuessesForward, false, "", "")
  }

  /** The prompt only depends on the chain's own nodes. */
  lemma ChainPromptStable(a: map<int, EventGraphPy.NodeData>, b: map<int, EventGraphPy.NodeData>, chain: seq<int>)
    requires |chain| >= 1 && forall i :: 0 <= i < |chain| ==> chain[i] in a
    requires Extends(a, b)
    ensures forall i :: 0 <= i < |chain| ==> chain[i] in b
    ensures ChainPrompt(a, chain) == ChainPrompt(b, chain)
  {
    forall i | 0 <= i < |chain|
      ensures chain[i] in b && b[chain[i]] == a[chain[i]]
    {
      ExtendsAt(a, b, chain[i]);
    }
    assert ChainTexts(a, chain) == ChainTexts(b, chain);
  }

  /** The prompt of `generate_next_event` for the last node of a parent chain. */
  lemma ChainPromptIsNextPrompt(g: EventGraphPy.EventGraph, chain: seq<int>)
    requires g.Valid() && EventGraphPy.ParentChain(g, chain)
    ensures g.Ancestry(chain[|chain| - 1]) == chain
    ensures g.Texts(chain) == ChainTexts(g.nodes, chain)
  {
    EventGraphPy.AncestryUnique(g, chain);
    assert g.Texts(chain) == ChainTexts(g.nodes, chain);
  }

  /** One fresh child of `current`: `add_event_node(text)` then `add_edge(current, child)`. */
  method AddChild(g: EventGraphPy.EventGraph, current: int, text: string) returns (childId: int)
    modifies g
    requires g.Valid() && current in g.nodes
    ensures g.Valid()
    ensures childId == old(g.nextKey) && childId !in old(g.nodes) && g.nextKey == old(g.nextKey) + 1
    ensures g.nodes == old(g.nodes)[childId := EventGraphPy.NodeData(text, [], [], 0, 0)]
    ensures |g.order| == |old(g.order)| + 1
    ensures g.edges == old(g.edges) + [EventGraphPy.Edge(current, childId, None)]
    ensures g.Parents(childId) == [current] && g.Children(childId) == []
    ensures g.Children(current) == old(g.Children(current)) + [childId]
    ensures forall x :: x != current ==> g.Children(x) == old(g.Children(x))
    ensures forall x :: x != childId ==> g.Parents(x) == old(g.Parents(x))
  {
    ghost var before := g.edges;
    childId := g.AddEventNode(text, None, None);
    forall e | e in g.edges
      ensures e.to != childId && e.from != childId
    {
    }
    EventGraphPy.NoSuccessors(g.edges, childId);
    g.AddEdge(current, childId, None);
    var e := EventGraphPy.Edge(current, childId, None);
    forall x
      ensures g.Children(x) == EventGraphPy.Successors(before, x) + (if x == current then [childId] else [])
    {
      EventGraphPy.SuccessorsAppend(before, e, x);
    }
    forall x
      ensures g.Parents(x) == EventGraphPy.Predecessors(before, x) + (if x == childId then [current] else [])
    {
      EventGraphPy.PredecessorsAppend(before, e, x);
    }
  }

  /**
   * One pass of the inner loop: `generate_next_event(from_node=current)`
   * answered by `call`, and on success a fresh child of `current` with the
   * reply as its text; on failure nothing changes.
   */
  method ExpandOnce(g: EventGraphPy.EventGraph, current: int, ghost chain: seq<int>, ghost prompt: string,
                    call: string -> Outcome<string>)
    returns (r: Outcome<int>)
    modifies g
    requires g.Valid() && EventGraphPy.ParentChain(g, chain) && chain[|chain| - 1] == current
    requires prompt == ChainPrompt(g.nodes, chain)
    ensures g.Valid() && EventGraphPy.ParentChain(g, chain)
    ensures r.Thrown? <==> call(prompt).Thrown?
    ensures r.Thrown? ==> g.nodes == old(g.nodes) && g.edges == old(g.edges) && g.order == old(g.order) && g.nextKey == old(g.nextKey)
    ensures r.Ok? ==>
      && r.value == old(g.nextKey) && r.value !in old(g.nodes) && g.nextKey == old(g.nextKey) + 1
      && g.nodes == old(g.nodes)[r.value := EventGraphPy.NodeData(call(prompt).value, [], [], 0, 0)]
      && |g.order| == |old(g.order)| + 1
      && g.edges == old(g.edges) + [EventGraphPy.Edge(current, r.value, None)]
  {
    var ev := AskNext(g, current, chain, prompt, call);
    if ev.Thrown? {
      return Thrown;
    }
    ghost var nodes0, edges0 := g.nodes, g.edges;
    var childId := AddChild(g, current, ev.value);
    ChildKeepsChain(nodes0, edges0, g, chain, childId);
    r := Ok(childId);
  }

  /** `generate_next_event(from_node=current)` asks the oracle the chain's prompt. */
  method AskNext(g: EventGraphPy.EventGraph, current: int, ghost chain: seq<int>, ghost prompt: string,
                 call: string -> Outcome<string>)
    returns (ev: Outcome<string>)
    requires g.Valid() && EventGraphPy.ParentChain(g, chain) && chain[|chain| - 1] == current
    requires prompt == ChainPrompt(g.nodes, chain)
    ensures ev == call(prompt)
  {
    ChainPromptIsNextPrompt(g, chain);
    ev := g.GenerateNextEvent(current, false, "", "", call);
  }

  /** A chain of the graph before a child was added stays one: no node of it gained a parent. */
  lemma ChildKeepsChain(nodes0: map<int, EventGraphPy.NodeData>, edges0: seq<EventGraphPy.Edge>,
                        g: EventGraphPy.EventGraph, chain: seq<int>, childId: int)
    requires EventGraphPy.ChainOver(nodes0, edges0, chain)
    requires childId !in nodes0 && nodes0.Keys <= g.nodes.Keys
    requires forall x :: x != childId ==> g.Parents(x) == EventGraphPy.Predecessors(edges0, x)
    ensures EventGraphPy.ParentChain(g, chain)
  {
    EventGraphPy.ChainOverKept(nodes0, edges0, g.nodes, g.edges, chain);
  }

  /** The reply of oracle call number `i` to `prompt`. */
  function Reply(oracle: nat -> string -> Outcome<string>, i: nat, prompt: string): Outcome<string>
  {
    oracle(i)(prompt)
  }

  /** The oracle call after the `|kids|` that answered raised. */
  predicate StoppedAt(oracle: nat -> string -> Outcome<string>, calls: nat, kids: seq<int>, prompt: string)
  {
    Reply(oracle, calls + |kids|, prompt).Thrown?
  }

  /** `kid` is a leaf below `current` whose text is the successful `reply`. */
  predicate KidMade(nodes: map<int, EventGraphPy.NodeData>, edges: seq<EventGraphPy.Edge>,
                    current: int, kid: int, reply: Outcome<string>)
  {
    && kid in nodes
    && EventGraphPy.Predecessors(edges, kid) == [current]
    && EventGraphPy.Successors(edges, kid) == []
    && reply.Ok?
    && nodes[kid] == EventGraphPy.NodeData(reply.value, [], [], 0, 0)
  }

  /** The nodes of `nodes0` kept their parents, and their children except `current`'s. */
  predicate FrameKept(nodes0: map<int, EventGraphPy.NodeData>, edges0: seq<EventGraphPy.Edge>,
                      edges: seq<EventGraphPy.Edge>, current: int)
  {
    && (forall x :: x in nodes0 && x != current ==> EventGraphPy.Successors(edges, x) == EventGraphPy.Successors(edges0, x))
    && (forall x :: x in nodes0 ==> EventGraphPy.Predecessors(edges, x) == EventGraphPy.Predecessors(edges0, x))
  }

  /**
   * What the inner loop has done to a graph with nodes `nodes0` and edges
   * `edges0` so far: the nodes are kept, `current` gained the children `kids`
   * in order, no other node's children or parents changed, and the `i`-th
   * child is the fresh node `firstKey + i`, a leaf below `current`, with
   * oracle call `calls + i`'s reply to `prompt` as its text.
   */
  predicate Expanded(nodes0: map<int, EventGraphPy.NodeData>, edges0: seq<EventGraphPy.Edge>,
                     nodes: map<int, EventGraphPy.NodeData>, edges: seq<EventGraphPy.Edge>,
                     current: int, kids: seq<int>, firstKey: int,
                     oracle: nat -> string -> Outcome<string>, calls: nat, prompt: string)
  {
    && Extends(nodes0, nodes)
    && EventGraphPy.Successors(edges, current) == EventGraphPy.Successors(edges0, current) + kids
    && FrameKept(nodes0, edges0, edges, current)
    && (forall i :: 0 <= i < |kids| ==> kids[i] == firstKey + i)
    && (forall i :: 0 <= i < |kids| ==> KidMade(nodes, edges, current, kids[i], Reply(oracle, calls + i, prompt)))
  }

  /** Before the first pass nothing has been added. */
  lemma ExpandedNothing(nodes0: map<int, EventGraphPy.NodeData>, edges0: seq<EventGraphPy.Edge>, current: int,
                        firstKey: int, oracle: nat -> string -> Outcome<string>, calls: nat, prompt: string)
    ensures Expanded(nodes0, edges0, nodes0, edges0, current, [], firstKey, oracle, calls, prompt)
  {
  }

  /** Appending the edge `current -> child` for a fresh `child`: who gains what. */
  lemma EdgeAppended(edges: seq<EventGraphPy.Edge>, current: int, child: int, x: int)
    requires forall e :: e in edges ==> e.from != child && e.to != child
    ensures EventGraphPy.Successors(edges + [EventGraphPy.Edge(current, child, None)], x)
         == EventGraphPy.Successors(edges, x) + (if x == current then [child] else [])
    ensures EventGraphPy.Predecessors(edges + [EventGraphPy.Edge(current, child, None)], x)
         == EventGraphPy.Predecessors(edges, x) + (if x == child then [current] else [])
    ensures x == child ==> EventGraphPy.Successors(edges, x) == [] && EventGraphPy.Predecessors(edges, x) == []
  {
    EventGraphPy.SuccessorsAppend(edges, EventGraphPy.Edge(current, child, None), x);
    EventGraphPy.PredecessorsAppend(edges, EventGraphPy.Edge(current, child, None), x);
    if x == child {
      EventGraphPy.NoSuccessors(edges, x);
    }
  }

  lemma FrameStep(nodes0: map<int, EventGraphPy.NodeData>, edges0: seq<EventGraphPy.Edge>,
                  edges: seq<EventGraphPy.Edge>, current: int, child: int)
    requires FrameKept(nodes0, edges0, edges, current) && child !in nodes0
    requires forall e :: e in edges ==> e.from != child && e.to != child
    ensures FrameKept(nodes0, edges0, edges + [EventGraphPy.Edge(current, child, None)], current)
  {
    forall x | x in nodes0
      ensures x != current ==>
        EventGraphPy.Successors(edges + [EventGraphPy.Edge(current, child, None)], x) == EventGraphPy.Successors(edges0, x)
      ensures EventGraphPy.Predecessors(edges + [EventGraphPy.Edge(current, child, None)], x)
           == EventGraphPy.Predecessors(edges0, x)
    {
      EdgeAppended(edges, current, child, x);
    }
  }

  lemma KidStep(nodes: map<int, EventGraphPy.NodeData>, edges: seq<EventGraphPy.Edge>,
                current: int, kid: int, reply: Outcome<string>, child: int, data: EventGraphPy.NodeData)
    requires KidMade(nodes, edges, current, kid, reply) && kid != current && kid != child
    requires forall e :: e in edges ==> e.from != child && e.to != child
    ensures KidMade(nodes[child := data], edges + [EventGraphPy.Edge(current, child, None)], current, kid, reply)
  {
    EdgeAppended(edges, current, child, kid);
  }

  lemma NewKid(nodes: map<int, EventGraphPy.NodeData>, edges: seq<EventGraphPy.Edge>,
               current: int, child: int, reply: Outcome<string>)
    requires reply.Ok? && current != child
    requires forall e :: e in edges ==> e.from != child && e.to != child
    ensures KidMade(nodes[child := EventGraphPy.NodeData(reply.value, [], [], 0, 0)],
                    edges + [EventGraphPy.Edge(current, child, None)], current, child, reply)
  {
    EdgeAppended(edges, current, child, child);
  }

  /** One more child, `add_event_node` then `add_edge(current, child)`, keeps `Expanded`. */
  lemma ExpandedStep(nodes0: map<int, EventGraphPy.NodeData>, edges0: seq<EventGraphPy.Edge>,
                     nodes: map<int, EventGraphPy.NodeData>, edges: seq<EventGraphPy.Edge>,
                     current: int, kids: seq<int>, child: int, firstKey: int,
                     oracle: nat -> string -> Outcome<string>, calls: nat, prompt: string)
    requires Expanded(nodes0, edges0, nodes, edges, current, kids, firstKey, oracle, calls, prompt)
    requires current in nodes0 && forall x :: x in nodes0 ==> x < firstKey
    requires forall e :: e in edges ==> e.from in nodes && e.to in nodes
    requires child == firstKey + |kids| && child !in nodes
    requires Reply(oracle, calls + |kids|, prompt).Ok?
    ensures Expanded(nodes0, edges0,
                     nodes[child := EventGraphPy.NodeData(Reply(oracle, calls + |kids|, prompt).value, [], [], 0, 0)],
                     edges + [EventGraphPy.Edge(current, child, None)],
                     current, kids + [child], firstKey, oracle, calls, prompt)
  {
    var reply := Reply(oracle, calls + |kids|, prompt);
    var data := EventGraphPy.NodeData(reply.value, [], [], 0, 0);
    var edges' := edges + [EventGraphPy.Edge(current, child, None)];
    var kids' := kids + [child];
    assert forall e :: e in edges ==> e.from != child && e.to != child;
    EdgeAppended(edges, current, child, current);
    FrameStep(nodes0, edges0, edges, current, child);
    forall i | 0 <= i < |kids'|
      ensures KidMade(nodes[child := data], edges', current, kids'[i], Reply(oracle, calls + i, prompt))
    {
      if i < |kids| {
        KidStep(nodes, edges, current, kids[i], Reply(oracle, calls + i, prompt), child, data);
      } else {
        NewKid(nodes, edges, current, child, reply);
      }
    }
  }

  /**
   * One pass of the inner loop: oracle call `calls + |kids|` and, when it
   * answers, one more child of `current`.
   */
  method ExpandStep(g: EventGraphPy.EventGraph, current: int, ghost chain: seq<int>, ghost prompt: string,
                    oracle: nat -> string -> Outcome<string>, calls: nat, kids: seq<int>,
                    ghost nodes0: map<int, EventGraphPy.NodeData>, ghost edges0: seq<EventGraphPy.Edge>, ghost firstKey: int)
    returns (made: Outcome<int>)
    modifies g
    requires g.Valid() && EventGraphPy.ParentChain(g, chain) && chain[|chain| - 1] == current
    requires forall i :: 0 <= i < |chain| ==> chain[i] in nodes0
    requires prompt == ChainPrompt(nodes0, chain)
    requires current in nodes0 && forall x :: x in nodes0 ==> x < firstKey
    requires g.nextKey == firstKey + |kids|
    requires Expanded(nodes0, edges0, g.nodes, g.edges, current, kids, firstKey, oracle, calls, prompt)
    ensures g.Valid() && EventGraphPy.ParentChain(g, chain)
    ensures made.Thrown? <==> StoppedAt(oracle, calls, kids, prompt)
    ensures made.Thrown? ==> g.nodes == old(g.nodes) && g.edges == old(g.edges) && g.order == old(g.order) && g.nextKey == old(g.nextKey)
    ensures made.Ok? ==>
      && g.nextKey == old(g.nextKey) + 1 && |g.order| == |old(g.order)| + 1
      && Expanded(nodes0, edges0, g.nodes, g.edges, current, kids + [made.value], firstKey, oracle, calls, prompt)
  {
    ChainPromptStable(nodes0, g.nodes, chain);
    ghost var nodes1, edges1 := g.nodes, g.edges;
    assert forall e :: e in edges1 ==> e.from in nodes1 && e.to in nodes1;
    made := ExpandOnce(g, current, chain, prompt, oracle(calls + |kids|));
    if made.Ok? {
      ExpandedStep(nodes0, edges0, nodes1, edges1, current, kids, made.value, firstKey, oracle, calls, prompt);
    }
  }

  /**
   * The inner loop of `generate_multibranch_chain`: `branching_factor`
   * calls of `generate_next_event(from_node=current)`, each reply becoming a
   * fresh child of `current`. Oracle call `calls + j` answers the `j`-th;
   * `failed` when a call raised.
   */
  method ExpandNode(g: EventGraphPy.EventGraph, current: int, ghost chain: seq<int>, ghost prompt: string,
                    branchingFactor: int, oracle: nat -> string -> Outcome<string>, calls: nat)
    returns (newChildren: seq<int>, callsAfter: nat, failed: bool)
    modifies g
    requires g.Valid() && EventGraphPy.ParentChain(g, chain) && chain[|chain| - 1] == current
    requires prompt == ChainPrompt(g.nodes, chain)
    ensures g.Valid() && EventGraphPy.ParentChain(g, chain)
    ensures g.nextKey == old(g.nextKey) + |newChildren| && |g.order| == |old(g.order)| + |newChildren|
    ensures callsAfter == calls + |newChildren| + (if failed then 1 else 0)
    ensures failed ==> |newChildren| < branchingFactor
    ensures failed ==> StoppedAt(oracle, calls, newChildren, prompt)
    ensures !failed ==> |newChildren| == (if branchingFactor > 0 then branchingFactor else 0)
    ensures Expanded(old(g.nodes), old(g.edges), g.nodes, g.edges, current, newChildren, old(g.nextKey), oracle, calls, prompt)
  {
    ghost var nodes0, edges0, firstKey := g.nodes, g.edges, g.nextKey;
    assert current in nodes0 && forall x :: x in nodes0 ==> x < firstKey;
    ExpandedNothing(nodes0, edges0, current, firstKey, oracle, calls, prompt);
    newChildren := [];
    callsAfter := calls;
    failed := false;
    while |newChildren| < branchingFactor
      invariant !failed && callsAfter == calls + |newChildren|
      invariant |newChildren| <= branchingFactor || |newChildren| == 0
      invariant g.Valid() && EventGraphPy.ParentChain(g, chain)
      invariant g.nextKey == firstKey + |newChildren| && |g.order| == |old(g.order)| + |newChildren|
      invariant Expanded(nodes0, edges0, g.nodes, g.edges, current, newChildren, firstKey, oracle, calls, prompt)
      decreases branchingFactor - |newChildren|
    {
      var made := ExpandStep(g, current, chain, prompt, oracle, calls, newChildren, nodes0, edges0, firstKey);
      if made.Thrown? {
        failed := true;
        break;
      }
      newChildren := newChildren + [made.value];
      callsAfter := callsAfter + 1;
    }
    if failed {
      callsAfter := callsAfter + 1;
    }
  }

  /** Every oracle call answers, whatever the prompt. */
  ghost predicate AlwaysAnswers(oracle: nat -> string -> Outcome<string>)
  {
    forall i: nat, prompt: string :: Reply(oracle, i, prompt).Ok?
  }

  /** Some oracle call answered `prompt` with `text`. */
  ghost predicate RepliedTo(oracle: nat -> string -> Outcome<string>, text: string, prompt: string)
  {
    exists i: nat :: Reply(oracle, i, prompt) == Ok(text)
  }

  /**
   * From position `from` on, each node of `chain` holds a reply to the prompt
   * `generate_next_event` builds from the nodes before it.
   */
  ghost predicate GeneratedFrom(nodes: map<int, EventGraphPy.NodeData>, chain: seq<int>, from: int,
                                oracle: nat -> string -> Outcome<string>)
    requires 1 <= from && forall i :: 0 <= i < |chain| ==> chain[i] in nodes
    decreases |chain|
  {
    |chain| <= from ||
      (&& GeneratedFrom(nodes, chain[..|chain| - 1], from, oracle)
       && RepliedTo(oracle, nodes[chain[|chain| - 1]].text, ChainPrompt(nodes, chain[..|chain| - 1])))
  }

  lemma {:induction false} GeneratedKept(a: map<int, EventGraphPy.NodeData>, b: map<int, EventGraphPy.NodeData>,
                                         chain: seq<int>, from: int, oracle: nat -> string -> Outcome<string>)
    requires 1 <= from && (forall i :: 0 <= i < |chain| ==> chain[i] in a) && Extends(a, b)
    requires GeneratedFrom(a, chain, from, oracle)
    ensures forall i :: 0 <= i < |chain| ==> chain[i] in b
    ensures GeneratedFrom(b, chain, from, oracle)
    decreases |chain|
  {
    forall i | 0 <= i < |chain|
      ensures chain[i] in b && b[chain[i]] == a[chain[i]]
    {
      ExtendsAt(a, b, chain[i]);
    }
    if |chain| > from {
      var prefix := chain[..|chain| - 1];
      GeneratedKept(a, b, prefix, from, oracle);
      ChainPromptStable(a, b, prefix);
    }
  }

  lemma PrefixOfSnoc(chain: seq<int>, next: int, i: int)
    requires 0 <= i <= |chain|
    ensures (chain + [next])[..i] == chain[..i]
    ensures i < |chain| ==> (chain + [next])[i] == chain[i]
  {
  }

  lemma GeneratedSnoc(nodes: map<int, EventGraphPy.NodeData>, chain: seq<int>, from: int,
                      oracle: nat -> string -> Outcome<string>, next: int)
    requires |chain| >= 1 && (forall i :: 0 <= i < |chain| ==> chain[i] in nodes) && next in nodes
    requires 1 <= from <= |chain| && GeneratedFrom(nodes, chain, from, oracle)
    requires RepliedTo(oracle, nodes[next].text, ChainPrompt(nodes, chain))
    ensures GeneratedFrom(nodes, chain + [next], from, oracle)
  {
    PrefixOfSnoc(chain, next, |chain|);
    assert (chain + [next])[..|chain|] == chain;
  }

  lemma ChainOverSnoc(nodes: map<int, EventGraphPy.NodeData>, edges: seq<EventGraphPy.Edge>, chain: seq<int>, next: int)
    requires EventGraphPy.ChainOver(nodes, edges, chain) && next in nodes
    requires EventGraphPy.Predecessors(edges, next) == [chain[|chain| - 1]]
    ensures EventGraphPy.ChainOver(nodes, edges, chain + [next])
  {
    var chain' := chain + [next];
    forall i | 0 <= i < |chain'| - 1
      ensures EventGraphPy.Predecessors(edges, chain'[i + 1]) == [chain'[i]]
    {
      if i < |chain| - 1 {
        assert chain'[i + 1] == chain[i + 1] && chain'[i] == chain[i];
      }
    }
  }

  /**
   * What the outer loop of `generate_multibranch_chain` has built from the
   * graph `nodes0`/`edges0` whose stub chain is `start`: `chain` continues
   * `start` by parent links through fresh nodes, each the reply to its
   * prefix's prompt; every fresh node but the last has `bf` children, the
   * stub gained `bf`, and the last is a leaf.
   */
  ghost predicate Walked(nodes0: map<int, EventGraphPy.NodeData>, stubChildren0: int,
                         nodes: map<int, EventGraphPy.NodeData>, edges: seq<EventGraphPy.Edge>,
                         start: seq<int>, chain: seq<int>, bf: int, oracle: nat -> string -> Outcome<string>)
  {
    && WalkShape(nodes0, nodes, edges, start, chain)
    && GeneratedFrom(nodes, chain, |start|, oracle)
    && WalkChildren(stubChildren0, edges, start, chain, bf)
  }

  /** `chain` continues `start` by parent links through nodes not in `nodes0`, rising to its last. */
  ghost predicate WalkShape(nodes0: map<int, EventGraphPy.NodeData>, nodes: map<int, EventGraphPy.NodeData>,
                            edges: seq<EventGraphPy.Edge>, start: seq<int>, chain: seq<int>)
  {
    && 1 <= |start| <= |chain| && chain[..|start|] == start
    && EventGraphPy.ChainOver(nodes, edges, chain)
    && Extends(nodes0, nodes)
    && (forall i :: |start| <= i < |chain| ==> chain[i] !in nodes0)
    && (forall i :: |start| - 1 <= i < |chain| - 1 ==> chain[i] < chain[|chain| - 1])
  }

  /** The stub gained `bf` children, every later node but the last has `bf`, the last has none. */
  ghost predicate WalkChildren(stubChildren0: int, edges: seq<EventGraphPy.Edge>, start: seq<int>, chain: seq<int>, bf: int)
    requires 1 <= |start| <= |chain|
  {
    && (|chain| > |start| ==>
        && |EventGraphPy.Successors(edges, start[|start| - 1])| == stubChildren0 + bf
        && EventGraphPy.Successors(edges, chain[|chain| - 1]) == [])
    && (forall i :: |start| <= i < |chain| - 1 ==> |EventGraphPy.Successors(edges, chain[i])| == bf)
  }

  lemma WalkedStart(nodes0: map<int, EventGraphPy.NodeData>, edges0: seq<EventGraphPy.Edge>, stubChildren0: int,
                    start: seq<int>, bf: int, oracle: nat -> string -> Outcome<string>)
    requires EventGraphPy.ChainOver(nodes0, edges0, start)
    ensures Walked(nodes0, stubChildren0, nodes0, edges0, start, start, bf, oracle)
  {
    assert start[..|start|] == start;
  }

  /** The walk's shape after one more step to the fresh child `next` of the last node. */
  lemma WalkedShapeStep(nodes0: map<int, EventGraphPy.NodeData>,
                        nodes1: map<int, EventGraphPy.NodeData>, edges1: seq<EventGraphPy.Edge>,
                        nodes: map<int, EventGraphPy.NodeData>, edges: seq<EventGraphPy.Edge>,
                        start: seq<int>, chain: seq<int>, next: int, firstKey: int)
    requires 1 <= |start| <= |chain| && chain[..|start|] == start
    requires EventGraphPy.ChainOver(nodes1, edges1, chain) && Extends(nodes0, nodes1) && Extends(nodes1, nodes)
    requires forall i :: |start| <= i < |chain| ==> chain[i] !in nodes0
    requires forall x :: x in nodes1 ==> x < firstKey
    requires FrameKept(nodes1, edges1, edges, chain[|chain| - 1])
    requires next in nodes && firstKey <= next
    requires EventGraphPy.Predecessors(edges, next) == [chain[|chain| - 1]]
    ensures WalkShape(nodes0, nodes, edges, start, chain + [next])
  {
    var chain' := chain + [next];
    PrefixOfSnoc(chain, next, |start|);
    EventGraphPy.ChainOverKept(nodes1, edges1, nodes, edges, chain);
    ChainOverSnoc(nodes, edges, chain, next);
    ExtendsTrans(nodes0, nodes1, nodes);
    forall i | |start| <= i < |chain'|
      ensures chain'[i] !in nodes0
    {
      PrefixOfSnoc(chain, next, i);
    }
    forall i | |start| - 1 <= i < |chain|
      ensures chain'[i] < next
    {
      PrefixOfSnoc(chain, next, i);
    }
  }

  /** The children counts after expanding the last node of the walk into `bf` children. */
  lemma WalkedChildrenStep(nodes1: map<int, EventGraphPy.NodeData>, edges1: seq<EventGraphPy.Edge>,
                           edges: seq<EventGraphPy.Edge>, start: seq<int>, chain: seq<int>,
                           bf: int, stubChildren0: int, kids: seq<int>, next: int)
    requires 1 <= |start| <= |chain| && chain[..|start|] == start
    requires forall i :: 0 <= i < |chain| ==> chain[i] in nodes1
    requires forall i :: |start| - 1 <= i < |chain| - 1 ==> chain[i] < chain[|chain| - 1]
    requires |chain| > |start| ==> EventGraphPy.Successors(edges1, chain[|chain| - 1]) == []
    requires |chain| > |start| ==> |EventGraphPy.Successors(edges1, start[|start| - 1])| == stubChildren0 + bf
    requires |chain| == |start| ==> |EventGraphPy.Successors(edges1, start[|start| - 1])| == stubChildren0
    requires forall i :: |start| <= i < |chain| - 1 ==> |EventGraphPy.Successors(edges1, chain[i])| == bf
    requires FrameKept(nodes1, edges1, edges, chain[|chain| - 1])
    requires EventGraphPy.Successors(edges, chain[|chain| - 1]) == EventGraphPy.Successors(edges1, chain[|chain| - 1]) + kids
    requires |kids| == bf && EventGraphPy.Successors(edges, next) == []
    ensures WalkChildren(stubChildren0, edges, start, chain + [next], bf)
  {
    var current := chain[|chain| - 1];
    forall i | |start| <= i < |chain|
      ensures |EventGraphPy.Successors(edges, (chain + [next])[i])| == bf
    {
      PrefixOfSnoc(chain, next, i);
      if i < |chain| - 1 {
        assert chain[i] in nodes1 && chain[i] != current;
      }
    }
    assert start[|start| - 1] == chain[|start| - 1];
    if |chain| > |start| {
      assert start[|start| - 1] in nodes1 && start[|start| - 1] != current;
    }
  }

  /** The generated texts after one more step to `next`, whose text answered the chain's prompt. */
  lemma WalkedGeneratedStep(nodes1: map<int, EventGraphPy.NodeData>, nodes: map<int, EventGraphPy.NodeData>,
                            chain: seq<int>, from: int, oracle: nat -> string -> Outcome<string>,
                            next: int, prompt: string)
    requires 1 <= from <= |chain| && (forall i :: 0 <= i < |chain| ==> chain[i] in nodes1)
    requires Extends(nodes1, nodes) && next in nodes
    requires GeneratedFrom(nodes1, chain, from, oracle)
    requires prompt == ChainPrompt(nodes1, chain)
    requires RepliedTo(oracle, nodes[next].text, prompt)
    ensures GeneratedFrom(nodes, chain + [next], from, oracle)
  {
    GeneratedKept(nodes1, nodes, chain, from, oracle);
    ChainPromptStable(nodes1, nodes, chain);
    GeneratedSnoc(nodes, chain, from, oracle, next);
  }

  /** One pass of the outer loop: expand the chain's last node and walk to its child `next`. */
  lemma WalkedStep(nodes0: map<int, EventGraphPy.NodeData>, stubChildren0: int, edges0: seq<EventGraphPy.Edge>,
                   nodes1: map<int, EventGraphPy.NodeData>, edges1: seq<EventGraphPy.Edge>,
                   nodes: map<int, EventGraphPy.NodeData>, edges: seq<EventGraphPy.Edge>,
                   start: seq<int>, chain: seq<int>, bf: int, oracle: nat -> string -> Outcome<string>,
                   kids: seq<int>, idx: int, firstKey: int, calls: nat, prompt: string)
    requires Walked(nodes0, stubChildren0, nodes1, edges1, start, chain, bf, oracle)
    requires |chain| == |start| ==> nodes1 == nodes0 && edges1 == edges0
    requires stubChildren0 == |EventGraphPy.Successors(edges0, start[|start| - 1])|
    requires forall x :: x in nodes1 ==> x < firstKey
    requires prompt == ChainPrompt(nodes1, chain)
    requires Expanded(nodes1, edges1, nodes, edges, chain[|chain| - 1], kids, firstKey, oracle, calls, prompt)
    requires |kids| == bf && 0 <= idx < |kids|
    ensures Walked(nodes0, stubChildren0, nodes, edges, start, chain + [kids[idx]], bf, oracle)
  {
    var current := chain[|chain| - 1];
    var next := kids[idx];
    var reply := Reply(oracle, calls + idx, prompt);
    assert KidMade(nodes, edges, current, next, reply);
    WalkedShapeStep(nodes0, nodes1, edges1, nodes, edges, start, chain, next, firstKey);
    WalkedChildrenStep(nodes1, edges1, edges, start, chain, bf, stubChildren0, kids, next);
    assert reply.Ok? && nodes[next].text == reply.value;
    assert reply == Ok(nodes[next].text);
    assert GeneratedFrom(nodes1, chain, |start|, oracle);
    assert 1 <= |start| <= |chain| && (forall i :: 0 <= i < |chain| ==> chain[i] in nodes1);
    assert Extends(nodes1, nodes) && next in nodes;
    assert prompt == ChainPrompt(nodes1, chain);
    assert Reply(oracle, calls + idx, prompt) == Ok(nodes[next].text);
    assert RepliedTo(oracle, nodes[next].text, prompt) by {
      assert Reply(oracle, calls + idx, prompt) == Ok(nodes[next].text);
    }
    WalkedGeneratedStep(nodes1, nodes, chain, |start|, oracle, next, prompt);
  }

  /**
   * One pass of the outer loop of `generate_multibranch_chain` once the chain
   * is still short: expand the current node, then move to a child picked by
   * `random.choice` (any of them; none raises), or, with `pickFirst`, to the
   * first new child as `generate_baseline_path` does.
   */
  method WalkOnce(g: EventGraphPy.EventGraph, current: int, ghost chain: seq<int>,
                  ghost nodes0: map<int, EventGraphPy.NodeData>, ghost edges0: seq<EventGraphPy.Edge>,
                  ghost stubChildren0: int, ghost start: seq<int>,
                  branchingFactor: int, oracle: nat -> string -> Outcome<string>, calls: nat, pickFirst: bool)
    returns (next: Outcome<int>, callsAfter: nat)
    modifies g
    requires g.Valid() && |chain| >= 1 && current == chain[|chain| - 1]
    requires Walked(nodes0, stubChildren0, g.nodes, g.edges, start, chain, branchingFactor, oracle)
    requires |chain| == |start| ==> g.nodes == nodes0 && g.edges == edges0
    requires stubChildren0 == |EventGraphPy.Successors(edges0, start[|start| - 1])|
    ensures g.Valid() && Extends(nodes0, g.nodes)
    ensures branchingFactor <= 0 ==> next.Thrown?
    ensures branchingFactor >= 1 && AlwaysAnswers(oracle) ==> next.Ok?
    ensures next.Ok? ==>
      && Walked(nodes0, stubChildren0, g.nodes, g.edges, start, chain + [next.value], branchingFactor, oracle)
      && |g.order| == |old(g.order)| + branchingFactor
    ensures pickFirst && next.Ok? ==> next.value == old(g.nextKey)
  {
    ghost var nodes1, edges1, firstKey := g.nodes, g.edges, g.nextKey;
    ghost var prompt := ChainPrompt(g.nodes, chain);
    var newChildren, failed;
    newChildren, callsAfter, failed := ExpandNode(g, current, chain, prompt, branchingFactor, oracle, calls);
    ExtendsTrans(nodes0, nodes1, g.nodes);
    if failed || |newChildren| == 0 {
      next := Thrown;
      return;
    }
    var idx := 0;
    if !pickFirst {
      idx :| 0 <= idx < |newChildren|;
    }
    WalkedStep(nodes0, stubChildren0, edges0, nodes1, edges1, g.nodes, g.edges, start, chain, branchingFactor, oracle,
               newChildren, idx, firstKey, calls, prompt);
    next := Ok(newChildren[idx]);
  }

  lemma MoreSteps(bf: int, steps: int)
    ensures bf * (steps + 1) == bf * steps + bf
  {
  }

  /**
   * When the walk from a chain of `startLen` nodes succeeded, the node list
   * grew by `bf` new nodes for each node it added to the chain.
   */
  predicate GrewBy(r: Outcome<seq<int>>, startLen: int, before: int, after: int, bf: int)
  {
    r.Ok? ==> after == before + bf * (|r.value| - startLen)
  }

  /**
   * The state the loop of `WalkFrom` keeps: `chain` is the walk so far,
   * `steps` nodes past `start`, ending in `current`; each step added
   * `bf` nodes to the node list.
   */
  ghost predicate Walking(g: EventGraphPy.EventGraph, current: int, chain: seq<int>,
                          nodes0: map<int, EventGraphPy.NodeData>, edges0: seq<EventGraphPy.Edge>,
                          stubChildren0: int, start: seq<int>, bf: int, oracle: nat -> string -> Outcome<string>,
                          order0: seq<int>, steps: int)
    reads g
  {
    && g.Valid() && |chain| >= 1 && current == chain[|chain| - 1]
    && Walked(nodes0, stubChildren0, g.nodes, g.edges, start, chain, bf, oracle)
    && (|chain| == |start| ==> chain == start && g.nodes == nodes0 && g.edges == edges0)
    && steps == |chain| - |start| && |g.order| == |order0| + bf * steps
    && (steps > 0 ==> bf >= 1)
  }

  /**
   * The loop of `generate_multibranch_chain`, from the chain `start` ending in
   * `current`: while the chain up to the current node is shorter than
   * `narrativeLength`, give the current node `branchingFactor` generated
   * children and move to one of them chosen at random (`pickFirst`: to the
   * first of them, the loop of `generate_baseline_path`).
   */
  method WalkFrom(g: EventGraphPy.EventGraph, current: int, ghost start: seq<int>,
                  ghost nodes0: map<int, EventGraphPy.NodeData>, ghost edges0: seq<EventGraphPy.Edge>,
                  ghost stubChildren0: int, narrativeLength: int, branchingFactor: int,
                  oracle: nat -> string -> Outcome<string>, pickFirst: bool)
    returns (r: Outcome<seq<int>>)
    modifies g
    requires g.Valid() && |start| >= 1 && current == start[|start| - 1]
    requires Walked(nodes0, stubChildren0, g.nodes, g.edges, start, start, branchingFactor, oracle)
    requires g.nodes == nodes0 && g.edges == edges0
    requires stubChildren0 == |EventGraphPy.Successors(edges0, current)|
    ensures g.Valid() && Extends(nodes0, g.nodes)
    ensures |start| >= narrativeLength ==> r == Ok(start) && g.nodes == nodes0 && g.edges == edges0
    ensures r.Thrown? ==> |start| < narrativeLength
    ensures |start| < narrativeLength && branchingFactor <= 0 ==> r.Thrown?
    ensures branchingFactor >= 1 && AlwaysAnswers(oracle) ==> r.Ok?
    ensures r.Ok? ==>
      && |r.value| == (if |start| >= narrativeLength then |start| else narrativeLength)
      && Walked(nodes0, stubChildren0, g.nodes, g.edges, start, r.value, branchingFactor, oracle)
    ensures GrewBy(r, |start|, |old(g.order)|, |g.order|, branchingFactor)
  {
    ghost var order0 := g.order;
    var current := current;
    ghost var steps := 0;
    var calls: nat := 0;
    var chain := Regather(g, current, start);
    while |chain| < narrativeLength
      invariant Walking(g, current, chain, nodes0, edges0, stubChildren0, start, branchingFactor, oracle, order0, steps)
      invariant |chain| == |start| || |chain| <= narrativeLength
      decreases narrativeLength - |chain|
    {
      var next;
      next, chain, calls := Advance(g, current, chain, nodes0, edges0, stubChildren0, start, branchingFactor, oracle, calls,
                                     pickFirst, order0, steps);
      if next.Thrown? {
        r := Thrown;
        return;
      }
      current := next.value;
      steps := steps + 1;
    }
    r := Ok(chain);
  }

  /** One pass of the loop of `WalkFrom`: the step of `WalkOnce`, then the chain gathered again. */
  method Advance(g: EventGraphPy.EventGraph, current: int, chain: seq<int>,
                 ghost nodes0: map<int, EventGraphPy.NodeData>, ghost edges0: seq<EventGraphPy.Edge>,
                 ghost stubChildren0: int, ghost start: seq<int>,
                 branchingFactor: int, oracle: nat -> string -> Outcome<string>, calls: nat, pickFirst: bool,
                 ghost order0: seq<int>, ghost steps: int)
    returns (next: Outcome<int>, chain': seq<int>, callsAfter: nat)
    modifies g
    requires Walking(g, current, chain, nodes0, edges0, stubChildren0, start, branchingFactor, oracle, order0, steps)
    requires stubChildren0 == |EventGraphPy.Successors(edges0, start[|start| - 1])|
    ensures g.Valid() && Extends(nodes0, g.nodes)
    ensures next.Thrown? ==> branchingFactor <= 0 || !AlwaysAnswers(oracle)
    ensures next.Ok? ==>
      && chain' == chain + [next.value]
      && Walking(g, next.value, chain', nodes0, edges0, stubChildren0, start, branchingFactor, oracle, order0, steps + 1)
    ensures pickFirst && next.Ok? ==> next.value == old(g.nextKey)
  {
    next, callsAfter := WalkOnce(g, current, chain, nodes0, edges0, stubChildren0, start, branchingFactor, oracle, calls, pickFirst);
    chain' := chain;
    if next.Ok? {
      chain' := Regather(g, next.value, chain + [next.value]);
      MoreSteps(branchingFactor, steps);
    }
  }

  /** `gather_chain_in_chronological_order` from the end of a parent chain gives that chain back. */
  method Regather(g: EventGraphPy.EventGraph, last: int, ghost chain: seq<int>) returns (chain': seq<int>)
    requires g.Valid() && EventGraphPy.ParentChain(g, chain) && last == chain[|chain| - 1]
    ensures chain' == chain
  {
    chain' := g.GatherChain(last);
    EventGraphPy.AncestryUnique(g, chain);
  }

  /**
   * `generate_multibranch_chain`: the walk from the stub node, with the
   * oracle called in order from call 0; returns the final chain.
   */
  method GenerateMultibranchChain(g: EventGraphPy.EventGraph, stubNodeId: int, narrativeLength: int,
                                  branchingFactor: int, oracle: nat -> string -> Outcome<string>)
    returns (r: Outcome<seq<int>>)
    modifies g
    requires g.Valid() && stubNodeId in g.nodes
    ensures g.Valid() && Extends(old(g.nodes), g.nodes)
    ensures |old(g.Ancestry(stubNodeId))| >= narrativeLength ==>
      r == Ok(old(g.Ancestry(stubNodeId))) && g.nodes == old(g.nodes) && g.edges == old(g.edges)
    ensures r.Thrown? ==> |old(g.Ancestry(stubNodeId))| < narrativeLength
    ensures |old(g.Ancestry(stubNodeId))| < narrativeLength && branchingFactor <= 0 ==> r.Thrown?
    ensures branchingFactor >= 1 && AlwaysAnswers(oracle) ==> r.Ok?
    ensures r.Ok? ==>
      && |r.value| == (if |old(g.Ancestry(stubNodeId))| >= narrativeLength then |old(g.Ancestry(stubNodeId))| else narrativeLength)
      && Walked(old(g.nodes), |old(g.Children(stubNodeId))|, g.nodes, g.edges, old(g.Ancestry(stubNodeId)), r.value,
                branchingFactor, oracle)
      && g.Ancestry(r.value[|r.value| - 1]) == r.value
    ensures GrewBy(r, |old(g.Ancestry(stubNodeId))|, |old(g.order)|, |g.order|, branchingFactor)
  {
    ghost var start := g.Ancestry(stubNodeId);
    WalkedStart(g.nodes, g.edges, |g.Children(stubNodeId)|, start, branchingFactor, oracle);
    r := WalkFrom(g, stubNodeId, start, g.nodes, g.edges, |g.Children(stubNodeId)|, narrativeLength, branchingFactor, oracle, false);
    if r.Ok? {
      EventGraphPy.AncestryUnique(g, r.value);
    }
  }


  // ---------------------------------------------------------------------------
  // Per-strategy aggregation of the judge's scores
  // ---------------------------------------------------------------------------

  /** The seven judge categories. */
  datatype Scores = Scores(
    overallQuality: real,
    identifyingMajorFlaws: real,
    characterBehavior: real,
    commonSenseAdherence: real,
    consistency: real,
    relatedness: real,
    causalTemporalRelationship: real)

  const NoScores: Scores := Scores(0.0, 0.0, 0.0, 0.0, 0.0, 0.0, 0.0)

  function Add(a: Scores, b: Scores): Scores
  {
    Scores(a.overallQuality + b.overallQuality, a.identifyingMajorFlaws + b.identifyingMajorFlaws,
           a.characterBehavior + b.characterBehavior, a.commonSenseAdherence + b.commonSenseAdherence,
           a.consistency + b.consistency, a.relatedness + b.relatedness,
           a.causalTemporalRelationship + b.causalTemporalRelationship)
  }

  function Divide(a: Scores, n: real): Scores
    requires n != 0.0
  {
    Scores(a.overallQuality / n, a.identifyingMajorFlaws / n, a.characterBehavior / n,
           a.commonSenseAdherence / n, a.consistency / n, a.relatedness / n, a.causalTemporalRelationship / n)
  }

  /** The category-wise sums, in list order. */
  function SumOf(list: seq<Scores>): Scores
  {
    if |list| == 0 then NoScores else Add(SumOf(list[..|list| - 1]), list[|list| - 1])
  }

  /** The mean of the seven categories. */
  function CategoryMean(s: Scores): real
  {
    (s.overallQuality + s.identifyingMajorFlaws + s.characterBehavior + s.commonSenseAdherence
     + s.consistency + s.relatedness + s.causalTemporalRelationship) / 7.0
  }

  predicate AllWithin(s: Scores, lo: real, hi: real)
  {
    && lo <= s.overallQuality <= hi && lo <= s.identifyingMajorFlaws <= hi
    && lo <= s.characterBehavior <= hi && lo <= s.commonSenseAdherence <= hi
    && lo <= s.consistency <= hi && lo <= s.relatedness <= hi
    && lo <= s.causalTemporalRelationship <= hi
  }

  /** One result row: an error row carries no category scores. */
  datatype Row = Row(strategy: string, scores: Option<Scores>, avgScore: real)

  /** One aggregate row: the strategy, its category averages and their mean. */
  datatype AggregateRow = AggregateRow(strategy: string, averages: Scores, avgScore: real)

  /** The strategies in order of first appearance: the keys of the grouping dictionary. */
  function Strategies(rows: seq<Row>): (r: seq<string>)
    ensures forall s :: s in r <==> exists i :: 0 <= i < |rows| && rows[i].strategy == s
    ensures forall i, j :: 0 <= i < j < |r| ==> r[i] != r[j]
  {
    if |rows| == 0 then []
    else
      var init := rows[..|rows| - 1];
      var rest := Strategies(init);
      assert forall i :: 0 <= i < |init| ==> init[i] == rows[i];
      if rows[|rows| - 1].strategy in rest then rest else rest + [rows[|rows| - 1].strategy]
  }

  /** The rows of strategy `s`, in order. */
  function Group(rows: seq<Row>, s: string): (r: seq<Row>)
    ensures forall x :: x in r <==> x in rows && x.strategy == s
  {
    if |rows| == 0 then []
    else
      var init := rows[..|rows| - 1];
      assert rows == init + [rows[|rows| - 1]];
      Group(init, s) + (if rows[|rows| - 1].strategy == s then [rows[|rows| - 1]] else [])
  }

  /** Every listed strategy has at least one row. */
  lemma GroupNonEmpty(rows: seq<Row>, s: string)
    requires s in Strategies(rows)
    ensures |Group(rows, s)| > 0
  {
    var k :| 0 <= k < |rows| && rows[k].strategy == s;
    assert rows[k] in Group(rows, s);
  }

  /** A strategy with no row has an empty group. */
  lemma GroupAbsent(rows: seq<Row>, s: string)
    requires s !in Strategies(rows)
    ensures Group(rows, s) == []
  {
  }

  predicate Scored(rows: seq<Row>)
  {
    forall i :: 0 <= i < |rows| ==> rows[i].scores.Some?
  }

  /** A group of scored rows is scored. */
  lemma GroupScored(rows: seq<Row>, s: string)
    requires Scored(rows)
    ensures Scored(Group(rows, s))
  {
    var group := Group(rows, s);
    forall j | 0 <= j < |group| ensures group[j].scores.Some? {
      assert group[j] in rows;
    }
  }

  function ScoresOf(rows: seq<Row>): (r: seq<Scores>)
    requires Scored(rows)
    ensures |r| == |rows| && forall i :: 0 <= i < |rows| ==> r[i] == rows[i].scores.value
  {
    if |rows| == 0 then [] else ScoresOf(rows[..|rows| - 1]) + [rows[|rows| - 1].scores.value]
  }

  /** A group's row: each category's sum divided by the group size, and their mean. */
  function GroupRow(s: string, group: seq<Row>): AggregateRow
    requires |group| > 0 && Scored(group)
  {
    var averages := Divide(SumOf(ScoresOf(group)), |group| as real);
    AggregateRow(s, averages, CategoryMean(averages))
  }

  /** The row of the `k`-th strategy of scored rows. */
  function AggregateAt(rows: seq<Row>, k: int): AggregateRow
    requires Scored(rows) && 0 <= k < |Strategies(rows)|
  {
    var s := Strategies(rows)[k];
    GroupNonEmpty(rows, s);
    GroupScored(rows, s);
    GroupRow(s, Group(rows, s))
  }

  /**
   * The aggregate rows, one per strategy in order of first appearance; an
   * error row, which has no categories, raises a KeyError.
   */
  function Aggregate(rows: seq<Row>): (r: Outcome<seq<AggregateRow>>)
    ensures r.Ok? <==> Scored(rows)
    ensures r.Ok? ==> |r.value| == |Strategies(rows)| && forall k :: 0 <= k < |r.value| ==> r.value[k] == AggregateAt(rows, k)
  {
    if !Scored(rows) then Thrown
    else Ok(AggregatesUpTo(rows, |Strategies(rows)|))
  }

  /** The rows of the first `i` strategies, in order. */
  function AggregatesUpTo(rows: seq<Row>, i: nat): (r: seq<AggregateRow>)
    requires Scored(rows) && i <= |Strategies(rows)|
    ensures |r| == i && forall k :: 0 <= k < i ==> r[k] == AggregateAt(rows, k)
  {
    seq(i, k requires 0 <= k < i => AggregateAt(rows, k))
  }

  /** One more strategy's row. */
  lemma AggregatesUpToNext(rows: seq<Row>, i: nat)
    requires Scored(rows) && i < |Strategies(rows)|
    ensures AggregatesUpTo(rows, i + 1) == AggregatesUpTo(rows, i) + [AggregateAt(rows, i)]
  {
    var a, b := AggregatesUpTo(rows, i + 1), AggregatesUpTo(rows, i) + [AggregateAt(rows, i)];
    assert forall k :: 0 <= k < i + 1 ==> a[k] == b[k];
  }

  /** `Strategies` and `Group` on a list grown by one row. */
  lemma GroupingSnoc(rows: seq<Row>, i: int)
    requires 0 <= i < |rows|
    ensures Strategies(rows[..i + 1])
         == if rows[i].strategy in Strategies(rows[..i]) then Strategies(rows[..i]) else Strategies(rows[..i]) + [rows[i].strategy]
    ensures forall s :: Group(rows[..i + 1], s) == Group(rows[..i], s) + (if rows[i].strategy == s then [rows[i]] else [])
  {
    assert rows[..i + 1][..i] == rows[..i];
  }

  /** The grouping loop: `strategy_groups[row["strategy"]].append(row)`. */
  method GroupByStrategy(rows: seq<Row>) returns (order: seq<string>, groups: map<string, seq<Row>>)
    ensures order == Strategies(rows)
    ensures forall s :: s in groups <==> s in order
    ensures forall s :: s in groups ==> groups[s] == Group(rows, s)
  {
    order := [];
    groups := map[];
    for i := 0 to |rows|
      invariant order == Strategies(rows[..i])
      invariant forall s :: s in groups <==> s in order
      invariant forall s :: s in groups ==> groups[s] == Group(rows[..i], s)
    {
      ghost var order0, groups0 := order, groups;
      var s := rows[i].strategy;
      if s !in groups {
        order := order + [s];
        groups := groups[s := []];
      }
      groups := groups[s := groups[s] + [rows[i]]];
      GroupingStep(rows, i, order0, groups0, order, groups);
    }
    assert rows[..|rows|] == rows;
  }

  /** One row of the grouping loop keeps the order and the groups those of the rows seen. */
  lemma GroupingStep(rows: seq<Row>, i: int, order: seq<string>, groups: map<string, seq<Row>>,
                     order': seq<string>, groups': map<string, seq<Row>>)
    requires 0 <= i < |rows|
    requires order == Strategies(rows[..i])
    requires forall s :: s in groups <==> s in order
    requires forall s :: s in groups ==> groups[s] == Group(rows[..i], s)
    requires order' == if rows[i].strategy in groups then order else order + [rows[i].strategy]
    requires groups' == groups[rows[i].strategy := (if rows[i].strategy in groups then groups[rows[i].strategy] else []) + [rows[i]]]
    ensures order' == Strategies(rows[..i + 1])
    ensures forall s :: s in groups' <==> s in order'
    ensures forall s :: s in groups' ==> groups'[s] == Group(rows[..i + 1], s)
  {
    GroupingSnoc(rows, i);
    if rows[i].strategy !in groups {
      GroupAbsent(rows[..i], rows[i].strategy);
    }
  }

  /** The per-category summing over one group; a row without categories raises. */
  method SumGroup(group: seq<Row>) returns (r: Outcome<Scores>)
    ensures Scored(group) ==> r == Ok(SumOf(ScoresOf(group)))
    ensures !Scored(group) ==> r.Thrown?
  {
    var sum := NoScores;
    for j := 0 to |group|
      invariant Scored(group[..j]) && sum == SumOf(ScoresOf(group[..j]))
    {
      if group[j].scores.None? {
        return Thrown;
      }
      assert group[..j + 1][..j] == group[..j];
      sum := Add(sum, group[j].scores.value);
    }
    assert group[..|group|] == group;
    r := Ok(sum);
  }

  /** A group with an unscored row makes the whole list unscored. */
  lemma NotAllScored(rows: seq<Row>, s: string)
    requires !Scored(Group(rows, s))
    ensures !Scored(rows)
  {
    var group := Group(rows, s);
    var j :| 0 <= j < |group| && group[j].scores.None?;
    assert group[j] in rows;
  }

  /** Rows whose every strategy's group is scored are scored. */
  lemma AllGroupsScored(rows: seq<Row>)
    requires forall k :: 0 <= k < |Strategies(rows)| ==> Scored(Group(rows, Strategies(rows)[k]))
    ensures Scored(rows)
  {
    var order := Strategies(rows);
    forall i | 0 <= i < |rows| ensures rows[i].scores.Some? {
      assert rows[i].strategy in order;
      var k :| 0 <= k < |order| && order[k] == rows[i].strategy;
      assert rows[i] in Group(rows, order[k]);
    }
  }

  /** One strategy's row: the group's sums divided by its size, and their mean; an unscored row raises. */
  method AggregateGroup(ghost rows: seq<Row>, ghost k: int, strategy: string, group: seq<Row>)
    returns (row: Outcome<AggregateRow>)
    requires 0 <= k < |Strategies(rows)| && strategy == Strategies(rows)[k] && group == Group(rows, strategy)
    ensures row.Thrown? ==> !Scored(rows)
    ensures row.Ok? ==> Scored(group) && (Scored(rows) ==> row.value == AggregateAt(rows, k))
  {
    GroupNonEmpty(rows, strategy);
    var sums := SumGroup(group);
    if sums.Thrown? {
      NotAllScored(rows, strategy);
      return Thrown;
    }
    var averages := Divide(sums.value, |group| as real);
    row := Ok(AggregateRow(strategy, averages, CategoryMean(averages)));
  }

  /** The aggregation of `aggregate_scores.csv`, before the CSV is written. */
  method AggregateByStrategy(rows: seq<Row>) returns (r: Outcome<seq<AggregateRow>>)
    ensures r == Aggregate(rows)
  {
    var order, groups := GroupByStrategy(rows);
    var aggregateRows: seq<AggregateRow> := [];
    for i := 0 to |order|
      invariant |aggregateRows| == i
      invariant forall k :: 0 <= k < i ==> Scored(Group(rows, order[k]))
      invariant Scored(rows) ==> aggregateRows == AggregatesUpTo(rows, i)
    {
      var row := AggregateGroup(rows, i, order[i], groups[order[i]]);
      if row.Thrown? {
        return Thrown;
      }
      if Scored(rows) {
        AggregatesUpToNext(rows, i);
      }
      aggregateRows := aggregateRows + [row.value];
    }
    AggregateComplete(rows, aggregateRows);
    r := Ok(aggregateRows);
  }

  /** A row for every strategy, every group scored: the whole aggregation succeeded with those rows. */
  lemma AggregateComplete(rows: seq<Row>, aggregateRows: seq<AggregateRow>)
    requires |aggregateRows| == |Strategies(rows)|
    requires forall k :: 0 <= k < |aggregateRows| ==> Scored(Group(rows, Strategies(rows)[k]))
    requires Scored(rows) ==> aggregateRows == AggregatesUpTo(rows, |aggregateRows|)
    ensures Aggregate(rows) == Ok(aggregateRows)
  {
    AllGroupsScored(rows);
  }

  /** `n` copies of `x` added up, without multiplication. */
  function Scale(n: nat, x: real): real
  {
    if n == 0 then 0.0 else Scale(n - 1, x) + x
  }

  lemma {:induction false} ScaleIsProduct(n: nat, x: real)
    ensures Scale(n, x) == n as real * x
  {
    if n > 0 {
      ScaleIsProduct(n - 1, x);
      assert n as real * x == (n - 1) as real * x + x;
    }
  }

  /** Sums of n scores within [lo, hi] lie within n copies of lo and of hi. */
  lemma {:induction false} SumOfBounds(list: seq<Scores>, lo: real, hi: real)
    requires forall i :: 0 <= i < |list| ==> AllWithin(list[i], lo, hi)
    ensures AllWithin(SumOf(list), Scale(|list|, lo), Scale(|list|, hi))
  {
    if |list| > 0 {
      SumOfBounds(list[..|list| - 1], lo, hi);
    }
  }

  lemma QuotientWithin(t: real, count: nat, lo: real, hi: real)
    requires count > 0 && Scale(count, lo) <= t <= Scale(count, hi)
    ensures lo <= t / count as real <= hi
  {
    ScaleIsProduct(count, lo);
    ScaleIsProduct(count, hi);
    var n := count as real;
    var q := t / n;
    assert (q - lo) * n == t - n * lo;
    assert (hi - q) * n == n * hi - t;
  }

  /** The mean of seven categories within [lo, hi] lies within [lo, hi]. */
  lemma MeanWithin(s: Scores, lo: real, hi: real)
    requires AllWithin(s, lo, hi)
    ensures lo <= CategoryMean(s) <= hi
  {
  }

  /** Sums within n copies of lo and of hi, divided by n, give averages and a mean within [lo, hi]. */
  lemma AveragesWithin(s: Scores, count: nat, lo: real, hi: real)
    requires count > 0 && AllWithin(s, Scale(count, lo), Scale(count, hi))
    ensures AllWithin(Divide(s, count as real), lo, hi) && lo <= CategoryMean(Divide(s, count as real)) <= hi
  {
    QuotientWithin(s.overallQuality, count, lo, hi);
    QuotientWithin(s.identifyingMajorFlaws, count, lo, hi);
    QuotientWithin(s.characterBehavior, count, lo, hi);
    QuotientWithin(s.commonSenseAdherence, count, lo, hi);
    QuotientWithin(s.consistency, count, lo, hi);
    QuotientWithin(s.relatedness, count, lo, hi);
    QuotientWithin(s.causalTemporalRelationship, count, lo, hi);
    MeanWithin(Divide(s, count as real), lo, hi);
  }

  /**
   * When every scored row's categories lie in [lo, hi], so do every
   * aggregate row's category averages and its overall average.
   */
  lemma AggregateWithin(rows: seq<Row>, lo: real, hi: real)
    requires Scored(rows) && forall i :: 0 <= i < |rows| ==> AllWithin(rows[i].scores.value, lo, hi)
    ensures Aggregate(rows).Ok?
    ensures forall k :: 0 <= k < |Aggregate(rows).value| ==>
      AllWithin(Aggregate(rows).value[k].averages, lo, hi) && lo <= Aggregate(rows).value[k].avgScore <= hi
  {
    forall k | 0 <= k < |Strategies(rows)|
      ensures AllWithin(AggregateAt(rows, k).averages, lo, hi) && lo <= AggregateAt(rows, k).avgScore <= hi
    {
      AggregateAtWithin(rows, k, lo, hi);
    }
  }

  /** One strategy's row of `AggregateWithin`. */
  lemma AggregateAtWithin(rows: seq<Row>, k: int, lo: real, hi: real)
    requires Scored(rows) && forall i :: 0 <= i < |rows| ==> AllWithin(rows[i].scores.value, lo, hi)
    requires 0 <= k < |Strategies(rows)|
    ensures AllWithin(AggregateAt(rows, k).averages, lo, hi) && lo <= AggregateAt(rows, k).avgScore <= hi
  {
    var s := Strategies(rows)[k];
    var group := Group(rows, s);
    GroupNonEmpty(rows, s);
    GroupScored(rows, s);
    var list := ScoresOf(group);
    forall i | 0 <= i < |list| ensures AllWithin(list[i], lo, hi) {
      assert group[i] in rows;
    }
    SumOfBounds(list, lo, hi);
    AveragesWithin(SumOf(list), |group|, lo, hi);
  }

  /**
   * The MCTS row of one configuration: the category-wise mean over the judged
   * top paths and the mean of those seven; no row when nothing was judged.
   */
  function MctsRowScores(judgements: seq<Scores>): (r: Option<(Scores, real)>)
    ensures r.None? <==> |judgements| == 0
  {
    if |judgements| == 0 then None
    else
      var averages := Divide(SumOf(judgements), |judgements| as real);
      Some((averages, CategoryMean(averages)))
  }

  /** Judged top paths within [lo, hi] give an MCTS row within [lo, hi]. */
  lemma MctsRowWithin(judgements: seq<Scores>, lo: real, hi: real)
    requires |judgements| > 0 && forall i :: 0 <= i < |judgements| ==> AllWithin(judgements[i], lo, hi)
    ensures AllWithin(MctsRowScores(judgements).value.0, lo, hi)
    ensures lo <= MctsRowScores(judgements).value.1 <= hi
  {
    SumOfBounds(judgements, lo, hi);
    AveragesWithin(SumOf(judgements), |judgements|, lo, hi);
  }
}
