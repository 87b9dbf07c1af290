/**
 * The search engine of src/mcts.ts over the events diagram's model: select a
 * path by UCB1, expand its leaf by one generated child, score a short rollout,
 * and credit the score to the selected path; plus the path enumeration and the
 * path score used to rank the finished tree.
 *
 * The language model is a parameter: each call is a function from the prompt
 * to a reply or a thrown error. UCB1 (which needs `log` and `sqrt`) is a
 * parameter too: a real function of (average, parent visits, child visits).
 */
module Mcts {
  import opened Wrappers
  import Utils
  import Text
  import Argmax
  import Ranking
  import KeyAlloc
  import opened EventsDiagram

  /** `average + C * sqrt(log(parentVisits + 1) / (childVisits + 1e-6))`, left abstract. */
  type Ucb = (real, int, int) -> real

  /** `runMcts` passes 2 as the rollout depth. */
  const RolloutDepth: int := 2

  /** What the model answers during one iteration: expansion, rollout steps and the critic. */
  datatype Replies = Replies(
    expand: string -> Outcome<string>,
    rollout: string -> Outcome<string>,
    score: string -> Outcome<string>)

  /** `mcts?.visits` with a missing record read as 0. */
  function Visits(n: EventNode): nat
  {
    if n.mcts.Some? then n.mcts.value.visits else 0
  }

  function Total(n: EventNode): int
  {
    if n.mcts.Some? then n.mcts.value.totalScore else 0
  }

  /** The average score, 0 for an unvisited node. */
  function Average(n: EventNode): real
  {
    if Visits(n) == 0 then 0.0 else Total(n) as real / Visits(n) as real
  }

  /** `nodeData.mcts?.visits || 1`: a parent with no visits counts as visited once. */
  function ParentVisits(n: EventNode): (r: nat)
    ensures r >= 1
    ensures Visits(n) > 0 ==> r == Visits(n)
  {
    if Visits(n) == 0 then 1 else Visits(n)
  }

  // ---------------------------------------------------------------------------
  // Selection
  // ---------------------------------------------------------------------------

  /** Each child's UCB1 value, or None for a child whose node is missing (it is skipped). */
  function ChildValues(nodes: map<int, EventNode>, cs: seq<int>, parentVisits: nat, ucb: Ucb)
    : (vs: seq<Option<real>>)
    ensures |vs| == |cs|
    ensures forall i :: 0 <= i < |cs| ==> (vs[i].None? <==> cs[i] !in nodes)
    ensures forall i :: 0 <= i < |cs| && cs[i] in nodes ==>
      vs[i] == Some(ucb(Average(nodes[cs[i]]), parentVisits, Visits(nodes[cs[i]])))
  {
    if |cs| == 0 then []
    else
      var c := cs[|cs| - 1];
      ChildValues(nodes, cs[..|cs| - 1], parentVisits, ucb)
        + [if c in nodes then Some(ucb(Average(nodes[c]), parentVisits, Visits(nodes[c]))) else None]
  }

  /** The child the scan over `k`'s children settles on. */
  function BestChild(m: EventsModel, k: int, ucb: Ucb): (r: Option<int>)
    reads m
    requires k in m.nodes
  {
    var cs := m.Children(k);
    match Argmax.FirstMaxIndex(ChildValues(m.nodes, cs, ParentVisits(m.nodes[k]), ucb))
    case None => None
    case Some(i) => Some(cs[i])
  }

  /** Selection moves from `k` to `c`: `k` is fully expanded and `c` is its best child, a valid key. */
  predicate Descends(m: EventsModel, k: int, c: int, maxChildren: int, ucb: Ucb)
    reads m
  {
    k in m.nodes && |m.Children(k)| >= maxChildren && BestChild(m, k, ucb) == Some(c) && c >= 0
  }

  /** Selection stops at `k`: missing, not fully expanded, no existing child, or a negative best key. */
  predicate Stops(m: EventsModel, k: int, maxChildren: int, ucb: Ucb)
    reads m
  {
    k !in m.nodes || |m.Children(k)| < maxChildren
    || BestChild(m, k, ucb).None? || BestChild(m, k, ucb).value < 0
  }

  /** A descent step goes to an existing child one level further down. */
  lemma DescendsToChild(m: EventsModel, k: int, c: int, maxChildren: int, ucb: Ucb)
    requires m.Graded() && Descends(m, k, c, maxChildren, ucb)
    ensures c in m.nodes && c in m.Children(k) && m.depth[k] < m.depth[c]
  {
    var cs := m.Children(k);
    var i := Argmax.FirstMaxIndex(ChildValues(m.nodes, cs, ParentVisits(m.nodes[k]), ucb)).value;
    assert cs[i] == c;
    LinkRaisesDepth(m, k, c);
  }

  /**
   * `select`: starting at `startKey`, keep descending to the best child while
   * the node exists and has at least `maxChildren` children. The inner loop is
   * the strict "best so far" scan over the children in link order.
   */
  method Select(m: EventsModel, startKey: int, maxChildren: int, ucb: Ucb) returns (path: seq<int>)
    requires m.Graded()
    ensures |path| >= 1 && path[0] == startKey
    ensures forall i :: 0 <= i < |path| - 1 ==> Descends(m, path[i], path[i + 1], maxChildren, ucb)
    ensures Stops(m, path[|path| - 1], maxChildren, ucb)
  {
    path := [startKey];
    var current := startKey;
    while true
      invariant |path| >= 1 && path[0] == startKey && current == path[|path| - 1]
      invariant Descent(m, path, maxChildren, ucb)
      decreases if current in m.nodes then |m.nodes| - m.depth[current] else 2 * |m.nodes| + 1
    {
      if current !in m.nodes {
        break;
      }
      var children := m.Children(current);
      if |children| < maxChildren {
        break;
      }
      var bestChild := ScanChildren(m, current, ucb);
      if bestChild.None? || bestChild.value < 0 {
        break;
      }
      DescendsToChild(m, current, bestChild.value, maxChildren, ucb);
      DescentSnoc(m, path, bestChild.value, maxChildren, ucb);
      path := path + [bestChild.value];
      current := bestChild.value;
    }
  }

  /** Each step of `path` is a descent step. */
  predicate Descent(m: EventsModel, path: seq<int>, maxChildren: int, ucb: Ucb)
    reads m
  {
    forall i :: 0 <= i < |path| - 1 ==> Descends(m, path[i], path[i + 1], maxChildren, ucb)
  }

  lemma DescentSnoc(m: EventsModel, path: seq<int>, c: int, maxChildren: int, ucb: Ucb)
    requires |path| >= 1 && Descent(m, path, maxChildren, ucb)
    requires Descends(m, path[|path| - 1], c, maxChildren, ucb)
    ensures Descent(m, path + [c], maxChildren, ucb)
  {
  }

  /**
   * The scan of `select` over the children of `k` in link order: children
   * whose node is missing are skipped, and a later child replaces the best
   * only when its value is strictly greater.
   */
  method ScanChildren(m: EventsModel, k: int, ucb: Ucb) returns (bestChild: Option<int>)
    requires k in m.nodes
    ensures bestChild == BestChild(m, k, ucb)
  {
    var children := m.Children(k);
    var parentVisits := ParentVisits(m.nodes[k]);
    ghost var values := ChildValues(m.nodes, children, parentVisits, ucb);
    ghost var best: Option<nat> := None;
    bestChild := None;
    var bestValue: real := 0.0;
    for i := 0 to |children|
      invariant best == Argmax.FirstMaxIndex(values[..i])
      invariant best.None? ==> bestChild.None?
      invariant best.Some? ==> best.value < i && bestChild == Some(children[best.value])
                               && values[best.value] == Some(bestValue)
    {
      Argmax.FirstMaxIndexExtend(values, i);
      var cKey := children[i];
      if cKey !in m.nodes {
        continue;
      }
      var cData := m.nodes[cKey];
      var value := ucb(Average(cData), parentVisits, Visits(cData));
      if bestChild.None? || value > bestValue {
        bestValue := value;
        bestChild := Some(cKey);
        best := Some(i);
      }
    }
    assert values[..|children|] == values;
  }

  /**
   * Every node after the first on a selected path is an existing node deeper
   * than the start, so the start occurs on the path exactly once.
   */
  lemma {:induction false} DescentClimbs(m: EventsModel, path: seq<int>, maxChildren: int, ucb: Ucb, j: nat)
    requires m.Graded() && |path| >= 1 && 0 < j < |path|
    requires forall i :: 0 <= i < |path| - 1 ==> Descends(m, path[i], path[i + 1], maxChildren, ucb)
    ensures path[0] in m.nodes && path[j] in m.nodes
    ensures path[0] in m.depth && path[j] in m.depth && m.depth[path[0]] < m.depth[path[j]]
  {
    DescendsToChild(m, path[j - 1], path[j], maxChildren, ucb);
    if j > 1 {
      DescentClimbs(m, path, maxChildren, ucb, j - 1);
    }
  }

  lemma StartOccursOnce(m: EventsModel, path: seq<int>, maxChildren: int, ucb: Ucb)
    requires m.Graded() && |path| >= 1
    requires forall i :: 0 <= i < |path| - 1 ==> Descends(m, path[i], path[i + 1], maxChildren, ucb)
    ensures multiset(path)[path[0]] == 1
    ensures |path| > 1 ==> forall j :: 0 <= j < |path| ==> path[j] in m.nodes
  {
    forall j | 0 < j < |path|
      ensures path[j] != path[0] && path[j] in m.nodes && path[0] in m.nodes
    {
      DescentClimbs(m, path, maxChildren, ucb, j);
    }
    assert path == [path[0]] + path[1..];
    assert path[0] !in multiset(path[1..]);
  }

  // ---------------------------------------------------------------------------
  // Expansion
  // ---------------------------------------------------------------------------

  /** `path.map(k => getNodeData(k)?.text ?? '(missing)')`. */
  function PathTexts(nodes: map<int, EventNode>, path: seq<int>): (r: seq<string>)
    ensures |r| == |path|
    ensures forall i :: 0 <= i < |path| ==> r[i] == (if path[i] in nodes then nodes[path[i]].text else "(missing)")
  {
    if |path| == 0 then []
    else PathTexts(nodes, path[..|path| - 1])
           + [if path[|path| - 1] in nodes then nodes[path[|path| - 1]].text else "(missing)"]
  }

  /** `(eventLikelihood?.[0] ?? 3) / 5`. */
  function ExpansionProbability(likelihood: seq<int>): real
  {
    (if |likelihood| > 0 then likelihood[0] else 3) as real / 5.0
  }

  /** Whether `maybeExpand` adds a child under `leafKey`. */
  predicate Expandable(m: EventsModel, leafKey: int, maxChildren: int)
    reads m
  {
    leafKey in m.nodes && |m.Children(leafKey)| < maxChildren
  }

  /** The prompt `maybeExpand` sends: the leaf's guesses and the selected path's texts. */
  function ExpansionPrompt(m: EventsModel, leafKey: int, path: seq<int>): string
    reads m
    requires leafKey in m.nodes
  {
    Utils.NextPrompt(m.nodes[leafKey].prevGuessesForward, PathTexts(m.nodes, path), m.modelData)
  }

  /** What one iteration may do to the model: add at most one node, unvisited, and append links. */
  predicate Grows(start: map<int, EventNode>, now: map<int, EventNode>, startLinks: seq<LinkData>, nowLinks: seq<LinkData>)
  {
    && start.Keys <= now.Keys && |now| <= |start| + 1
    && (forall k :: k in start ==> now[k] == start[k])
    && (forall k :: k in now && k !in start ==> Visits(now[k]) == 0)
    && |startLinks| <= |nowLinks| && nowLinks[..|startLinks|] == startLinks
  }

  /**
   * `maybeExpand`: nothing happens to a missing or fully expanded leaf, whose
   * key is returned. Otherwise one event is generated (an error propagates,
   * leaving the model as it was) and exactly one node and one link are added:
   * the node has a fresh key (the smallest free one from 1000 up), the
   * generated text, `parent` = the leaf, the leaf's `loc`, zeroed statistics
   * and no guess lists; the link goes from the leaf to it. The new key is
   * returned.
   */
  method MaybeExpand(m: EventsModel, leafKey: int, maxChildren: int, path: seq<int>,
                     generate: string -> Outcome<string>)
    returns (r: Outcome<int>)
    modifies m
    requires m.Valid()
    ensures m.Valid() && m.modelData == old(m.modelData)
    ensures Grows(old(m.nodes), m.nodes, old(m.links), m.links)
    ensures !old(Expandable(m, leafKey, maxChildren)) ==>
      r == Ok(leafKey) && m.nodes == old(m.nodes) && m.links == old(m.links)
    ensures old(Expandable(m, leafKey, maxChildren)) && generate(old(ExpansionPrompt(m, leafKey, path))).Thrown? ==>
      r.Thrown? && m.nodes == old(m.nodes) && m.links == old(m.links)
    ensures old(Expandable(m, leafKey, maxChildren)) && generate(old(ExpansionPrompt(m, leafKey, path))).Ok? ==>
      var ev := Utils.ShapeNextEvent(generate(old(ExpansionPrompt(m, leafKey, path))).value, m.modelData);
      && r.Ok? && r.value !in old(m.nodes) && FirstNodeKey <= r.value
      && (forall j :: FirstNodeKey <= j < r.value ==> j in old(m.nodes))
      && m.nodes == old(m.nodes)[r.value := EventNode(ev.text, ev.eventSeverity, old(m.nodes)[leafKey].loc,
                                                      Some(leafKey), None, None, None, Some(MctsStats(0, 0)))]
      && |m.links| == |old(m.links)| + 1 && m.links[..|old(m.links)|] == old(m.links)
      && m.links[|old(m.links)|].from == leafKey && m.links[|old(m.links)|].to == r.value
      && m.links[|old(m.links)|].text == LeadsTo
      && m.links[|old(m.links)|].probability == Some(ExpansionProbability(ev.eventLikelihood))
      && m.links[|old(m.links)|].key !in LinkKeys(old(m.links))
  {
    if leafKey !in m.nodes {
      return Ok(leafKey);
    }
    var nodeData := m.nodes[leafKey];
    var children := m.Children(leafKey);
    if |children| >= maxChildren {
      return Ok(leafKey);
    }
    var chainOfTexts := PathTexts(m.nodes, path);
    var newEvent := Utils.GenerateNextEvent(nodeData.prevGuessesForward, chainOfTexts, m.modelData, generate);
    if newEvent.Thrown? {
      return Thrown;
    }
    var ev := newEvent.value;
    var temp := new KeyAlloc.KeyedData(None);
    var key := m.MakeUniqueKey(temp);
    m.AddNodeData(key, EventNode(ev.text, ev.eventSeverity, nodeData.loc, Some(leafKey), None, None, None,
                                 Some(MctsStats(0, 0))),
                  m.depth[leafKey] + 1);
    var linkKey := m.AddLinkData(leafKey, key, LeadsTo, Some(ExpansionProbability(ev.eventLikelihood)));
    r := Ok(key);
  }

  /**
   * Why expansion keeps every link between present nodes. A link left behind
   * by a removed node still names that node's key, and the node key allocator
   * hands the key out again (it skips only keys of present nodes). Here the
   * stale link leads from the missing key 1000 to node 5, a childless leaf.
   * Expanding 5 adds node 1000, the smallest free key, and the link 5 -> 1000.
   * Each node is then the other's only child, so with `maxChildren` 1,
   * `select` walks 5, 1000, 5, … without end.
   */
  lemma StaleLinkClosesCycle()
    ensures var stale := LinkData(-1000, 1000, 5, LeadsTo, None);
      var added := LinkData(-1001, 5, 1000, LeadsTo, None);
      && ChildrenIn([stale], 5) == []
      && ChildrenIn([stale, added], 5) == [1000]
      && ChildrenIn([stale, added], 1000) == [5]
  {
    var stale := LinkData(-1000, 1000, 5, LeadsTo, None);
    var added := LinkData(-1001, 5, 1000, LeadsTo, None);
    assert [stale, added][1..] == [added];
  }

  // ---------------------------------------------------------------------------
  // Simulation
  // ---------------------------------------------------------------------------

  /**
   * The last `steps` texts of `k`'s tree-parent chain, oldest first: what
   * `getRecentChain` collects. A missing node contributes nothing.
   */
  function RecentChain(m: EventsModel, k: int, steps: int): (r: seq<string>)
    reads m
    requires m.Graded()
    decreases if k in m.nodes then |m.nodes| + m.depth[k] else 0
    ensures |r| <= if steps > 0 then steps else 0
    ensures k in m.nodes && steps > 0 ==> |r| >= 1 && r[|r| - 1] == m.nodes[k].text
  {
    if steps <= 0 || k !in m.nodes then []
    else
      match m.TreeParent(k)
      case None => [m.nodes[k].text]
      case Some(p) =>
        LinkRaisesDepth(m, p, k);
        RecentChain(m, p, steps - 1) + [m.nodes[k].text]
  }

  /** The recent chain is the last `steps` entries of the full ancestry. */
  lemma {:induction false} RecentChainIsAncestrySuffix(m: EventsModel, k: int, steps: int)
    requires m.Graded() && k in m.nodes && steps >= 0
    decreases |m.nodes| + m.depth[k]
    ensures RecentChain(m, k, steps) == LastOf(m.Ancestry(k), steps)
  {
    var a := m.Ancestry(k);
    if steps > 0 {
      match m.TreeParent(k)
      case None =>
      case Some(p) =>
        LinkRaisesDepth(m, p, k);
        RecentChainIsAncestrySuffix(m, p, steps - 1);
        var b := m.Ancestry(p);
        assert a == b + [m.nodes[k].text];
        LastOfAppend(b, m.nodes[k].text, steps);
    }
  }

  /** The last `n` entries of `a` (all of them when there are fewer). */
  function LastOf(a: seq<string>, n: nat): (r: seq<string>)
    ensures |r| == if n < |a| then n else |a|
  {
    a[|a| - (if n < |a| then n else |a|)..]
  }

  lemma LastOfAppend(b: seq<string>, t: string, n: nat)
    requires n > 0
    ensures LastOf(b + [t], n) == LastOf(b, n - 1) + [t]
  {
    var a := b + [t];
    var k := if n < |a| then n else |a|;
    assert a[|a| - k..] == b[|b| - (k - 1)..] + [t];
  }

  /** `getRecentChain`: walk up tree parents, `unshift`-ing each text, at most `steps` times. */
  method GetRecentChain(m: EventsModel, nodeKey: int, steps: int) returns (chain: seq<string>)
    requires m.Graded()
    ensures chain == RecentChain(m, nodeKey, steps)
  {
    chain := [];
    var current := if nodeKey in m.nodes then Some(nodeKey) else None;
    var left := steps;
    while current.Some? && left > 0
      invariant current.Some? ==> current.value in m.nodes
      invariant RecentChain(m, nodeKey, steps) == RecentChainFrom(m, current, left) + chain
      decreases if current.Some? then |m.nodes| + m.depth[current.value] else -|m.nodes|
    {
      var c := current.value;
      var p := m.TreeParent(c);
      ClimbRecentChain(m, c, left, chain);
      chain := [m.nodes[c].text] + chain;
      current := p;
      left := left - 1;
    }
  }

  /** One step of `getRecentChain`'s walk: the text of `c` moves from the chain still to collect to the one collected. */
  lemma ClimbRecentChain(m: EventsModel, c: int, left: int, chain: seq<string>)
    requires m.Graded() && c in m.nodes && left > 0
    ensures var p := m.TreeParent(c);
      && (p.Some? ==> p.value in m.nodes && m.depth[p.value] < m.depth[c])
      && RecentChainFrom(m, Some(c), left) + chain == RecentChainFrom(m, p, left - 1) + ([m.nodes[c].text] + chain)
  {
    var p := m.TreeParent(c);
    if p.Some? {
      LinkRaisesDepth(m, p.value, c);
    }
    var t := m.nodes[c].text;
    assert RecentChainFrom(m, Some(c), left) == RecentChainFrom(m, p, left - 1) + [t];
    assert RecentChainFrom(m, p, left - 1) + [t] + chain == RecentChainFrom(m, p, left - 1) + ([t] + chain);
  }

  /** The recent chain from an optional node: none when there is no node. */
  function RecentChainFrom(m: EventsModel, k: Option<int>, steps: int): seq<string>
    reads m
    requires m.Graded()
  {
    if k.Some? then RecentChain(m, k.value, steps) else []
  }

  function Prepend(xs: seq<string>, o: Outcome<seq<string>>): Outcome<seq<string>>
  {
    match o
    case Thrown => Thrown
    case Ok(ys) => Ok(xs + ys)
  }

  /**
   * The rollout from `step` on: each step sends the chain so far (with no
   * guesses) and appends a non-empty reply; an empty reply ends the rollout,
   * an error propagates.
   */
  function Rollout(chain: seq<string>, step: int, rolloutDepth: int,
                   generate: string -> Outcome<string>, md: Utils.ModelData): (r: Outcome<seq<string>>)
    decreases rolloutDepth - step
    ensures r.Ok? ==> |r.value| <= (if step < rolloutDepth then rolloutDepth - step else 0)
    ensures r.Ok? ==> forall i :: 0 <= i < |r.value| ==> r.value[i] != ""
  {
    if step >= rolloutDepth then Ok([])
    else
      match generate(Utils.NextPrompt(None, chain, md))
      case Thrown => Thrown
      case Ok(text) =>
        if text == "" then Ok([])
        else Prepend([text], Rollout(chain + [text], step + 1, rolloutDepth, generate, md))
  }

  /** The text the critic sees: the chain and then the rollout, as "- t" lines. */
  function CombinedText(chain: seq<string>, rollout: seq<string>): string
  {
    Text.Join(Text.Bullets(chain) + Text.Bullets(rollout), "\n")
  }

  /** One rollout step: a non-empty reply is kept and the rollout goes on from the longer chain. */
  lemma RolloutStep(chain: seq<string>, step: int, rolloutDepth: int,
                    generate: string -> Outcome<string>, md: Utils.ModelData, text: string)
    requires step < rolloutDepth
    requires generate(Utils.NextPrompt(None, chain, md)) == Ok(text) && text != ""
    ensures Rollout(chain, step, rolloutDepth, generate, md)
      == Prepend([text], Rollout(chain + [text], step + 1, rolloutDepth, generate, md))
  {
  }

  lemma PrependNothing(o: Outcome<seq<string>>)
    ensures Prepend([], o) == o
  {
    if o.Ok? {
      assert [] + o.value == o.value;
    }
  }

  lemma PrependTwice(xs: seq<string>, ys: seq<string>, o: Outcome<seq<string>>)
    ensures Prepend(xs, Prepend(ys, o)) == Prepend(xs + ys, o)
  {
    if o.Ok? {
      assert xs + (ys + o.value) == (xs + ys) + o.value;
    }
  }

  /**
   * The rollout loop of `simulate`: up to `rolloutDepth` calls, each on the
   * chain extended by the events generated so far.
   */
  method RunRollout(chain: seq<string>, rolloutDepth: int, generate: string -> Outcome<string>,
                    md: Utils.ModelData)
    returns (r: Outcome<seq<string>>)
    ensures r == Rollout(chain, 0, rolloutDepth, generate, md)
  {
    var rolloutEvents: seq<string> := [];
    var virtualChain := chain;
    var step := 0;
    PrependNothing(Rollout(chain, 0, rolloutDepth, generate, md));
    while step < rolloutDepth
      invariant 0 <= step && virtualChain == chain + rolloutEvents
      invariant Rollout(chain, 0, rolloutDepth, generate, md)
        == Prepend(rolloutEvents, Rollout(virtualChain, step, rolloutDepth, generate, md))
      decreases rolloutDepth - step
    {
      var newEvent := Utils.GenerateNextEvent(None, virtualChain, md, generate);
      if newEvent.Thrown? {
        return Thrown;
      }
      var text := newEvent.value.text;
      if text == "" {
        assert rolloutEvents + [] == rolloutEvents;
        return Ok(rolloutEvents);
      }
      RolloutStep(virtualChain, step, rolloutDepth, generate, md, text);
      PrependTwice(rolloutEvents, [text], Rollout(virtualChain + [text], step + 1, rolloutDepth, generate, md));
      rolloutEvents := rolloutEvents + [text];
      virtualChain := virtualChain + [text];
      step := step + 1;
    }
    assert rolloutEvents + [] == rolloutEvents;
    r := Ok(rolloutEvents);
  }

  /**
   * `simulate`: 0 for a missing node; otherwise the critic's score, clamped to
   * 1..10, of the node's recent chain followed by a rollout of at most
   * `rolloutDepth` events. A rollout error propagates; the model is only read.
   */
  method Simulate(m: EventsModel, nodeKey: int, scoringDepth: Option<int>, rolloutDepth: int,
                  generate: string -> Outcome<string>, score: string -> Outcome<string>)
    returns (r: Outcome<int>)
    requires m.Graded()
    ensures nodeKey !in m.nodes ==> r == Ok(0)
    ensures nodeKey in m.nodes ==>
      var chain := RecentChain(m, nodeKey, scoringDepth.GetOr(1));
      var rollout := Rollout(chain, 0, rolloutDepth, generate, m.modelData);
      && (rollout.Thrown? ==> r.Thrown?)
      && (rollout.Ok? ==> r == Ok(Utils.ScoreEventWithOpenAI(score(CombinedText(chain, rollout.value)))))
    ensures r.Ok? && nodeKey in m.nodes ==> 1 <= r.value <= 10
  {
    if nodeKey !in m.nodes {
      return Ok(0);
    }
    var chainSoFar := GetRecentChain(m, nodeKey, scoringDepth.GetOr(1));
    var rollout := RunRollout(chainSoFar, rolloutDepth, generate, m.modelData);
    if rollout.Thrown? {
      return Thrown;
    }
    var combinedText := Text.Join(Text.Bullets(chainSoFar) + Text.Bullets(rollout.value), "\n");
    r := Ok(Utils.ScoreEventWithOpenAI(score(combinedText)));
  }

  // ---------------------------------------------------------------------------
  // Backpropagation
  // ---------------------------------------------------------------------------

  /** One more visit and `score` more in total. */
  function Bump(n: EventNode, score: int): EventNode
  {
    n.(mcts := Some(MctsStats(Visits(n) + 1, Total(n) + score)))
  }

  /** The node data after crediting every existing key on `path`, in order. */
  function Credit(nodes: map<int, EventNode>, path: seq<int>, score: int): (r: map<int, EventNode>)
    ensures r.Keys == nodes.Keys
  {
    if |path| == 0 then nodes
    else
      var before := Credit(nodes, path[..|path| - 1], score);
      var k := path[|path| - 1];
      if k in before then before[k := Bump(before[k], score)] else before
  }

  /**
   * Crediting a path adds, to every node, one visit and `score` per occurrence
   * of its key on the path, and changes nothing else about it.
   */
  lemma {:induction false} CreditCounts(nodes: map<int, EventNode>, path: seq<int>, score: int, k: int)
    requires k in nodes
    ensures Visits(Credit(nodes, path, score)[k]) == Visits(nodes[k]) + multiset(path)[k]
    ensures Total(Credit(nodes, path, score)[k]) == Total(nodes[k]) + multiset(path)[k] * score
    ensures Credit(nodes, path, score)[k].(mcts := nodes[k].mcts) == nodes[k]
    ensures multiset(path)[k] == 0 ==> Credit(nodes, path, score)[k] == nodes[k]
  {
    if |path| > 0 {
      var init := path[..|path| - 1];
      var last := path[|path| - 1];
      CreditCounts(nodes, init, score, k);
      var prev := Credit(nodes, init, score);
      assert Credit(nodes, path, score)[k] == if last == k then Bump(prev[k], score) else prev[k];
      assert path == init + [last];
      var before := multiset(init)[k];
      if last == k {
        assert multiset(path)[k] == before + 1;
        assert (before + 1) * score == before * score + score;
      } else {
        assert multiset(path)[k] == before;
      }
    }
  }

  /** `backpropagate`: one `setDataProperty(…, 'mcts', …)` per existing key on the path. */
  method Backpropagate(m: EventsModel, path: seq<int>, score: int)
    modifies m
    requires m.Graded()
    ensures m.Graded() && m.Closed() == old(m.Closed())
    ensures m.nodes == Credit(old(m.nodes), path, score)
    ensures m.links == old(m.links) && m.modelData == old(m.modelData)
  {
    for i := 0 to |path|
      invariant m.Graded() && m.Closed() == old(m.Closed())
      invariant m.nodes == Credit(old(m.nodes), path[..i], score)
      invariant m.links == old(m.links) && m.modelData == old(m.modelData)
    {
      assert path[..i + 1][..i] == path[..i];
      var key := path[i];
      if key !in m.nodes {
        continue;
      }
      var nd := m.nodes[key];
      var oldVisits := Visits(nd);
      var oldScore := Total(nd);
      m.SetNodeData(key, nd.(mcts := Some(MctsStats(oldVisits + 1, oldScore + score))));
    }
    assert path[..|path|] == path;
  }

  // ---------------------------------------------------------------------------
  // The search loop
  // ---------------------------------------------------------------------------

  /**
   * The visit counts one iteration leaves: crediting the selected path (which
   * starts at the root, holds it once and reaches no node added since)
   * gives the root one visit, never takes one away, and leaves new nodes at 0.
   */
  lemma IterationCredit(start: map<int, EventNode>, before: map<int, EventNode>, path: seq<int>, score: int)
    requires start.Keys <= before.Keys
    requires forall k :: k in start ==> before[k] == start[k]
    requires forall k :: k in before && k !in start ==> Visits(before[k]) == 0
    requires |path| >= 1 && multiset(path)[path[0]] == 1
    requires forall j :: 0 <= j < |path| ==> path[j] !in before || path[j] in start
    ensures forall k :: k in start ==> Visits(Credit(before, path, score)[k]) >= Visits(start[k])
    ensures forall k :: k in before && k !in start ==> Visits(Credit(before, path, score)[k]) == 0
    ensures path[0] in start ==> Visits(Credit(before, path, score)[path[0]]) == Visits(start[path[0]]) + 1
  {
    forall k | k in start
      ensures Visits(Credit(before, path, score)[k]) >= Visits(start[k])
    {
      CreditCounts(before, path, score, k);
    }
    forall k | k in before && k !in start
      ensures Visits(Credit(before, path, score)[k]) == 0
    {
      CreditCounts(before, path, score, k);
      assert k !in multiset(path);
    }
    if path[0] in start {
      CreditCounts(before, path, score, path[0]);
    }
  }

  /**
   * One iteration of `runMcts`. It adds at most one node, which ends the
   * iteration unvisited; links are only appended; no visit count drops; and a
   * completed iteration gives the root exactly one more visit.
   */
  method Iterate(m: EventsModel, rootKey: int, maxChildren: int, scoringDepth: Option<int>,
                 ucb: Ucb, replies: Replies)
    returns (completed: bool)
    modifies m
    requires m.Valid()
    ensures m.Valid() && m.modelData == old(m.modelData)
    ensures old(m.nodes).Keys <= m.nodes.Keys && |m.nodes| <= |old(m.nodes)| + 1
    ensures |old(m.links)| <= |m.links| && m.links[..|old(m.links)|] == old(m.links)
    ensures forall k :: k in old(m.nodes) ==> Visits(m.nodes[k]) >= Visits(old(m.nodes)[k])
    ensures forall k :: k in m.nodes && k !in old(m.nodes) ==> Visits(m.nodes[k]) == 0
    ensures completed && rootKey in old(m.nodes) ==>
      Visits(m.nodes[rootKey]) == Visits(old(m.nodes)[rootKey]) + 1
    ensures !completed && rootKey in old(m.nodes) ==>
      Visits(m.nodes[rootKey]) == Visits(old(m.nodes)[rootKey])
  {
    var path := Select(m, rootKey, maxChildren, ucb);
    StartOccursOnce(m, path, maxChildren, ucb);
    var leafKey := path[|path| - 1];
    var expanded := MaybeExpand(m, leafKey, maxChildren, path, replies.expand);
    if expanded.Thrown? {
      return false;
    }
    assert forall j :: 0 <= j < |path| ==> path[j] !in m.nodes || path[j] in old(m.nodes);
    completed := SimulateAndBackpropagate(m, old(m.nodes), path, expanded.value, scoringDepth, replies);
  }

  /**
   * The second half of an iteration of `runMcts`: score the expanded node,
   * then credit the selected path. Nothing changes when the scoring throws.
   */
  method SimulateAndBackpropagate(m: EventsModel, ghost start: map<int, EventNode>, path: seq<int>,
                                  expandedKey: int, scoringDepth: Option<int>, replies: Replies)
    returns (completed: bool)
    modifies m
    requires m.Graded()
    requires start.Keys <= m.nodes.Keys && forall k :: k in start ==> m.nodes[k] == start[k]
    requires forall k :: k in m.nodes && k !in start ==> Visits(m.nodes[k]) == 0
    requires |path| >= 1 && multiset(path)[path[0]] == 1
    requires forall j :: 0 <= j < |path| ==> path[j] !in m.nodes || path[j] in start
    ensures m.Graded() && m.Closed() == old(m.Closed())
    ensures m.modelData == old(m.modelData) && m.links == old(m.links)
    ensures m.nodes.Keys == old(m.nodes).Keys
    ensures forall k :: k in start ==> Visits(m.nodes[k]) >= Visits(start[k])
    ensures forall k :: k in m.nodes && k !in start ==> Visits(m.nodes[k]) == 0
    ensures completed && path[0] in start ==> Visits(m.nodes[path[0]]) == Visits(start[path[0]]) + 1
    ensures !completed ==> m.nodes == old(m.nodes)
  {
    var score := Simulate(m, expandedKey, scoringDepth, RolloutDepth, replies.rollout, replies.score);
    if score.Thrown? {
      return false;
    }
    ghost var before := m.nodes;
    Backpropagate(m, path, score.value);
    IterationCredit(start, before, path, score.value);
    completed := true;
  }

  /**
   * `runMcts`: up to `iterations` iterations, stopping at the first error. It
   * returns how many iterations completed and whether an error ended the run;
   * the root gains exactly one visit per completed iteration.
   */
  method RunMcts(m: EventsModel, rootKey: int, maxChildren: int, iterations: int,
                 scoringDepth: Option<int>, ucb: Ucb, replies: nat -> Replies)
    returns (completed: nat, threw: bool)
    modifies m
    requires m.Valid()
    ensures m.Valid() && m.modelData == old(m.modelData)
    ensures !threw ==> completed == (if iterations > 0 then iterations else 0)
    ensures threw ==> completed < iterations
    ensures old(m.nodes).Keys <= m.nodes.Keys
    ensures |old(m.links)| <= |m.links| && m.links[..|old(m.links)|] == old(m.links)
    ensures forall k :: k in old(m.nodes) ==> Visits(m.nodes[k]) >= Visits(old(m.nodes)[k])
    ensures rootKey in old(m.nodes) ==> Visits(m.nodes[rootKey]) == Visits(old(m.nodes)[rootKey]) + completed
  {
    completed := 0;
    threw := false;
    var i := 0;
    while i < iterations
      invariant m.Valid() && m.modelData == old(m.modelData)
      invariant 0 <= i && completed == i && (i <= iterations || i == 0)
      invariant old(m.nodes).Keys <= m.nodes.Keys
      invariant |old(m.links)| <= |m.links| && m.links[..|old(m.links)|] == old(m.links)
      invariant forall k :: k in old(m.nodes) ==> Visits(m.nodes[k]) >= Visits(old(m.nodes)[k])
      invariant rootKey in old(m.nodes) ==> Visits(m.nodes[rootKey]) == Visits(old(m.nodes)[rootKey]) + completed
    {
      ghost var linksBefore := m.links;
      var ok := Iterate(m, rootKey, maxChildren, scoringDepth, ucb, replies(i));
      assert m.links[..|old(m.links)|] == linksBefore[..|old(m.links)|];
      if !ok {
        threw := true;
        return;
      }
      completed := completed + 1;
      i := i + 1;
    }
  }

  // ---------------------------------------------------------------------------
  // Paths and their scores
  // ---------------------------------------------------------------------------

  /** A path that starts at `k`, follows links, and ends at a node without children. */
  predicate IsLeafPath(m: EventsModel, p: seq<int>, k: int)
    reads m
  {
    && |p| >= 1 && p[0] == k
    && (forall i :: 0 <= i < |p| - 1 ==> p[i + 1] in m.Children(p[i]))
    && |m.Children(p[|p| - 1])| == 0
  }

  lemma ChildIsDeeper(m: EventsModel, k: int, c: int)
    requires m.Valid() && c in m.Children(k)
    ensures k in m.nodes && c in m.nodes && m.depth[k] < m.depth[c]
  {
    var l :| l in m.links && l.from == k && l.to == c;
    LinkRaisesDepth(m, k, c);
  }

  /** `getAllPaths`: one root-first path per way down to a childless node, children in link order. */
  function AllPaths(m: EventsModel, k: int): (r: seq<seq<int>>)
    reads m
    requires m.Valid()
    decreases if k in m.nodes then |m.nodes| - m.depth[k] else 0, 1, 0
    ensures |r| >= 1
    ensures forall i :: 0 <= i < |r| ==> IsLeafPath(m, r[i], k)
  {
    var cs := m.Children(k);
    if |cs| == 0 then [[k]]
    else
      ChildIsDeeper(m, k, cs[0]);
      PathsVia(m, k, cs)
  }

  /** The paths through each of the children `cs` of `k`, each with `k` in front. */
  function PathsVia(m: EventsModel, k: int, cs: seq<int>): (r: seq<seq<int>>)
    reads m
    requires m.Valid() && k in m.nodes
    requires forall i :: 0 <= i < |cs| ==> cs[i] in m.Children(k)
    decreases |m.nodes| - m.depth[k], 0, |cs|
    ensures |cs| > 0 ==> |r| >= 1
    ensures forall i :: 0 <= i < |r| ==> IsLeafPath(m, r[i], k)
  {
    if |cs| == 0 then []
    else
      ChildIsDeeper(m, k, cs[0]);
      var below := AllPaths(m, cs[0]);
      var rest := PathsVia(m, k, cs[1..]);
      ThroughChild(m, k, cs[0], below, rest);
      InFront(k, below) + rest
  }

  /** Each of `ps` with `k` in front. */
  function InFront(k: int, ps: seq<seq<int>>): (r: seq<seq<int>>)
    ensures |r| == |ps|
    ensures forall i :: 0 <= i < |ps| ==> r[i] == [k] + ps[i]
  {
    seq(|ps|, i requires 0 <= i < |ps| => [k] + ps[i])
  }

  /** The leaf paths through child `c`, with `k` in front, followed by more leaf paths from `k`. */
  lemma ThroughChild(m: EventsModel, k: int, c: int, below: seq<seq<int>>, rest: seq<seq<int>>)
    requires c in m.Children(k)
    requires forall i :: 0 <= i < |below| ==> IsLeafPath(m, below[i], c)
    requires forall i :: 0 <= i < |rest| ==> IsLeafPath(m, rest[i], k)
    ensures forall i :: 0 <= i < |InFront(k, below) + rest| ==> IsLeafPath(m, (InFront(k, below) + rest)[i], k)
  {
    var all := InFront(k, below) + rest;
    forall i | 0 <= i < |all|
      ensures IsLeafPath(m, all[i], k)
    {
      if i < |below| {
        ExtendLeafPath(m, k, c, below[i]);
      } else {
        assert all[i] == rest[i - |below|];
      }
    }
  }

  /** A leaf path from a child, with its parent in front, is a leaf path from the parent. */
  lemma ExtendLeafPath(m: EventsModel, k: int, c: int, p: seq<int>)
    requires c in m.Children(k) && IsLeafPath(m, p, c)
    ensures IsLeafPath(m, [k] + p, k)
  {
    var q := [k] + p;
    forall i | 0 <= i < |q| - 1
      ensures q[i + 1] in m.Children(q[i])
    {
      if i > 0 {
        assert q[i] == p[i - 1] && q[i + 1] == p[i];
      }
    }
  }

  /** `getAllPaths` misses no way down: every leaf path from `k` is listed. */
  lemma {:induction false} AllPathsComplete(m: EventsModel, k: int, p: seq<int>)
    requires m.Valid() && IsLeafPath(m, p, k)
    ensures p in AllPaths(m, k)
    decreases if k in m.nodes then |m.nodes| - m.depth[k] else 0, 1, 0
  {
    var cs := m.Children(k);
    LeafPathStart(m, p, k);
    if |cs| == 0 {
      assert p == [k];
    } else {
      ChildIsDeeper(m, k, cs[0]);
      PathsViaComplete(m, k, cs, p);
    }
  }

  /** A leaf path from `k` is `k` alone exactly when `k` has no children, and otherwise goes on to a child. */
  lemma LeafPathStart(m: EventsModel, p: seq<int>, k: int)
    requires IsLeafPath(m, p, k)
    ensures |p| == 1 <==> |m.Children(k)| == 0
    ensures |p| >= 2 ==> p[1] in m.Children(k)
  {
    if |p| >= 2 {
      assert p[0 + 1] in m.Children(p[0]);
    }
  }

  /** Every leaf path from `k` whose second node is one of `cs` is among the paths through `cs`. */
  lemma {:induction false} PathsViaComplete(m: EventsModel, k: int, cs: seq<int>, p: seq<int>)
    requires m.Valid() && k in m.nodes
    requires forall i :: 0 <= i < |cs| ==> cs[i] in m.Children(k)
    requires IsLeafPath(m, p, k) && |p| >= 2 && p[1] in cs
    ensures p in PathsVia(m, k, cs)
    decreases |m.nodes| - m.depth[k], 0, |cs|
  {
    ChildIsDeeper(m, k, cs[0]);
    var below := AllPaths(m, cs[0]);
    var rest := PathsVia(m, k, cs[1..]);
    assert PathsVia(m, k, cs) == InFront(k, below) + rest;
    if p[1] == cs[0] {
      var tail := p[1..];
      assert IsLeafPath(m, tail, cs[0]) by {
        forall i | 0 <= i < |tail| - 1
          ensures tail[i + 1] in m.Children(tail[i])
        {
          assert tail[i] == p[i + 1] && tail[i + 1] == p[i + 2];
        }
        assert tail[|tail| - 1] == p[|p| - 1];
      }
      AllPathsComplete(m, cs[0], tail);
      var j :| 0 <= j < |below| && below[j] == tail;
      assert InFront(k, below)[j] == [k] + tail == p;
    } else {
      assert p[1] in cs[1..];
      PathsViaComplete(m, k, cs[1..], p);
    }
  }

  /** A node's average for ranking: 0 for a missing or unvisited node. */
  function NodeAverage(m: EventsModel, k: int): real
    reads m
  {
    if k in m.nodes then Average(m.nodes[k]) else 0.0
  }

  function PathAverages(m: EventsModel, path: seq<int>): (r: seq<real>)
    reads m
    ensures |r| == |path|
    ensures forall i :: 0 <= i < |path| ==> r[i] == NodeAverage(m, path[i])
  {
    if |path| == 0 then [] else PathAverages(m, path[..|path| - 1]) + [NodeAverage(m, path[|path| - 1])]
  }

  /** `computePathScore`: the mean of the node averages; an empty path divides 0 by 0 (NaN, None). */
  function PathScore(m: EventsModel, path: seq<int>): (r: Option<real>)
    reads m
    ensures r.None? <==> |path| == 0
    ensures r.Some? ==> r.value == Ranking.Mean(PathAverages(m, path))
  {
    if |path| == 0 then None else Some(Ranking.Mean(PathAverages(m, path)))
  }

  /** When every node's average lies in [lo, hi], so does the path score. */
  lemma PathScoreBounds(m: EventsModel, path: seq<int>, lo: real, hi: real)
    requires |path| > 0
    requires forall i :: 0 <= i < |path| ==> lo <= NodeAverage(m, path[i]) <= hi
    ensures lo <= PathScore(m, path).value <= hi
  {
    Ranking.MeanBounds(PathAverages(m, path), lo, hi);
  }

  function ScoreAll(m: EventsModel, paths: seq<seq<int>>): (r: seq<Ranking.ScoredPath>)
    reads m
    requires forall i :: 0 <= i < |paths| ==> |paths[i]| >= 1
    ensures |r| == |paths|
    ensures forall i :: 0 <= i < |paths| ==> r[i] == Ranking.ScoredPath(paths[i], PathScore(m, paths[i]).value)
  {
    if |paths| == 0 then []
    else ScoreAll(m, paths[..|paths| - 1])
           + [Ranking.ScoredPath(paths[|paths| - 1], PathScore(m, paths[|paths| - 1]).value)]
  }

  /** `printMctsPaths`' ranking: every root-to-leaf path with its score, highest score first. */
  function RankedPaths(m: EventsModel, rootKey: int): (r: seq<Ranking.ScoredPath>)
    reads m
    requires m.Valid()
    ensures Ranking.SortedDesc(r, Ranking.ScoreOf)
    ensures multiset(r) == multiset(ScoreAll(m, AllPaths(m, rootKey)))
  {
    var paths := AllPaths(m, rootKey);
    var scored := ScoreAll(m, paths);
    Ranking.SortDescSorted(scored, Ranking.ScoreOf);
    Ranking.SortDesc(scored, Ranking.ScoreOf)
  }
}
