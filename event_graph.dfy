/**
 * The Python experiment's story tree (wnu25/experiments/eventgraph.py): an
 * `EventGraph` that owns a networkx `DiGraph` whose nodes carry the event text,
 * the guess lists and the search statistics, and that grows it with the same
 * four-step Monte Carlo tree search as the TypeScript engine.
 *
 * The `DiGraph` is the class's state: a map from node id to node data, the
 * node insertion order (the order networkx iterates nodes in) and the edges in
 * insertion order (the order `successors`/`predecessors` list them). Node ids
 * come from the `_next_key` counter, so every edge, which always enters a node
 * created after its source, goes from a smaller id to a larger one, and no node
 * is entered by two edges.
 *
 * The language model is a parameter `call`: a function from the prompt to the
 * reply, or `Thrown` when `call_openai` raises. The selection value (UCB1) is
 * a parameter too.
 */
module EventGraphPy {
  import opened Wrappers
  import Text
  import Utils
  import Argmax
  import Ranking
  import EventsDiagram
  import Mcts

  /** A node's attributes: the event text, its guess lists and its statistics. */
  datatype NodeData = NodeData(
    text: string,
    prevGuessesForward: seq<string>,
    prevGuessesBackward: seq<string>,
    visits: nat,        // mcts_visits
    totalScore: int)    // mcts_total_score: a float that only ever holds whole numbers

  /** An edge; `edgeLabel` is its `label` attribute, None when `add_edge` was given none. */
  datatype Edge = Edge(from: int, to: int, edgeLabel: Option<string>)

  const LeadsTo: string := "leads to"

  predicate HasEdge(edges: seq<Edge>, a: int, b: int)
  {
    exists e :: e in edges && e.from == a && e.to == b
  }

  /** `G.successors(k)`: the targets of the edges leaving `k`, in edge order. */
  function Successors(edges: seq<Edge>, k: int): (r: seq<int>)
    ensures forall c :: c in r <==> HasEdge(edges, k, c)
  {
    if |edges| == 0 then []
    else
      var rest := Successors(edges[1..], k);
      assert forall c :: HasEdge(edges, k, c) <==>
        (edges[0].from == k && edges[0].to == c) || HasEdge(edges[1..], k, c) by {
        forall c ensures HasEdge(edges, k, c) ==>
          (edges[0].from == k && edges[0].to == c) || HasEdge(edges[1..], k, c) {
          if HasEdge(edges, k, c) {
            var e :| e in edges && e.from == k && e.to == c;
            if e != edges[0] {
              assert e in edges[1..];
            }
          }
        }
      }
      if edges[0].from == k then [edges[0].to] + rest else rest
  }

  /** `G.predecessors(k)`: the sources of the edges entering `k`, in edge order. */
  function Predecessors(edges: seq<Edge>, k: int): (r: seq<int>)
    ensures forall p :: p in r <==> HasEdge(edges, p, k)
    ensures (forall e :: e in edges ==> e.to != k) ==> r == []
  {
    if |edges| == 0 then []
    else
      var rest := Predecessors(edges[1..], k);
      assert forall p :: HasEdge(edges, p, k) <==>
        (edges[0].from == p && edges[0].to == k) || HasEdge(edges[1..], p, k) by {
        forall p ensures HasEdge(edges, p, k) ==>
          (edges[0].from == p && edges[0].to == k) || HasEdge(edges[1..], p, k) {
          if HasEdge(edges, p, k) {
            var e :| e in edges && e.from == p && e.to == k;
            if e != edges[0] {
              assert e in edges[1..];
            }
          }
        }
      }
      if edges[0].to == k then [edges[0].from] + rest else rest
  }

  /** No two edges enter the same node. */
  predicate SingleEntry(edges: seq<Edge>)
  {
    forall i, j :: 0 <= i < j < |edges| ==> edges[i].to != edges[j].to
  }

  /** When no two edges enter the same node, a node has at most one predecessor. */
  lemma {:induction false} AtMostOneParent(edges: seq<Edge>, k: int)
    requires SingleEntry(edges)
    ensures |Predecessors(edges, k)| <= 1
  {
    if |edges| > 0 {
      assert SingleEntry(edges[1..]) by {
        forall i, j | 0 <= i < j < |edges[1..]|
          ensures edges[1..][i].to != edges[1..][j].to
        {
          assert edges[1..][i] == edges[i + 1] && edges[1..][j] == edges[j + 1];
        }
      }
      AtMostOneParent(edges[1..], k);
      if edges[0].to == k {
        NoOtherEntry(edges, k);
      }
    }
  }

  lemma NoOtherEntry(edges: seq<Edge>, k: int)
    requires |edges| > 0 && SingleEntry(edges) && edges[0].to == k
    ensures Predecessors(edges[1..], k) == []
  {
    forall e | e in edges[1..]
      ensures e.to != k
    {
      var j :| 0 <= j < |edges[1..]| && edges[1..][j] == e;
      assert edges[j + 1] == e;
    }
  }

  /** The mean score of a node: 0.0 when it has not been visited. */
  function Average(n: NodeData): real
  {
    if n.visits > 0 then n.totalScore as real / n.visits as real else 0.0
  }

  /** `_select_path`'s parent visit count: below 1 counts as 1. */
  function ParentVisits(n: NodeData): (r: nat)
    ensures r >= 1 && (n.visits >= 1 ==> r == n.visits)
  {
    if n.visits < 1 then 1 else n.visits
  }

  // ---------------------------------------------------------------------------
  // The prompts
  // ---------------------------------------------------------------------------

  /** The storyteller introduction and the instructions (their wording is not modelled). */
  const StoryIntro: string := "\nYou are a creative storyteller.\n\n[STORY CONTEXT]\n"
  const StoryInstructions: string := "\n\n--- INSTRUCTIONS ---\n\n"
  const NoPriorEvents: string := "(No prior events)"
  const EntityHeader: string := "\nConsider this entity graph (characters, locations, relationships):\n"
  const UserHeader: string := "\nAdditional user context:\n"
  const GuessesHeader: string := "\nPreviously generated events:\n"
  const DivergeLine: string := "Try to diverge significantly from these, to create an alternative path in the story.\n"
  const FinalLine: string := "\nNow, write the next event:\n"

  /** One "- g\n" line per guess. */
  function GuessLines(guesses: seq<string>): string
  {
    if |guesses| == 0 then "" else GuessLines(guesses[..|guesses| - 1]) + "- " + guesses[|guesses| - 1] + "\n"
  }

  /** The opening of the prompt: the chain as bullets, or the no-events marker, then the instructions. */
  function ContextSection(chainTexts: seq<string>): string
  {
    StoryIntro + (if |chainTexts| > 0 then Text.Bulleted(chainTexts) else NoPriorEvents) + StoryInstructions
  }

  /** Present only when the entity graph is included and its description is not blank. */
  function EntitySection(includeEntityGraph: bool, entitiesDescription: string): (r: string)
    ensures r == "" <==> !includeEntityGraph || Text.Strip(entitiesDescription) == ""
  {
    if includeEntityGraph && Text.Strip(entitiesDescription) != ""
    then EntityHeader + entitiesDescription + "\n" else ""
  }

  /** Present only when the user prompt is not blank. */
  function UserSection(userPrompt: string): (r: string)
    ensures r == "" <==> Text.Strip(userPrompt) == ""
  {
    if Text.Strip(userPrompt) != "" then UserHeader + userPrompt + "\n" else ""
  }

  /** Present only when there are earlier guesses. */
  function GuessesSection(guesses: seq<string>): (r: string)
    ensures r == "" <==> |guesses| == 0
  {
    if |guesses| > 0 then GuessesHeader + GuessLines(guesses) + DivergeLine else ""
  }

  /** The whole `generate_next_event` prompt. */
  function NextPrompt(chainTexts: seq<string>, guesses: seq<string>, includeEntityGraph: bool,
                      entitiesDescription: string, userPrompt: string): string
  {
    ContextSection(chainTexts) + EntitySection(includeEntityGraph, entitiesDescription)
      + UserSection(userPrompt) + GuessesSection(guesses) + FinalLine
  }

  /**
   * The engine's own prompts (no entity graph, no user prompt) are the story
   * context, the guesses section and the closing line, nothing else.
   */
  lemma EnginePrompt(chainTexts: seq<string>, guesses: seq<string>)
    ensures NextPrompt(chainTexts, guesses, false, "", "")
            == ContextSection(chainTexts) + GuessesSection(guesses) + FinalLine
  {
    assert Text.Strip("") == "";
    var c := ContextSection(chainTexts);
    assert c + "" + "" == c;
  }

  /**
   * `score_event_with_openai`'s rating prompt: the event text comes last; the
   * constraints line is there only when the user prompt is not blank.
   */
  const RatingIntro: string := "\nYou are an expert story critic. Rate this narrative event.\n\n"
  const ConstraintsHeader: string := "Below are domain-specific or user-specified constraints:\n- "
  const RatingRules: string := "\nPenalize heavily or reward as described.\n\nOnly output **one integer** from 1 to 10.\n\nNARRATIVE EVENT:\n"

  function ConstraintsLine(userPrompt: string): (r: string)
    ensures r == "" <==> Text.Strip(userPrompt) == ""
  {
    if Text.Strip(userPrompt) != "" then ConstraintsHeader + userPrompt + "\n" else ""
  }

  function RatingPrompt(eventText: string, userPrompt: string): string
  {
    RatingIntro + ConstraintsLine(userPrompt) + RatingRules + eventText + "\n"
  }

  // ---------------------------------------------------------------------------
  // Score parsing
  // ---------------------------------------------------------------------------

  /** `re.findall(r'\d+', s)[0]` read as a number: the first run of digits anywhere in `s`. */
  function FirstNumber(s: string): (r: Option<nat>)
    ensures r.None? <==> forall k :: 0 <= k < |s| ==> !Utils.IsDigit(s[k])
  {
    if |s| == 0 then None
    else if Utils.IsDigit(s[0]) then
      assert Utils.DigitRun(s) >= 1;
      Utils.LeadingNumber(s)
    else
      var r := FirstNumber(s[1..]);
      assert forall k :: 1 <= k < |s| ==> s[k] == s[1..][k - 1];
      r
  }

  /** The critic's reply as a score: the first number when it is in 1..10, otherwise 5. */
  function ParseScore(reply: string): (score: int)
    ensures 1 <= score <= 10
    ensures var n := FirstNumber(reply);
            score == (if n.Some? && 1 <= n.value <= 10 then n.value else 5)
  {
    match FirstNumber(reply)
    case None => 5
    case Some(n) => if n < 1 || n > 10 then 5 else n
  }

  /** Whatever text precedes it, as long as it has no digits, a rendered number is the one read. */
  lemma {:induction false} FirstNumberAfterText(prefix: string, n: nat, rest: string)
    requires forall k :: 0 <= k < |prefix| ==> !Utils.IsDigit(prefix[k])
    requires rest == [] || !Utils.IsDigit(rest[0])
    ensures FirstNumber(prefix + Utils.DecimalString(n) + rest) == Some(n)
  {
    var d := Utils.DecimalString(n);
    if |prefix| == 0 {
      assert prefix + d + rest == d + rest;
      assert (d + rest)[0] == d[0];
      Utils.LeadingNumberOfDecimal(n, rest);
    } else {
      var s := prefix + d + rest;
      assert s[0] == prefix[0];
      assert s[1..] == prefix[1..] + d + rest;
      FirstNumberAfterText(prefix[1..], n, rest);
    }
  }

  /** "Score: 7/10" reads 7; "Score: 12" reads 5. */
  lemma ParseScoreReadsFirstNumber(prefix: string, n: nat, rest: string)
    requires forall k :: 0 <= k < |prefix| ==> !Utils.IsDigit(prefix[k])
    requires rest == [] || !Utils.IsDigit(rest[0])
    ensures ParseScore(prefix + Utils.DecimalString(n) + rest) == (if 1 <= n <= 10 then n else 5)
  {
    FirstNumberAfterText(prefix, n, rest);
  }

  /**
   * `score_event_with_openai`: a failed call raises (the `try` covers only the
   * parsing); otherwise the parsed score, always in 1..10.
   */
  function ScoreEventWithOpenAI(eventText: string, userPrompt: string, call: string -> Outcome<string>)
    : (r: Outcome<int>)
    ensures r.Thrown? <==> call(RatingPrompt(eventText, userPrompt)).Thrown?
    ensures r.Ok? ==> 1 <= r.value <= 10
    ensures r.Ok? ==> r.value == ParseScore(call(RatingPrompt(eventText, userPrompt)).value)
  {
    match call(RatingPrompt(eventText, userPrompt))
    case Thrown => Thrown
    case Ok(reply) => Ok(ParseScore(reply))
  }

  // ---------------------------------------------------------------------------
  // The graph
  // ---------------------------------------------------------------------------

  class EventGraph {
    var nodes: map<int, NodeData>
    /** The node ids in insertion order, the order networkx lists nodes in. */
    var order: seq<int>
    /** The edges in insertion order. */
    var edges: seq<Edge>
    /** `_next_key`: the id the next node gets. */
    var nextKey: int

    /**
     * Ids are positive and below the counter, listed once each in increasing
     * order; every edge joins existing nodes from a smaller id to a larger one;
     * no node is entered twice.
     */
    ghost predicate Valid()
      reads this
    {
      && 1 <= nextKey
      && (forall k :: k in nodes ==> 1 <= k < nextKey)
      && (forall k :: k in nodes <==> k in order)
      && (forall i, j :: 0 <= i < j < |order| ==> order[i] < order[j])
      && (forall e :: e in edges ==> e.from in nodes && e.to in nodes && e.from < e.to)
      && SingleEntry(edges)
    }

    /** `EventGraph()`: an empty graph whose first id will be 1. */
    constructor ()
      ensures Valid()
      ensures nodes == map[] && order == [] && edges == [] && nextKey == 1
    {
      nodes := map[];
      order := [];
      edges := [];
      nextKey := 1;
    }

    /** `get_children`. */
    function Children(k: int): seq<int>
      reads this
    {
      Successors(edges, k)
    }

    /** `get_parents`. */
    function Parents(k: int): seq<int>
      reads this
    {
      Predecessors(edges, k)
    }

    /**
     * `add_event_node`: the node gets the current counter, which then moves
     * on; missing guess lists become empty ones; the statistics start at 0.
     */
    method AddEventNode(text: string, prevGuessesForward: Option<seq<string>>,
                        prevGuessesBackward: Option<seq<string>>)
      returns (id: int)
      modifies this
      requires Valid()
      ensures Valid()
      ensures id == old(nextKey) && id !in old(nodes) && nextKey == old(nextKey) + 1
      ensures nodes == old(nodes)[id := NodeData(text, prevGuessesForward.GetOr([]),
                                                 prevGuessesBackward.GetOr([]), 0, 0)]
      ensures order == old(order) + [id] && edges == old(edges)
    {
      var forward := if prevGuessesForward.None? then [] else prevGuessesForward.value;
      var backward := if prevGuessesBackward.None? then [] else prevGuessesBackward.value;
      forall i | 0 <= i < |order|
        ensures order[i] < nextKey
      {
        assert order[i] in order;
      }
      id := nextKey;
      nextKey := nextKey + 1;
      nodes := nodes[id := NodeData(text, forward, backward, 0, 0)];
      order := order + [id];
    }

    /** The texts of the nodes `ks`, in order. */
    function Texts(ks: seq<int>): (r: seq<string>)
      reads this
      requires forall i :: 0 <= i < |ks| ==> ks[i] in nodes
      ensures |r| == |ks| && forall i :: 0 <= i < |ks| ==> r[i] == nodes[ks[i]].text
    {
      if |ks| == 0 then [] else Texts(ks[..|ks| - 1]) + [nodes[ks[|ks| - 1]].text]
    }

    /**
     * The chain of first parents from the first node without parents down to
     * `k`: what `gather_chain_in_chronological_order` returns.
     */
    function Ancestry(k: int): (r: seq<int>)
      reads this
      requires Valid() && k in nodes
      decreases k
      ensures |r| >= 1 && r[|r| - 1] == k && r[0] in nodes && |Parents(r[0])| == 0
      ensures forall i :: 0 <= i < |r| ==> r[i] in nodes
      ensures forall i :: 0 <= i < |r| - 1 ==> Parents(r[i + 1]) == [r[i]]
    {
      ParentFacts(this, k);
      var p := Parents(k);
      if |p| == 0 then [k] else Ancestry(p[0]) + [k]
    }

    /** `gather_chain_in_chronological_order`: climb to a node without parents, then reverse. */
    method GatherChain(k: int) returns (chain: seq<int>)
      requires Valid() && k in nodes
      ensures chain == Ancestry(k)
    {
      var up: seq<int> := [];
      var current := k;
      while true
        invariant current in nodes
        invariant Ancestry(k) == Ancestry(current) + EventsDiagram.Reversed(up)
        decreases current
      {
        ClimbStep(this, k, current, up);
        up := up + [current];
        var p := Parents(current);
        if |p| == 0 {
          break;
        }
        current := p[0];
      }
      chain := EventsDiagram.ReverseInPlace(up);
    }

    /**
     * `generate_next_event`: the prompt built from the node's chain and its
     * forward guesses, one `+=` per section and one per guess, sent to the
     * model. The reply is the event text.
     */
    method GenerateNextEvent(fromNode: int, includeEntityGraph: bool, entitiesDescription: string,
                             userPrompt: string, call: string -> Outcome<string>)
      returns (r: Outcome<string>)
      requires Valid() && fromNode in nodes
      ensures r == call(NextPrompt(Texts(Ancestry(fromNode)), nodes[fromNode].prevGuessesForward,
                                   includeEntityGraph, entitiesDescription, userPrompt))
    {
      var guesses := nodes[fromNode].prevGuessesForward;
      var chainIds := GatherChain(fromNode);
      var chainTexts := Texts(chainIds);
      var prompt := BuildNextPrompt(chainTexts, guesses, includeEntityGraph, entitiesDescription, userPrompt);
      r := call(prompt);
    }

    // -------------------------------------------------------------------------
    // Selection
    // -------------------------------------------------------------------------

    /** The selection value of each child of `k`, in child order. */
    function ChildValues(k: int, ucb: Mcts.Ucb): (vs: seq<Option<real>>)
      reads this
      requires Valid() && k in nodes
      ensures |vs| == |Children(k)|
      ensures forall i :: 0 <= i < |vs| ==> vs[i].Some?
    {
      ChildFacts(this, k);
      ValuesOf(nodes, Children(k), ParentVisits(nodes[k]), ucb)
    }

    /** The first child with the greatest selection value; None when there are no children. */
    function BestChild(k: int, ucb: Mcts.Ucb): (r: Option<int>)
      reads this
      requires Valid() && k in nodes
      ensures r.None? <==> |Children(k)| == 0
      ensures r.Some? ==> r.value in Children(k) && r.value in nodes && k < r.value
    {
      ChildFacts(this, k);
      var i := Argmax.FirstMaxIndex(ChildValues(k, ucb));
      if i.None? then None else Some(Children(k)[i.value])
    }

    /** Selection stops at a node with fewer than `maxChildren` children, or with none. */
    predicate Stops(k: int, maxChildren: int)
      reads this
    {
      |Children(k)| < maxChildren || |Children(k)| == 0
    }

    predicate Descends(k: int, c: int, maxChildren: int, ucb: Mcts.Ucb)
      reads this
      requires Valid() && k in nodes
    {
      !Stops(k, maxChildren) && BestChild(k, ucb) == Some(c)
    }

    /**
     * `_select_path`: from `startId`, move to the best child while the node
     * has at least `maxChildren` children.
     */
    method SelectPath(startId: int, maxChildren: int, ucb: Mcts.Ucb) returns (path: seq<int>)
      requires Valid() && startId in nodes
      ensures |path| >= 1 && path[0] == startId
      ensures forall i :: 0 <= i < |path| ==> path[i] in nodes
      ensures forall i :: 0 <= i < |path| - 1 ==> Descends(path[i], path[i + 1], maxChildren, ucb)
      ensures Stops(path[|path| - 1], maxChildren)
    {
      path := [startId];
      var current := startId;
      while true
        invariant current in nodes && |path| >= 1 && path[0] == startId && current == path[|path| - 1]
        invariant Descent(path, maxChildren, ucb)
        decreases nextKey - current
      {
        var children := Children(current);
        if |children| < maxChildren {
          break;
        }
        var bestChild := ScanChildren(current, ucb);
        if bestChild.None? {
          break;
        }
        DescentSnoc(path, bestChild.value, maxChildren, ucb);
        path := path + [bestChild.value];
        current := bestChild.value;
      }
    }

    /** Each node of `path` is in the graph and each step goes to the best child of a node that does not stop. */
    ghost predicate Descent(path: seq<int>, maxChildren: int, ucb: Mcts.Ucb)
      reads this
      requires Valid()
    {
      && (forall i :: 0 <= i < |path| ==> path[i] in nodes)
      && (forall i :: 0 <= i < |path| - 1 ==> Descends(path[i], path[i + 1], maxChildren, ucb))
    }

    lemma DescentSnoc(path: seq<int>, c: int, maxChildren: int, ucb: Mcts.Ucb)
      requires Valid() && |path| >= 1 && Descent(path, maxChildren, ucb) && path[|path| - 1] in nodes
      requires Descends(path[|path| - 1], c, maxChildren, ucb)
      ensures Descent(path + [c], maxChildren, ucb)
    {
      assert c in nodes;
    }

    /**
     * The scan of `_select_path` over the children of `k`: it starts below
     * every value (`-inf`), so the first child is taken first and a later one
     * replaces it only when strictly greater.
     */
    method ScanChildren(k: int, ucb: Mcts.Ucb) returns (bestChild: Option<int>)
      requires Valid() && k in nodes
      ensures bestChild == BestChild(k, ucb)
    {
      var children := Children(k);
      ChildFacts(this, k);
      var parentVisits := ParentVisits(nodes[k]);
      ghost var values := ChildValues(k, ucb);
      ghost var best: Option<nat> := None;
      bestChild := None;
      var bestValue: real := 0.0;
      for i := 0 to |children|
        invariant best == Argmax.FirstMaxIndex(values[..i])
        invariant best.None? ==> bestChild.None?
        invariant best.Some? ==> best.value < i && bestChild == Some(children[best.value])
                                 && values[best.value] == Some(bestValue)
      {
        Argmax.FirstMaxIndexExtend(values, i);
        var c := children[i];
        var cData := nodes[c];
        var value := ucb(Average(cData), parentVisits, cData.visits);
        if bestChild.None? || value > bestValue {
          bestValue := value;
          bestChild := Some(c);
          best := Some(i);
        }
      }
      assert values[..|children|] == values;
    }

    // -------------------------------------------------------------------------
    // Expansion
    // -------------------------------------------------------------------------

    /** The prompt `_maybe_expand` sends: the leaf's chain and its forward guesses. */
    function ExpansionPrompt(leafId: int): string
      reads this
      requires Valid() && leafId in nodes
    {
      NextPrompt(Texts(Ancestry(leafId)), nodes[leafId].prevGuessesForward, false, "", "")
    }

    /**
     * `_maybe_expand`: a leaf with at least `maxChildren` children is returned
     * as it is. Otherwise the generated text is appended to the leaf's forward
     * guesses, becomes a new node, and an edge labelled "leads to" joins the
     * leaf to it; the new id is returned. A failed call changes nothing.
     */
    method MaybeExpand(leafId: int, maxChildren: int, call: string -> Outcome<string>)
      returns (r: Outcome<int>)
      modifies this
      requires Valid() && leafId in nodes
      ensures Valid()
      ensures old(|Children(leafId)|) >= maxChildren ==> r == Ok(leafId) && unchanged(this)
      ensures old(|Children(leafId)|) < maxChildren && call(old(ExpansionPrompt(leafId))).Thrown? ==>
        r.Thrown? && unchanged(this)
      ensures old(|Children(leafId)|) < maxChildren && call(old(ExpansionPrompt(leafId))).Ok? ==>
        var text := call(old(ExpansionPrompt(leafId))).value;
        var leaf := old(nodes[leafId]);
        && r == Ok(old(nextKey)) && nextKey == old(nextKey) + 1
        && nodes == old(nodes)[leafId := leaf.(prevGuessesForward := leaf.prevGuessesForward + [text])]
                              [old(nextKey) := NodeData(text, [], [], 0, 0)]
        && order == old(order) + [old(nextKey)]
        && edges == old(edges) + [Edge(leafId, old(nextKey), Some(LeadsTo))]
      ensures StatsKept(old(nodes), nodes) && EdgesExtend(old(edges), edges) && nextKey >= old(nextKey)
    {
      KeptSame(nodes);
      assert edges[..|edges|] == edges;
      var children := Children(leafId);
      if |children| >= maxChildren {
        return Ok(leafId);
      }
      var newEvent := GenerateNextEvent(leafId, false, "", "", call);
      if newEvent.Thrown? {
        return Thrown;
      }
      var childId := AddGuessedChild(leafId, newEvent.value);
      r := Ok(childId);
    }

    /**
     * The second half of `_maybe_expand`: the text joins the leaf's forward
     * guesses, becomes a new node, and an edge labelled "leads to" joins them.
     */
    method AddGuessedChild(leafId: int, text: string) returns (childId: int)
      modifies this
      requires Valid() && leafId in nodes
      ensures Valid()
      ensures childId == old(nextKey) && nextKey == old(nextKey) + 1
      ensures var leaf := old(nodes[leafId]);
        nodes == old(nodes)[leafId := leaf.(prevGuessesForward := leaf.prevGuessesForward + [text])]
                           [childId := NodeData(text, [], [], 0, 0)]
      ensures order == old(order) + [childId]
      ensures edges == old(edges) + [Edge(leafId, childId, Some(LeadsTo))]
      ensures StatsKept(old(nodes), nodes) && EdgesExtend(old(edges), edges)
    {
      GuessedChildKeepsStats(nodes, leafId, text, nextKey);
      AppendExtends(edges, Edge(leafId, nextKey, Some(LeadsTo)));
      var leaf := nodes[leafId];
      ghost var before := nodes;
      nodes := nodes[leafId := leaf.(prevGuessesForward := leaf.prevGuessesForward + [text])];
      assert nodes.Keys == before.Keys;
      childId := AddEventNode(text, None, None);
      NoParentsYet(this, childId, before);
      AddEdge(leafId, childId, Some(LeadsTo));
    }

    // -------------------------------------------------------------------------
    // Simulation
    // -------------------------------------------------------------------------

    /**
     * The texts `_simulate` starts from: up to `steps` of them, climbing first
     * parents from `k`, oldest first.
     */
    function RecentChain(k: int, steps: int): (r: seq<string>)
      reads this
      requires Valid() && k in nodes
      decreases k
      ensures |r| <= (if steps > 0 then steps else 0)
      ensures steps > 0 ==> |r| >= 1 && r[|r| - 1] == nodes[k].text
    {
      if steps <= 0 then []
      else
        ParentFacts(this, k);
        var p := Parents(k);
        if |p| == 0 then [nodes[k].text] else RecentChain(p[0], steps - 1) + [nodes[k].text]
    }

    /** The gathering loop of `_simulate`: push texts while climbing, then reverse. */
    method GatherRecentChain(k: int, steps: int) returns (chain: seq<string>)
      requires Valid() && k in nodes
      ensures chain == RecentChain(k, steps)
    {
      var up: seq<string> := [];
      var current := k;
      var depthCount := 0;
      while depthCount < steps
        invariant current in nodes && 0 <= depthCount
        invariant RecentChain(k, steps) == RecentChain(current, steps - depthCount) + EventsDiagram.Reversed(up)
        decreases steps - depthCount
      {
        var text := nodes[current].text;
        ghost var before := up;
        EventsDiagram.ReversedAppend(up, text);
        up := up + [text];
        ParentFacts(this, current);
        var parents := Parents(current);
        if |parents| == 0 {
          break;
        }
        ClimbRecent(this, current, steps - depthCount, EventsDiagram.Reversed(before));
        current := parents[0];
        depthCount := depthCount + 1;
      }
      chain := EventsDiagram.ReverseInPlace(up);
    }

    /**
     * The rollout loop of `_simulate`. Each step adds a temporary node holding
     * the last text (so `_next_key` moves on), asks for its next event, and
     * removes the node again; a blank reply ends the rollout. When the call
     * raises, the temporary node is never removed. `next` is the model's
     * reply to a step from a text (`FreshReplies(call)`).
     */
    method RunRollout(chain: seq<string>, rolloutDepth: int, call: string -> Outcome<string>,
                      next: string -> Outcome<string>)
      returns (events: seq<string>, threw: bool)
      modifies this
      requires Valid()
      requires StepsOf(next, call)
      ensures Valid()
      ensures nextKey >= old(nextKey)
      ensures RolloutRun(events, nextKey - old(nextKey), threw) == Rollout(chain, 0, rolloutDepth, next)
      ensures edges == old(edges)
      ensures !threw ==> nodes == old(nodes) && order == old(order)
      ensures forall k :: k in old(nodes) ==> k in nodes && nodes[k] == old(nodes)[k]
      ensures forall k :: k in nodes && k !in old(nodes) ==> nodes[k].visits == 0 && nodes[k].totalScore == 0
    {
      events := [];
      threw := false;
      var virtualChain := chain;
      var step := 0;
      while step < rolloutDepth
        invariant Valid() && step == |events| && virtualChain == chain + events && !threw
        invariant step == 0 || step <= rolloutDepth
        invariant nextKey == old(nextKey) + step && edges == old(edges)
        invariant nodes == old(nodes) && order == old(order)
        invariant Kept(chain, events, next)
      {
        if |virtualChain| == 0 {
          KeptRollout(chain, events, rolloutDepth, next);
          assert events + [] == events;
          return;
        }
        var text;
        text, threw := RolloutTurn(virtualChain, call, next);
        if threw || text == "" {
          KeptRollout(chain, events, rolloutDepth, next);
          assert events + [] == events;
          return;
        }
        events := events + [text];
        virtualChain := virtualChain + [text];
        step := step + 1;
      }
      KeptRollout(chain, events, rolloutDepth, next);
      assert events + [] == events;
    }

    /**
     * One turn of the rollout loop: the rollout step on the last text, and
     * what it keeps of the reply.
     */
    method RolloutTurn(virtualChain: seq<string>, call: string -> Outcome<string>, next: string -> Outcome<string>)
      returns (text: string, threw: bool)
      modifies this
      requires Valid() && |virtualChain| > 0 && StepsOf(next, call)
      ensures Valid() && nextKey == old(nextKey) + 1 && edges == old(edges)
      ensures !threw ==> nodes == old(nodes) && order == old(order)
      ensures threw ==> nodes == old(nodes)[nextKey - 1 := NodeData(virtualChain[|virtualChain| - 1], [], [], 0, 0)]
      ensures threw ==> order == old(order) + [nextKey - 1]
      ensures threw <==> next(virtualChain[|virtualChain| - 1]).Thrown?
      ensures !threw ==> next(virtualChain[|virtualChain| - 1]) == Ok(text)
    {
      var lastText := virtualChain[|virtualChain| - 1];
      var reply := RolloutStep(lastText, call);
      assert StepReply(reply) == next(lastText);
      if reply.Thrown? {
        return "", true;
      }
      threw := false;
      text := Text.Strip(reply.value);
    }

    /**
     * One rollout step: a temporary node holding `lastText`, the next event
     * generated from it, and the node removed again unless the call raised.
     */
    method RolloutStep(lastText: string, call: string -> Outcome<string>) returns (reply: Outcome<string>)
      modifies this
      requires Valid()
      ensures Valid()
      ensures reply == call(RolloutPrompt(lastText))
      ensures nextKey == old(nextKey) + 1 && edges == old(edges)
      ensures reply.Ok? ==> nodes == old(nodes) && order == old(order)
      ensures reply.Thrown? ==> nodes == old(nodes)[old(nextKey) := NodeData(lastText, [], [], 0, 0)]
                                && order == old(order) + [old(nextKey)]
    {
      ghost var savedNodes := nodes;
      ghost var savedOrder := order;
      assert forall e :: e in edges ==> e.to in savedNodes;
      var tempId := AddEventNode(lastText, Some([]), None);
      reply := GenerateFromFresh(tempId, savedNodes, call);
      if reply.Ok? {
        RemoveFresh(tempId, savedNodes, savedOrder);
      }
    }

    /** `generate_next_event` on a node no edge enters and which holds no guesses. */
    method GenerateFromFresh(id: int, ghost before: map<int, NodeData>, call: string -> Outcome<string>)
      returns (reply: Outcome<string>)
      requires Valid() && id in nodes && id !in before && nodes[id].prevGuessesForward == []
      requires forall e :: e in edges ==> e.to in before
      ensures reply == call(RolloutPrompt(nodes[id].text))
    {
      FreshPrompt(this, id, before);
      reply := GenerateNextEvent(id, false, "", "", call);
    }

    /** `remove_node` of a node just added, which no edge touches: the graph is as before it. */
    method RemoveFresh(id: int, ghost savedNodes: map<int, NodeData>, ghost savedOrder: seq<int>)
      modifies this
      requires Valid() && id !in savedNodes
      requires id in nodes && nodes == savedNodes[id := nodes[id]] && order == savedOrder + [id]
      ensures nodes == savedNodes && order == savedOrder
      ensures edges == old(edges) && nextKey == old(nextKey)
    {
      nodes := nodes - {id};
      order := order[..|order| - 1];
      assert nodes == savedNodes;
    }

    /**
     * `_simulate`: the recent chain, a rollout from it, and the critic's score
     * of both as "- t" lines. When the rollout or the critic raises, the
     * exception propagates (a rollout's temporary node stays behind).
     */
    method Simulate(nodeId: int, scoringPrompt: string, scoringDepth: int, rolloutDepth: int,
                    generate: string -> Outcome<string>, score: string -> Outcome<string>)
      returns (r: Outcome<int>)
      modifies this
      requires Valid() && nodeId in nodes
      ensures Valid()
      ensures var chain := old(RecentChain(nodeId, scoringDepth));
        var run := Rollout(chain, 0, rolloutDepth, FreshReplies(generate));
        && nextKey == old(nextKey) + run.attempts && edges == old(edges)
        && (run.threw ==> r.Thrown?)
        && (!run.threw ==> nodes == old(nodes) && order == old(order)
                           && r == ScoreEventWithOpenAI(Text.Bulleted(chain + run.events), scoringPrompt, score))
      ensures r.Ok? ==> 1 <= r.value <= 10
      ensures forall k :: k in old(nodes) ==> k in nodes && nodes[k] == old(nodes)[k]
      ensures StatsKept(old(nodes), nodes)
    {
      var chainSoFar := GatherRecentChain(nodeId, scoringDepth);
      var events, threw := RunRollout(chainSoFar, rolloutDepth, generate, FreshReplies(generate));
      if threw {
        return Thrown;
      }
      var combinedText := Text.Bulleted(chainSoFar + events);
      r := ScoreEventWithOpenAI(combinedText, scoringPrompt, score);
    }

    // -------------------------------------------------------------------------
    // Backpropagation
    // -------------------------------------------------------------------------

    /** `_backpropagate`: one more visit and `score` more in total for each node of the path, in order. */
    method Backpropagate(path: seq<int>, score: int)
      modifies this
      requires Valid() && forall i :: 0 <= i < |path| ==> path[i] in nodes
      ensures Valid()
      ensures nodes == Credit(old(nodes), path, score)
      ensures order == old(order) && edges == old(edges) && nextKey == old(nextKey)
    {
      for i := 0 to |path|
        invariant Valid() && nodes.Keys == old(nodes).Keys
        invariant nodes == Credit(old(nodes), path[..i], score)
        invariant order == old(order) && edges == old(edges) && nextKey == old(nextKey)
      {
        CreditStep(old(nodes), path, i, score);
        CreditNode(path[i], score);
      }
      assert path[..|path|] == path;
    }

    /** The statistics update of one node of the path. */
    method CreditNode(nodeId: int, score: int)
      modifies this
      requires Valid() && nodeId in nodes
      ensures Valid()
      ensures nodes == old(nodes)[nodeId := Bump(old(nodes)[nodeId], score)]
      ensures order == old(order) && edges == old(edges) && nextKey == old(nextKey)
    {
      var oldVisits := nodes[nodeId].visits;
      var oldScore := nodes[nodeId].totalScore;
      nodes := nodes[nodeId := nodes[nodeId].(visits := oldVisits + 1, totalScore := oldScore + score)];
    }

    // -------------------------------------------------------------------------
    // The search loop
    // -------------------------------------------------------------------------

    /**
     * One iteration of `run_mcts`: select a path, expand its leaf, simulate
     * the expanded node, credit the selected path. Nodes are only added and
     * edges only appended; no node's visits or total drop; a completed
     * iteration gives the root exactly one more visit; statistics that lie
     * in range stay in range.
     */
    method Iterate(rootId: int, maxChildren: int, scoringPrompt: string, scoringDepth: int, rolloutDepth: int,
                   ucb: Mcts.Ucb, replies: Mcts.Replies)
      returns (completed: bool)
      modifies this
      requires Valid() && rootId in nodes
      ensures Valid() && nextKey >= old(nextKey)
      ensures EdgesExtend(old(edges), edges) && Grew(old(nodes), nodes)
      ensures nodes[rootId].visits == old(nodes)[rootId].visits + (if completed then 1 else 0)
      ensures AllStatsInRange(old(nodes)) ==> AllStatsInRange(nodes)
    {
      ghost var atStart := nodes;
      ghost var edgesAtStart := edges;
      var path := SelectPath(rootId, maxChildren, ucb);
      SelectedPathRisesFromRoot(this, path, maxChildren, ucb);
      var leaf := path[|path| - 1];
      var expanded := MaybeExpand(leaf, maxChildren, replies.expand);
      if expanded.Thrown? {
        KeptGrew(atStart, nodes);
        return false;
      }
      completed := SimulateAndBackpropagate(atStart, path, expanded.value, scoringPrompt, scoringDepth,
                                            rolloutDepth, replies);
    }

    /**
     * The second half of an iteration of `run_mcts`: score the expanded
     * node, then credit the selected path.
     */
    method SimulateAndBackpropagate(ghost atStart: map<int, NodeData>, path: seq<int>, expandedId: int,
                                    scoringPrompt: string, scoringDepth: int, rolloutDepth: int,
                                    replies: Mcts.Replies)
      returns (completed: bool)
      modifies this
      requires Valid() && expandedId in nodes && StatsKept(atStart, nodes)
      requires |path| >= 1 && path[0] in atStart && multiset(path)[path[0]] == 1
      requires forall i :: 0 <= i < |path| ==> path[i] in nodes
      ensures Valid() && nextKey >= old(nextKey) && edges == old(edges)
      ensures Grew(atStart, nodes)
      ensures nodes[path[0]].visits == atStart[path[0]].visits + (if completed then 1 else 0)
      ensures AllStatsInRange(atStart) ==> AllStatsInRange(nodes)
    {
      ghost var afterExpand := nodes;
      var score := Simulate(expandedId, scoringPrompt, scoringDepth, rolloutDepth, replies.rollout, replies.score);
      KeptTrans(atStart, afterExpand, nodes);
      if score.Thrown? {
        KeptGrew(atStart, nodes);
        KeptVisits(atStart, nodes, path[0]);
        return false;
      }
      ghost var before := nodes;
      assert forall i :: 0 <= i < |path| ==> path[i] in before;
      Backpropagate(path, score.value);
      CreditAfterKept(atStart, before, path, score.value);
      completed := true;
    }

    /**
     * `run_mcts`: up to `iterations` iterations. When both `desiredChainLength`
     * and `minNumChains` are given, the run stops after the first iteration
     * that leaves at least `minNumChains` root-to-leaf paths of exactly
     * `desiredChainLength` nodes. A raising model call ends the run. The root
     * gains exactly one visit per completed iteration.
     */
    method RunMcts(rootId: int, maxChildren: int, scoringPrompt: string, iterations: int, scoringDepth: int,
                   rolloutDepth: int, desiredChainLength: Option<int>, minNumChains: Option<int>,
                   ucb: Mcts.Ucb, replies: nat -> Mcts.Replies)
      returns (completed: nat, end: RunEnd)
      modifies this
      requires Valid() && rootId in nodes
      ensures Valid() && nextKey >= old(nextKey)
      ensures EdgesExtend(old(edges), edges) && Grew(old(nodes), nodes)
      ensures nodes[rootId].visits == old(nodes)[rootId].visits + completed
      ensures AllStatsInRange(old(nodes)) ==> AllStatsInRange(nodes)
      ensures end == Exhausted ==> completed == (if iterations > 0 then iterations else 0)
      ensures end == Raised ==> completed < iterations
      ensures end == StoppedEarly ==>
        && 1 <= completed <= iterations
        && desiredChainLength.Some? && minNumChains.Some?
        && |WithLength(RootToLeafPaths(rootId), desiredChainLength.value)| >= minNumChains.value
    {
      completed := 0;
      while completed < iterations
        invariant Valid() && rootId in nodes && nextKey >= old(nextKey)
        invariant completed <= iterations || completed == 0
        invariant EdgesExtend(old(edges), edges) && Grew(old(nodes), nodes)
        invariant nodes[rootId].visits == old(nodes)[rootId].visits + completed
        invariant AllStatsInRange(old(nodes)) ==> AllStatsInRange(nodes)
      {
        ghost var nodesBefore := nodes;
        ghost var edgesBefore := edges;
        var ok := Iterate(rootId, maxChildren, scoringPrompt, scoringDepth, rolloutDepth, ucb, replies(completed));
        GrewTrans(old(nodes), nodesBefore, nodes);
        EdgesExtendTrans(old(edges), edgesBefore, edges);
        if !ok {
          return completed, Raised;
        }
        completed := completed + 1;
        if desiredChainLength.Some? && minNumChains.Some? {
          var matching := CountPathsOfLength(rootId, desiredChainLength.value);
          if matching >= minNumChains.value {
            return completed, StoppedEarly;
          }
        }
      }
      end := Exhausted;
    }

    // -------------------------------------------------------------------------
    // Root-to-leaf paths and their scores
    // -------------------------------------------------------------------------

    /** `G.add_edge(a, b)`, with the label given, into a node no edge enters yet. */
    method AddEdge(a: int, b: int, edgeLabel: Option<string>)
      modifies this
      requires Valid() && a in nodes && b in nodes && a < b && Parents(b) == []
      ensures Valid()
      ensures edges == old(edges) + [Edge(a, b, edgeLabel)]
      ensures nodes == old(nodes) && order == old(order) && nextKey == old(nextKey)
      ensures Parents(b) == [a]
    {
      forall x | x in edges
        ensures x.to != b
      {
        assert HasEdge(edges, x.from, x.to);
      }
      AppendEntry(edges, Edge(a, b, edgeLabel));
      edges := edges + [Edge(a, b, edgeLabel)];
      assert edges[|edges| - 1] == Edge(a, b, edgeLabel);
      AtMostOneParent(edges, b);
      assert a in Parents(b);
    }

    /**
     * The edge path from `root` down to `k`, when `root` is `k` or one of its
     * ancestors (there is no other, see `OnlyEdgePath`).
     */
    function PathFrom(root: int, k: int): (r: Option<seq<int>>)
      reads this
      requires Valid() && k in nodes
      decreases k
      ensures r.Some? ==> |r.value| >= 1 && r.value[0] == root && r.value[|r.value| - 1] == k
      ensures r.Some? ==> IsEdgePath(edges, r.value) && forall i :: 0 <= i < |r.value| ==> r.value[i] in nodes
    {
      if k == root then Some([k])
      else
        ParentFacts(this, k);
        var ps := Parents(k);
        if |ps| == 0 then None
        else
          match PathFrom(root, ps[0])
          case None => None
          case Some(q) =>
            assert ps[0] in ps;
            Some(q + [k])
    }

    /**
     * A path `get_all_root_to_leaf_paths` reports for `root`: at least two
     * existing nodes, starting at `root`, joined by edges, ending at a node
     * without children. The lower bound of two reflects `nx.all_simple_paths`
     * yielding no path from the root to itself.
     */
    predicate IsLeafPath(root: int, p: seq<int>)
      reads this
    {
      && |p| >= 2 && p[0] == root && IsEdgePath(edges, p)
      && (forall i :: 0 <= i < |p| ==> p[i] in nodes)
      && |Children(p[|p| - 1])| == 0
    }

    /** The leaf paths from `root` to the nodes `ks`, in the order of `ks`. */
    function LeafPathsAmong(root: int, ks: seq<int>): (r: seq<seq<int>>)
      reads this
      requires Valid() && forall i :: 0 <= i < |ks| ==> ks[i] in nodes
      ensures |r| <= |ks|
      ensures forall i :: 0 <= i < |r| ==> IsLeafPath(root, r[i])
    {
      if |ks| == 0 then []
      else
        var k := ks[|ks| - 1];
        var rest := LeafPathsAmong(root, ks[..|ks| - 1]);
        var here := PathFrom(root, k);
        if |Children(k)| == 0 && k != root && here.Some? then rest + [here.value] else rest
    }

    /**
     * `get_all_root_to_leaf_paths`: for each childless node in node order, the
     * path to it from `root`. These are exactly the leaf paths from `root`.
     */
    function RootToLeafPaths(root: int): (r: seq<seq<int>>)
      reads this
      requires Valid()
      ensures forall i :: 0 <= i < |r| ==> IsLeafPath(root, r[i])
      ensures forall p :: IsLeafPath(root, p) ==> p in r
    {
      forall i | 0 <= i < |order|
        ensures order[i] in nodes
      {
        assert order[i] in order;
      }
      forall p | IsLeafPath(root, p)
        ensures p in LeafPathsAmong(root, order)
      {
        LeafPathsAmongComplete(this, root, order, p);
      }
      LeafPathsAmong(root, order)
    }

    /** Each node's average score along `path`. */
    function Averages(path: seq<int>): (r: seq<real>)
      reads this
      requires forall i :: 0 <= i < |path| ==> path[i] in nodes
      ensures |r| == |path| && forall i :: 0 <= i < |path| ==> r[i] == Average(nodes[path[i]])
    {
      if |path| == 0 then [] else Averages(path[..|path| - 1]) + [Average(nodes[path[|path| - 1]])]
    }

    /** The mean of the node averages along `path`, 0.0 for the empty path. */
    function PathScore(path: seq<int>): real
      reads this
      requires forall i :: 0 <= i < |path| ==> path[i] in nodes
    {
      Ranking.Mean(Averages(path))
    }

    /** `compute_path_score`: collect each node's average, then take their mean. */
    method ComputePathScore(path: seq<int>) returns (score: real)
      requires forall i :: 0 <= i < |path| ==> path[i] in nodes
      ensures score == PathScore(path)
    {
      var scores: seq<real> := [];
      for i := 0 to |path|
        invariant scores == Averages(path[..i])
      {
        assert path[..i + 1][..i] == path[..i];
        var n := nodes[path[i]];
        if n.visits > 0 {
          scores := scores + [n.totalScore as real / n.visits as real];
        } else {
          scores := scores + [0.0];
        }
      }
      assert path[..|path|] == path;
      score := if |scores| > 0 then Ranking.Sum(scores) / |scores| as real else 0.0;
    }

    /** `_count_paths_of_length`: how many root-to-leaf paths have exactly `desiredLength` nodes. */
    method CountPathsOfLength(rootId: int, desiredLength: int) returns (count: nat)
      requires Valid()
      ensures count == |WithLength(RootToLeafPaths(rootId), desiredLength)|
    {
      var allPaths := RootToLeafPaths(rootId);
      count := CountWithLength(allPaths, desiredLength);
    }

    /** The score of each of `paths`, as the values the "best so far" scan reads. */
    function PathScores(paths: seq<seq<int>>): (vs: seq<Option<real>>)
      reads this
      requires forall i :: 0 <= i < |paths| ==> forall j :: 0 <= j < |paths[i]| ==> paths[i][j] in nodes
      ensures |vs| == |paths| && forall i :: 0 <= i < |paths| ==> vs[i] == Some(PathScore(paths[i]))
    {
      if |paths| == 0 then [] else PathScores(paths[..|paths| - 1]) + [Some(PathScore(paths[|paths| - 1]))]
    }

    /** The `scored_paths` list of `get_top_path`: each path with its score. */
    method ScorePaths(paths: seq<seq<int>>) returns (scored: seq<Ranking.ScoredPath>)
      requires forall i :: 0 <= i < |paths| ==> forall j :: 0 <= j < |paths[i]| ==> paths[i][j] in nodes
      ensures |scored| == |paths|
      ensures forall i :: 0 <= i < |paths| ==> scored[i] == Ranking.ScoredPath(paths[i], PathScore(paths[i]))
      ensures Ranking.Keys(scored, Ranking.ScoreOf) == PathScores(paths)
    {
      scored := [];
      for i := 0 to |paths|
        invariant |scored| == i
        invariant forall j :: 0 <= j < i ==> scored[j] == Ranking.ScoredPath(paths[j], PathScore(paths[j]))
      {
        var pathScore := ComputePathScore(paths[i]);
        scored := scored + [Ranking.ScoredPath(paths[i], pathScore)];
      }
    }

    /**
     * `get_top_path`: `[rootId]` when there is no root-to-leaf path; otherwise
     * the first path of the stable descending sort by score, which is the
     * first path whose score no other path exceeds. Also its texts as "- t"
     * lines.
     */
    method GetTopPath(rootId: int) returns (topPath: seq<int>, bullets: string)
      requires Valid() && rootId in nodes
      ensures forall i :: 0 <= i < |topPath| ==> topPath[i] in nodes
      ensures bullets == Text.Bulleted(Texts(topPath))
      ensures RootToLeafPaths(rootId) == [] ==> topPath == [rootId]
      ensures RootToLeafPaths(rootId) != [] ==>
        var paths := RootToLeafPaths(rootId);
        var best := Argmax.FirstMaxIndex(PathScores(paths));
        best.Some? && topPath == paths[best.value]
    {
      var allPaths := RootToLeafPaths(rootId);
      if |allPaths| == 0 {
        topPath := [rootId];
        bullets := Text.Bulleted(Texts(topPath));
        return;
      }
      var scoredPaths := ScorePaths(allPaths);
      var sorted := Ranking.SortDesc(scoredPaths, Ranking.ScoreOf);
      Ranking.SortDescHead(scoredPaths, Ranking.ScoreOf);
      topPath := sorted[0].path;
      bullets := Text.Bulleted(Texts(topPath));
    }
  }

  /** How a `run_mcts` call ended. */
  datatype RunEnd = Exhausted | StoppedEarly | Raised

  /** Consecutive entries of `p` are joined by edges. */
  predicate IsEdgePath(edges: seq<Edge>, p: seq<int>)
  {
    forall i :: 0 <= i < |p| - 1 ==> HasEdge(edges, p[i], p[i + 1])
  }

  /** `b` is `a` with edges appended. */
  predicate EdgesExtend(a: seq<Edge>, b: seq<Edge>)
  {
    |a| <= |b| && b[..|a|] == a
  }

  lemma EdgesExtendTrans(a: seq<Edge>, b: seq<Edge>, c: seq<Edge>)
    requires EdgesExtend(a, b) && EdgesExtend(b, c)
    ensures EdgesExtend(a, c)
  {
    assert c[..|a|] == c[..|b|][..|a|];
  }

  /** Every node of `a` is still in `b`, with no fewer visits and no smaller total. */
  predicate Grew(a: map<int, NodeData>, b: map<int, NodeData>)
  {
    && a.Keys <= b.Keys
    && forall k :: k in a ==> b[k].visits >= a[k].visits && b[k].totalScore >= a[k].totalScore
  }

  lemma GrewTrans(a: map<int, NodeData>, b: map<int, NodeData>, c: map<int, NodeData>)
    requires Grew(a, b) && Grew(b, c)
    ensures Grew(a, c)
  {
  }

  /**
   * Every node of `a` is still in `b` with the same statistics, and the
   * nodes added since have none.
   */
  predicate StatsKept(a: map<int, NodeData>, b: map<int, NodeData>)
  {
    && a.Keys <= b.Keys
    && (forall k :: k in a ==> b[k].visits == a[k].visits && b[k].totalScore == a[k].totalScore)
    && (forall k :: k in b && k !in a ==> b[k].visits == 0 && b[k].totalScore == 0)
  }

  lemma KeptSame(a: map<int, NodeData>)
    ensures StatsKept(a, a)
  {
  }

  lemma KeptTrans(a: map<int, NodeData>, b: map<int, NodeData>, c: map<int, NodeData>)
    requires StatsKept(a, b) && StatsKept(b, c)
    ensures StatsKept(a, c)
  {
  }

  lemma KeptVisits(a: map<int, NodeData>, b: map<int, NodeData>, k: int)
    requires StatsKept(a, b) && k in a
    ensures k in b && b[k].visits == a[k].visits
  {
  }

  lemma KeptGrew(a: map<int, NodeData>, b: map<int, NodeData>)
    requires StatsKept(a, b)
    ensures Grew(a, b)
    ensures AllStatsInRange(a) ==> AllStatsInRange(b)
  {
  }

  /**
   * Crediting, with a score in 1..10, a path on which `root` occurs once,
   * after an expansion and a simulation that kept the statistics: every
   * node grew, the root by one visit, and statistics in range stay so.
   */
  lemma CreditAfterKept(start: map<int, NodeData>, before: map<int, NodeData>, path: seq<int>, score: int)
    requires StatsKept(start, before) && 1 <= score <= 10
    requires |path| >= 1 && path[0] in start && multiset(path)[path[0]] == 1
    ensures Grew(start, Credit(before, path, score))
    ensures Credit(before, path, score)[path[0]].visits == start[path[0]].visits + 1
    ensures AllStatsInRange(start) ==> AllStatsInRange(Credit(before, path, score))
  {
    var after := Credit(before, path, score);
    forall k | k in start
      ensures after[k].visits >= start[k].visits && after[k].totalScore >= start[k].totalScore
    {
      CreditCounts(before, path, score, k);
    }
    CreditCounts(before, path, score, path[0]);
    if AllStatsInRange(start) {
      forall k | k in after
        ensures StatsInRange(after[k])
      {
        CreditKeepsRange(before, path, score, k);
      }
    }
  }

  /** A guess recorded on the leaf and a new unvisited node keep every statistic. */
  lemma GuessedChildKeepsStats(nodes: map<int, NodeData>, leafId: int, text: string, id: int)
    requires leafId in nodes && id !in nodes
    ensures var leaf := nodes[leafId];
      StatsKept(nodes, nodes[leafId := leaf.(prevGuessesForward := leaf.prevGuessesForward + [text])]
                            [id := NodeData(text, [], [], 0, 0)])
  {
  }

  /** The paths of `paths` with exactly `n` nodes, in order. */
  function WithLength(paths: seq<seq<int>>, n: int): (r: seq<seq<int>>)
    ensures forall p :: p in r <==> p in paths && |p| == n
  {
    if |paths| == 0 then []
    else
      var rest := WithLength(paths[..|paths| - 1], n);
      var last := paths[|paths| - 1];
      assert paths == paths[..|paths| - 1] + [last];
      if |last| == n then rest + [last] else rest
  }

  /** The counting loop of `_count_paths_of_length`. */
  method CountWithLength(paths: seq<seq<int>>, n: int) returns (count: nat)
    ensures count == |WithLength(paths, n)|
  {
    count := 0;
    for i := 0 to |paths|
      invariant count == |WithLength(paths[..i], n)|
    {
      assert paths[..i + 1][..i] == paths[..i];
      if |paths[i]| == n {
        count := count + 1;
      }
    }
    assert paths[..|paths|] == paths;
  }

  /** A total that is between one and ten times the visits: every score credited was in 1..10. */
  predicate StatsInRange(n: NodeData)
  {
    n.visits <= n.totalScore <= 10 * n.visits
  }

  predicate AllStatsInRange(nodes: map<int, NodeData>)
  {
    forall k :: k in nodes ==> StatsInRange(nodes[k])
  }

  /** A node whose statistics are in range and that has been visited has an average in [1, 10]. */
  lemma AverageInRange(n: NodeData)
    requires StatsInRange(n)
    ensures n.visits > 0 ==> 1.0 <= Average(n) <= 10.0
    ensures 0.0 <= Average(n) <= 10.0
  {
    if n.visits > 0 {
      QuotientBounds(n.totalScore as real, n.visits as real);
    }
  }

  lemma QuotientBounds(t: real, v: real)
    requires 0.0 < v && v <= t <= 10.0 * v
    ensures 1.0 <= t / v <= 10.0
  {
    var q := t / v;
    assert (q - 1.0) * v == t - v;
    assert (10.0 - q) * v == 10.0 * v - t;
  }

  /** Crediting scores in 1..10 keeps a node's statistics in range. */
  lemma CreditKeepsRange(nodes: map<int, NodeData>, path: seq<int>, score: int, k: int)
    requires k in nodes && StatsInRange(nodes[k]) && 1 <= score <= 10
    ensures StatsInRange(Credit(nodes, path, score)[k])
  {
    CreditCounts(nodes, path, score, k);
    MultiplyBounds(multiset(path)[k], score);
  }

  lemma MultiplyBounds(m: nat, score: int)
    requires 1 <= score <= 10
    ensures m <= m * score <= 10 * m
  {
  }

  /**
   * When every node on a path has its statistics in range, the path score
   * lies in [0, 10]: what `get_top_path` compares.
   */
  lemma PathScoreInRange(g: EventGraph, path: seq<int>)
    requires forall i :: 0 <= i < |path| ==> path[i] in g.nodes && StatsInRange(g.nodes[path[i]])
    ensures 0.0 <= g.PathScore(path) <= 10.0
  {
    var avgs := g.Averages(path);
    forall i | 0 <= i < |path|
      ensures 0.0 <= avgs[i] <= 10.0
    {
      AverageInRange(g.nodes[path[i]]);
    }
    if |path| > 0 {
      Ranking.MeanBounds(avgs, 0.0, 10.0);
    }
  }

  /** Along an edge path ids grow, so a path of two or more nodes ends above where it starts. */
  lemma {:induction false} EdgePathClimbs(g: EventGraph, p: seq<int>)
    requires g.Valid() && |p| >= 2 && IsEdgePath(g.edges, p)
    ensures p[0] < p[|p| - 1]
  {
    var n := |p|;
    assert HasEdge(g.edges, p[n - 2], p[n - 1]);
    if n > 2 {
      EdgePathPrefix(g.edges, p);
      EdgePathClimbs(g, p[..n - 1]);
    }
  }

  lemma EdgePathPrefix(edges: seq<Edge>, p: seq<int>)
    requires |p| >= 1 && IsEdgePath(edges, p)
    ensures IsEdgePath(edges, p[..|p| - 1])
  {
    var q := p[..|p| - 1];
    forall i | 0 <= i < |q| - 1
      ensures HasEdge(edges, q[i], q[i + 1])
    {
      assert q[i] == p[i] && q[i + 1] == p[i + 1];
    }
  }

  /**
   * No two edges enter the same node, so an edge path is determined by its
   * ends: it is the one `PathFrom` finds.
   */
  lemma {:induction false} OnlyEdgePath(g: EventGraph, p: seq<int>)
    requires g.Valid() && |p| >= 1 && p[|p| - 1] in g.nodes && IsEdgePath(g.edges, p)
    ensures g.PathFrom(p[0], p[|p| - 1]) == Some(p)
  {
    var n := |p|;
    if n == 1 {
      assert p == [p[0]];
    } else {
      var k := p[n - 1];
      EdgePathClimbs(g, p);
      assert HasEdge(g.edges, p[n - 2], k);
      ParentFacts(g, k);
      assert p[n - 2] in g.Parents(k);
      assert g.Parents(k) == [p[n - 2]];
      var q := p[..n - 1];
      EdgePathPrefix(g.edges, p);
      OnlyEdgePath(g, q);
      assert q[0] == p[0] && q[|q| - 1] == p[n - 2];
      assert q + [k] == p;
    }
  }

  /** Every leaf path whose end is among `ks` is found by the enumeration over `ks`. */
  lemma {:induction false} LeafPathsAmongComplete(g: EventGraph, root: int, ks: seq<int>, p: seq<int>)
    requires g.Valid() && forall i :: 0 <= i < |ks| ==> ks[i] in g.nodes
    requires g.IsLeafPath(root, p) && p[|p| - 1] in ks
    ensures p in g.LeafPathsAmong(root, ks)
  {
    var init := ks[..|ks| - 1];
    var k := ks[|ks| - 1];
    var rest := g.LeafPathsAmong(root, init);
    assert ks == init + [k];
    if p[|p| - 1] in init {
      LeafPathsAmongComplete(g, root, init, p);
      assert p in rest;
    } else {
      assert p[|p| - 1] == k;
      EdgePathClimbs(g, p);
      OnlyEdgePath(g, p);
      assert g.LeafPathsAmong(root, ks) == rest + [p];
    }
  }

  /** A selected path climbs strictly from its start, so its start occurs on it once. */
  lemma SelectedPathRisesFromRoot(g: EventGraph, path: seq<int>, maxChildren: int, ucb: Mcts.Ucb)
    requires g.Valid() && |path| >= 1
    requires forall i :: 0 <= i < |path| ==> path[i] in g.nodes
    requires forall i :: 0 <= i < |path| - 1 ==> g.Descends(path[i], path[i + 1], maxChildren, ucb)
    ensures multiset(path)[path[0]] == 1
  {
    forall j | 0 < j < |path|
      ensures path[0] < path[j]
    {
      RisesTo(g, path, maxChildren, ucb, j);
    }
    assert path == [path[0]] + path[1..];
    assert path[0] !in path[1..];
  }

  lemma {:induction false} RisesTo(g: EventGraph, path: seq<int>, maxChildren: int, ucb: Mcts.Ucb, j: nat)
    requires g.Valid() && 0 < j < |path|
    requires forall i :: 0 <= i < |path| ==> path[i] in g.nodes
    requires forall i :: 0 <= i < |path| - 1 ==> g.Descends(path[i], path[i + 1], maxChildren, ucb)
    ensures path[0] < path[j]
  {
    assert g.Descends(path[j - 1], path[j], maxChildren, ucb);
    ChildFacts(g, path[j - 1]);
    if j > 1 {
      RisesTo(g, path, maxChildren, ucb, j - 1);
    }
  }

  /**
   * What a rollout did: the texts it kept, how many calls had been made when
   * it ended (counting from the first step), and whether the last one raised.
   */
  datatype RolloutRun = RolloutRun(events: seq<string>, attempts: nat, threw: bool)

  /**
   * The prompt of a rollout step. The temporary node has no parents, so its
   * chain is the last text alone, whatever came before it.
   */
  function RolloutPrompt(lastText: string): string
  {
    ContextSection([lastText]) + FinalLine
  }

  /** What a rollout step keeps of a reply: the stripped text, or the exception. */
  function StepReply(reply: Outcome<string>): Outcome<string>
  {
    match reply
    case Thrown => Thrown
    case Ok(text) => Ok(Text.Strip(text))
  }

  /** `next` gives, for each text, the stripped reply to the rollout step from it. */
  ghost predicate StepsOf(next: string -> Outcome<string>, call: string -> Outcome<string>)
  {
    forall t {:trigger call(RolloutPrompt(t))} :: next(t) == StepReply(call(RolloutPrompt(t)))
  }

  /** The stripped reply to a rollout step from each text. */
  function FreshReplies(call: string -> Outcome<string>): string -> Outcome<string>
  {
    t => StepReply(call(RolloutPrompt(t)))
  }

  /** The rollout prompt is `generate_next_event`'s prompt for a node with no parents and no guesses. */
  lemma RolloutPromptIsNextPrompt(lastText: string)
    ensures RolloutPrompt(lastText) == NextPrompt([lastText], [], false, "", "")
  {
    EnginePrompt([lastText], []);
    assert ContextSection([lastText]) + "" == ContextSection([lastText]);
  }

  /**
   * The rollout from `chain` at step `step` of `rolloutDepth`, where `next`
   * gives the (stripped) reply to a step from a text: it ends when the steps
   * run out or the chain is empty; otherwise one call, which raises, gives a
   * blank text (the end), or gives a text that is kept before the rollout
   * goes on from the longer chain.
   */
  function Rollout(chain: seq<string>, step: nat, rolloutDepth: int, next: string -> Outcome<string>): (r: RolloutRun)
    decreases rolloutDepth - step
  {
    if step >= rolloutDepth || |chain| == 0 then RolloutRun([], step, false)
    else
      match next(chain[|chain| - 1])
      case Thrown => RolloutRun([], step + 1, true)
      case Ok(t) =>
        if t == "" then RolloutRun([], step + 1, false)
        else Before([t], Rollout(chain + [t], step + 1, rolloutDepth, next))
  }

  /** A run preceded by texts kept earlier. */
  function Before(events: seq<string>, r: RolloutRun): RolloutRun
  {
    r.(events := events + r.events)
  }

  lemma BeforeNothing(r: RolloutRun)
    ensures Before([], r) == r
  {
    assert [] + r.events == r.events;
  }

  lemma BeforeTwice(a: seq<string>, b: seq<string>, r: RolloutRun)
    ensures Before(a, Before(b, r)) == Before(a + b, r)
  {
    assert a + (b + r.events) == (a + b) + r.events;
  }

  /**
   * How much a rollout does: one call per step taken, at most one per step
   * left; every step but a raising or blank last one keeps a text; no call
   * at all exactly when no step is left or the chain is empty.
   */
  lemma {:induction false} RolloutCounts(chain: seq<string>, step: nat, rolloutDepth: int,
                                         next: string -> Outcome<string>)
    ensures var r := Rollout(chain, step, rolloutDepth, next);
      && step <= r.attempts <= (if step < rolloutDepth then rolloutDepth else step)
      && (r.attempts == step <==> step >= rolloutDepth || |chain| == 0)
      && (r.threw ==> |r.events| + 1 == r.attempts - step)
      && (!r.threw ==> |r.events| <= r.attempts - step <= |r.events| + 1)
    decreases rolloutDepth - step
  {
    if step < rolloutDepth && |chain| > 0 {
      var reply := next(chain[|chain| - 1]);
      if reply.Ok? && reply.value != "" {
        RolloutCounts(chain + [reply.value], step + 1, rolloutDepth, next);
      }
    }
  }

  /**
   * `events` are the texts the first `|events|` steps of a rollout from
   * `chain` keep: each is the non-blank reply to a step from the text
   * before it.
   */
  ghost predicate Kept(chain: seq<string>, events: seq<string>, next: string -> Outcome<string>)
    decreases |events|
  {
    if |events| == 0 then true
    else
      var before := chain + events[..|events| - 1];
      && Kept(chain, events[..|events| - 1], next)
      && |before| > 0 && next(before[|before| - 1]) == Ok(events[|events| - 1])
      && events[|events| - 1] != ""
  }

  /** After texts it kept, a rollout goes on from the longer chain. */
  lemma {:induction false} KeptRollout(chain: seq<string>, events: seq<string>, rolloutDepth: int,
                                       next: string -> Outcome<string>)
    requires Kept(chain, events, next) && (|events| == 0 || |events| <= rolloutDepth)
    ensures Rollout(chain, 0, rolloutDepth, next) == Before(events, Rollout(chain + events, |events|, rolloutDepth, next))
    decreases |events|
  {
    if |events| == 0 {
      assert chain + events == chain;
      BeforeNothing(Rollout(chain, 0, rolloutDepth, next));
    } else {
      var init := events[..|events| - 1];
      var t := events[|events| - 1];
      KeptRollout(chain, init, rolloutDepth, next);
      assert (chain + init) + [t] == chain + events;
      var rest := Rollout(chain + events, |events|, rolloutDepth, next);
      assert Rollout(chain + init, |init|, rolloutDepth, next) == Before([t], rest);
      BeforeTwice(init, [t], rest);
      assert init + [t] == events;
    }
  }

  /**
   * A rollout depends on its starting chain only through the last text: two
   * chains that end alike roll out alike.
   */
  lemma {:induction false} RolloutSeesLastTextOnly(a: seq<string>, b: seq<string>, step: nat, rolloutDepth: int,
                                                   next: string -> Outcome<string>)
    requires |a| > 0 && |b| > 0 && a[|a| - 1] == b[|b| - 1]
    ensures Rollout(a, step, rolloutDepth, next) == Rollout(b, step, rolloutDepth, next)
    decreases rolloutDepth - step
  {
    if step < rolloutDepth {
      var reply := next(a[|a| - 1]);
      if reply.Ok? && reply.value != "" {
        var t := reply.value;
        RolloutSeesLastTextOnly(a + [t], b + [t], step + 1, rolloutDepth, next);
      }
    }
  }

  /** Every text is stripped and not blank. */
  ghost predicate StrippedTexts(texts: seq<string>)
  {
    forall i :: 0 <= i < |texts| ==> texts[i] != "" && Text.Strip(texts[i]) == texts[i]
  }

  /** Every text a rollout of the model's replies keeps is stripped and not blank. */
  lemma {:induction false} RolloutKeepsStrippedText(chain: seq<string>, step: nat, rolloutDepth: int,
                                                    call: string -> Outcome<string>)
    ensures StrippedTexts(Rollout(chain, step, rolloutDepth, FreshReplies(call)).events)
    decreases rolloutDepth - step
  {
    var next := FreshReplies(call);
    if step < rolloutDepth && |chain| > 0 {
      var reply := call(RolloutPrompt(chain[|chain| - 1]));
      assert next(chain[|chain| - 1]) == StepReply(reply);
      if reply.Ok? && Text.Strip(reply.value) != "" {
        var t := Text.Strip(reply.value);
        StripIdempotent(reply.value);
        RolloutKeepsStrippedText(chain + [t], step + 1, rolloutDepth, call);
        var rest := Rollout(chain + [t], step + 1, rolloutDepth, next);
        var r := Rollout(chain, step, rolloutDepth, next);
        assert r.events == [t] + rest.events;
        assert StrippedTexts(rest.events);
        forall i | 0 <= i < |r.events|
          ensures r.events[i] != "" && Text.Strip(r.events[i]) == r.events[i]
        {
          if i > 0 {
            assert r.events[i] == rest.events[i - 1];
          }
        }
      }
    }
  }

  lemma StripIdempotent(s: string)
    ensures Text.Strip(Text.Strip(s)) == Text.Strip(s)
  {
    Text.StripIsTrimmedSlice(s);
    Text.StripIsTrimmedSlice(Text.Strip(s));
  }

  /** One more visit and `score` more in total. */
  function Bump(n: NodeData, score: int): NodeData
  {
    n.(visits := n.visits + 1, totalScore := n.totalScore + score)
  }

  /**
   * The node data after crediting every node of `path`, in order (a key
   * that is not a node, which `_backpropagate` never meets, is passed over).
   */
  function Credit(nodes: map<int, NodeData>, path: seq<int>, score: int): (r: map<int, NodeData>)
    ensures r.Keys == nodes.Keys
  {
    if |path| == 0 then nodes
    else
      var before := Credit(nodes, path[..|path| - 1], score);
      var k := path[|path| - 1];
      if k in before then before[k := Bump(before[k], score)] else before
  }

  /** Crediting one more entry of the path. */
  lemma CreditStep(nodes: map<int, NodeData>, path: seq<int>, i: int, score: int)
    requires 0 <= i < |path| && path[i] in nodes
    ensures var before := Credit(nodes, path[..i], score);
      Credit(nodes, path[..i + 1], score) == before[path[i] := Bump(before[path[i]], score)]
  {
    assert path[..i + 1][..i] == path[..i];
  }

  /**
   * Crediting a path gives every node one visit and `score` per occurrence
   * on the path, and changes nothing else about it.
   */
  lemma {:induction false} CreditCounts(nodes: map<int, NodeData>, path: seq<int>, score: int, k: int)
    requires k in nodes
    ensures Credit(nodes, path, score)[k].visits == nodes[k].visits + multiset(path)[k]
    ensures Credit(nodes, path, score)[k].totalScore == nodes[k].totalScore + multiset(path)[k] * score
    ensures Credit(nodes, path, score)[k].(visits := nodes[k].visits, totalScore := nodes[k].totalScore) == nodes[k]
  {
    if |path| > 0 {
      var init := path[..|path| - 1];
      var last := path[|path| - 1];
      CreditCounts(nodes, init, score, k);
      var prev := Credit(nodes, init, score);
      assert Credit(nodes, path, score)[k]
        == if last == k then Bump(prev[k], score) else prev[k];
      assert path == init + [last];
      var before := multiset(init)[k];
      if last == k {
        assert multiset(path)[k] == before + 1;
        assert (before + 1) * score == before * score + score;
      } else {
        assert multiset(path)[k] == before;
      }
    }
  }

  /** `avg + C * sqrt(log(parent + 1) / (visits + 1e-6))` for each of `cs`, as the parameter `ucb`. */
  function ValuesOf(nodes: map<int, NodeData>, cs: seq<int>, parentVisits: nat, ucb: Mcts.Ucb)
    : (vs: seq<Option<real>>)
    requires forall i :: 0 <= i < |cs| ==> cs[i] in nodes
    ensures |vs| == |cs|
    ensures forall i :: 0 <= i < |cs| ==>
      vs[i] == Some(ucb(Average(nodes[cs[i]]), parentVisits, nodes[cs[i]].visits))
  {
    if |cs| == 0 then []
    else
      ValuesOf(nodes, cs[..|cs| - 1], parentVisits, ucb)
        + [Some(ucb(Average(nodes[cs[|cs| - 1]]), parentVisits, nodes[cs[|cs| - 1]].visits))]
  }

  /** Appending an edge into a node no edge enters keeps every node entered at most once. */
  lemma AppendEntry(edges: seq<Edge>, e: Edge)
    requires SingleEntry(edges) && forall x :: x in edges ==> x.to != e.to
    ensures SingleEntry(edges + [e])
  {
    var all := edges + [e];
    forall i, j | 0 <= i < j < |all|
      ensures all[i].to != all[j].to
    {
      assert all[i] == edges[i];
      if j < |edges| {
        assert all[j] == edges[j];
      }
    }
  }

  /** The `+=` sequence of `generate_next_event`: one append per present section. */
  method BuildNextPrompt(chainTexts: seq<string>, guesses: seq<string>, includeEntityGraph: bool,
                         entitiesDescription: string, userPrompt: string)
    returns (prompt: string)
    ensures prompt == NextPrompt(chainTexts, guesses, includeEntityGraph, entitiesDescription, userPrompt)
  {
    prompt := ContextSection(chainTexts);
    if includeEntityGraph && Text.Strip(entitiesDescription) != "" {
      prompt := prompt + EntitySection(includeEntityGraph, entitiesDescription);
    } else {
      assert prompt + EntitySection(includeEntityGraph, entitiesDescription) == prompt;
    }
    if Text.Strip(userPrompt) != "" {
      prompt := prompt + UserSection(userPrompt);
    } else {
      assert prompt + UserSection(userPrompt) == prompt;
    }
    if |guesses| > 0 {
      var lines := AppendGuessLines(GuessesHeader, guesses);
      prompt := prompt + (lines + DivergeLine);
    } else {
      assert prompt + GuessesSection(guesses) == prompt;
    }
    prompt := prompt + FinalLine;
  }

  /** The `for pg in prev_guesses_forward: prompt += f"- {pg}\n"` loop. */
  method AppendGuessLines(start: string, guesses: seq<string>) returns (text: string)
    ensures text == start + GuessLines(guesses)
  {
    text := start;
    for i := 0 to |guesses|
      invariant text == start + GuessLines(guesses[..i])
    {
      assert guesses[..i + 1][..i] == guesses[..i];
      text := text + "- " + guesses[i] + "\n";
    }
    assert guesses[..|guesses|] == guesses;
  }

  /** A node's parents are at most one, existing, with a smaller id. */
  lemma ParentFacts(g: EventGraph, k: int)
    requires g.Valid()
    ensures |g.Parents(k)| <= 1
    ensures forall p :: p in g.Parents(k) ==> p in g.nodes && p < k
  {
    AtMostOneParent(g.edges, k);
  }

  /** One climbing step of `gather_chain_in_chronological_order`: `current` moves from the climb to the gathered part. */
  lemma ClimbStep(g: EventGraph, k: int, current: int, up: seq<int>)
    requires g.Valid() && k in g.nodes && current in g.nodes
    requires g.Ancestry(k) == g.Ancestry(current) + EventsDiagram.Reversed(up)
    ensures |g.Parents(current)| > 0 ==> g.Parents(current)[0] in g.nodes && g.Parents(current)[0] < current
    ensures g.Ancestry(k) == (if |g.Parents(current)| == 0 then [] else g.Ancestry(g.Parents(current)[0]))
                             + EventsDiagram.Reversed(up + [current])
  {
    ParentFacts(g, current);
    EventsDiagram.ReversedAppend(up, current);
    var ps := g.Parents(current);
    if |ps| > 0 {
      assert ps[0] in ps;
      assert g.Ancestry(current) == g.Ancestry(ps[0]) + [current];
      ConcatAssoc(g.Ancestry(ps[0]), [current], EventsDiagram.Reversed(up));
    }
  }

  lemma InitLast<T>(s: seq<T>)
    requires |s| >= 1
    ensures s[..|s| - 1] + [s[|s| - 1]] == s
  {
  }

  lemma ConcatAssoc<T>(a: seq<T>, b: seq<T>, c: seq<T>)
    ensures (a + b) + c == a + (b + c)
  {
  }

  /** One climbing step of the gathering loop of `_simulate`, in terms of `RecentChain`. */
  lemma ClimbRecent(g: EventGraph, k: int, steps: int, tail: seq<string>)
    requires g.Valid() && k in g.nodes && steps > 0 && |g.Parents(k)| > 0
    ensures g.Parents(k)[0] in g.nodes
    ensures g.RecentChain(k, steps) + tail == g.RecentChain(g.Parents(k)[0], steps - 1) + ([g.nodes[k].text] + tail)
  {
    ParentFacts(g, k);
    var ps := g.Parents(k);
    assert ps[0] in ps;
    assert ps[0] in g.nodes && ps[0] < k;
  }

  /** `generate_next_event`'s prompt for a node no edge enters and without guesses is the rollout prompt. */
  lemma FreshPrompt(g: EventGraph, id: int, before: map<int, NodeData>)
    requires g.Valid() && id in g.nodes && id !in before && g.nodes[id].prevGuessesForward == []
    requires forall e :: e in g.edges ==> e.to in before
    ensures NextPrompt(g.Texts(g.Ancestry(id)), g.nodes[id].prevGuessesForward, false, "", "")
            == RolloutPrompt(g.nodes[id].text)
  {
    FreshNodeStandsAlone(g, id, before);
    RolloutPromptIsNextPrompt(g.nodes[id].text);
  }

  /** A node no edge enters is its own chain. */
  lemma FreshNodeStandsAlone(g: EventGraph, id: int, before: map<int, NodeData>)
    requires g.Valid() && id in g.nodes && id !in before
    requires forall e :: e in g.edges ==> e.to in before
    ensures g.Texts(g.Ancestry(id)) == [g.nodes[id].text]
  {
    NoParentsYet(g, id, before);
    assert g.Ancestry(id) == [id];
  }

  /** No edge enters a node added after every edge's target. */
  lemma NoParentsYet(g: EventGraph, id: int, before: map<int, NodeData>)
    requires id !in before
    requires forall e :: e in g.edges ==> e.to in before
    ensures g.Parents(id) == []
  {
  }

  lemma AppendExtends(edges: seq<Edge>, e: Edge)
    ensures EdgesExtend(edges, edges + [e])
  {
    assert (edges + [e])[..|edges|] == edges;
  }

  /** A node's children exist and have larger ids. */
  lemma ChildFacts(g: EventGraph, k: int)
    requires g.Valid()
    ensures forall c :: c in g.Children(k) ==> c in g.nodes && k < c
    ensures forall i :: 0 <= i < |g.Children(k)| ==> g.Children(k)[i] in g.nodes && k < g.Children(k)[i]
  {
    forall i | 0 <= i < |g.Children(k)|
      ensures g.Children(k)[i] in g.Children(k)
    {
    }
  }

  /** Appending an edge adds its target to its source's successors and nothing else. */
  lemma {:induction false} SuccessorsAppend(edges: seq<Edge>, e: Edge, k: int)
    ensures Successors(edges + [e], k) == Successors(edges, k) + (if e.from == k then [e.to] else [])
  {
    if |edges| == 0 {
      assert (edges + [e])[1..] == [];
    } else {
      assert (edges + [e])[1..] == edges[1..] + [e];
      SuccessorsAppend(edges[1..], e, k);
    }
  }

  /** Appending an edge adds its source to its target's predecessors and nothing else. */
  lemma {:induction false} PredecessorsAppend(edges: seq<Edge>, e: Edge, k: int)
    ensures Predecessors(edges + [e], k) == Predecessors(edges, k) + (if e.to == k then [e.from] else [])
  {
    if |edges| == 0 {
      assert (edges + [e])[1..] == [];
    } else {
      assert (edges + [e])[1..] == edges[1..] + [e];
      PredecessorsAppend(edges[1..], e, k);
    }
  }

  /** `chain` climbs by single parents from `chain[0]`, which has none. */
  predicate ChainOver(nodes: map<int, NodeData>, edges: seq<Edge>, chain: seq<int>)
  {
    && |chain| >= 1
    && (forall i :: 0 <= i < |chain| ==> chain[i] in nodes)
    && |Predecessors(edges, chain[0])| == 0
    && (forall i :: 0 <= i < |chain| - 1 ==> Predecessors(edges, chain[i + 1]) == [chain[i]])
  }

  predicate ParentChain(g: EventGraph, chain: seq<int>)
    reads g
  {
    ChainOver(g.nodes, g.edges, chain)
  }

  /** A chain stays one while its nodes stay and their parents do not change. */
  lemma ChainOverKept(nodes: map<int, NodeData>, edges: seq<Edge>, nodes': map<int, NodeData>, edges': seq<Edge>,
                      chain: seq<int>)
    requires ChainOver(nodes, edges, chain)
    requires nodes.Keys <= nodes'.Keys
    requires forall x :: x in nodes ==> Predecessors(edges', x) == Predecessors(edges, x)
    ensures ChainOver(nodes', edges', chain)
  {
    forall i | 0 <= i < |chain|
      ensures chain[i] in nodes && Predecessors(edges', chain[i]) == Predecessors(edges, chain[i])
    {
    }
  }

  /** Such a chain is what `gather_chain_in_chronological_order` returns for its last node. */
  lemma {:induction false} AncestryUnique(g: EventGraph, chain: seq<int>)
    requires g.Valid() && ParentChain(g, chain)
    ensures g.Ancestry(chain[|chain| - 1]) == chain
  {
    if |chain| > 1 {
      var init := chain[..|chain| - 1];
      var last, prev := chain[|chain| - 1], chain[|chain| - 2];
      assert ParentChain(g, init);
      AncestryUnique(g, init);
      assert g.Parents(last) == [prev];
      assert g.Ancestry(last) == g.Ancestry(prev) + [last];
      InitLast(chain);
    }
  }

  /** A node no edge leaves has no successors. */
  lemma {:induction false} NoSuccessors(edges: seq<Edge>, k: int)
    requires forall e :: e in edges ==> e.from != k
    ensures Successors(edges, k) == []
  {
    if |edges| > 0 {
      assert forall e :: e in edges[1..] ==> e in edges;
      NoSuccessors(edges[1..], k);
    }
  }
}
