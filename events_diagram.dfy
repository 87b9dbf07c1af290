/**
 * The events diagram's GoJS model (src/components/events/EventsDiagramWrapper.tsx):
 * node data keyed by integer keys, link data in insertion order, the two key
 * functions, the tree-parent walk, and the forward and backward insertions a
 * user triggers from a node's buttons.
 *
 * Acyclicity of the links among existing nodes is carried as a ghost grading
 * `depth`: every link between two existing nodes goes from a smaller depth to
 * a larger one, so every walk along links (down to children or up to tree
 * parents) terminates.
 */
module EventsDiagram {
  import opened Wrappers
  import KeyAlloc
  import Utils

  /** Where the node key function starts counting up when no key is supplied. */
  const FirstNodeKey: int := 1000
  /** Where the link key function starts counting down when no key is supplied. */
  const FirstLinkKey: int := -1000
  const LeadsTo: string := "leads to"

  /** `mcts: { visits, totalScore }` on a node. */
  datatype MctsStats = MctsStats(visits: nat, totalScore: int)

  /** A node's data object; `None` marks a property the object does not have. */
  datatype EventNode = EventNode(
    text: string,
    eventSeverity: seq<int>,
    loc: Option<string>,
    parent: Option<int>,
    child: Option<int>,
    prevGuessesForward: Option<seq<string>>,
    prevGuessesBackward: Option<seq<string>>,
    mcts: Option<MctsStats>)

  /** A link's data object; a `probability` of None is JavaScript's NaN. */
  datatype LinkData = LinkData(key: int, from: int, to: int, text: string, probability: Option<real>)

  predicate IsLink(links: seq<LinkData>, a: int, b: int)
  {
    exists l :: l in links && l.from == a && l.to == b
  }

  function LinkKeys(links: seq<LinkData>): set<int>
  {
    set l | l in links :: l.key
  }

  /** `getChildren`: the `to` of every link whose `from` is `k`, in link order. */
  function ChildrenIn(links: seq<LinkData>, k: int): (r: seq<int>)
    ensures |r| <= |links|
    ensures forall c :: c in r <==> IsLink(links, k, c)
  {
    if |links| == 0 then []
    else
      var rest := ChildrenIn(links[1..], k);
      assert forall c :: IsLink(links, k, c) <==>
        (links[0].from == k && links[0].to == c) || IsLink(links[1..], k, c) by {
        forall c ensures IsLink(links, k, c) ==>
          (links[0].from == k && links[0].to == c) || IsLink(links[1..], k, c) {
          if IsLink(links, k, c) {
            var l :| l in links && l.from == k && l.to == c;
            if l != links[0] {
              assert l in links[1..];
            }
          }
        }
      }
      if links[0].from == k then [links[0].to] + rest else rest
  }

  /**
   * The positions, from `start` on, of the links that leave `k`: each such
   * position once, in increasing order.
   */
  function OutLinkPositions(links: seq<LinkData>, k: int, start: nat): (r: seq<nat>)
    requires start <= |links|
    ensures forall i :: 0 <= i < |r| ==> start <= r[i] < |links| && links[r[i]].from == k
    ensures forall i, j :: 0 <= i < j < |r| ==> r[i] < r[j]
    ensures forall p :: start <= p < |links| && links[p].from == k ==> p in r
    decreases |links| - start
  {
    if start == |links| then []
    else
      var rest := OutLinkPositions(links, k, start + 1);
      if links[start].from == k then [start] + rest else rest
  }

  /**
   * `getChildren` keeps link order and multiplicity: the i-th child found
   * from `start` on is the target of the i-th link leaving `k` from there
   * (with `start` 0, of all the links).
   */
  lemma {:induction false} ChildrenInLinkOrder(links: seq<LinkData>, k: int, start: nat)
    requires start <= |links|
    ensures var r, pos := ChildrenIn(links[start..], k), OutLinkPositions(links, k, start);
      |r| == |pos| && forall i :: 0 <= i < |r| ==> r[i] == links[pos[i]].to
    decreases |links| - start
  {
    if start < |links| {
      ChildrenInLinkOrder(links, k, start + 1);
      var r, below := ChildrenIn(links[start..], k), ChildrenIn(links[start + 1..], k);
      var pos, rest := OutLinkPositions(links, k, start), OutLinkPositions(links, k, start + 1);
      assert links[start..][1..] == links[start + 1..];
      if links[start].from == k {
        assert r == [links[start].to] + below;
        assert pos == [start] + rest;
        forall i | 1 <= i < |r|
          ensures r[i] == links[pos[i]].to
        {
          assert r[i] == below[i - 1] && pos[i] == rest[i - 1];
        }
      } else {
        assert r == below && pos == rest;
      }
    }
  }

  /**
   * `findTreeParentNode`: the source of the first link, in link order, that
   * enters `k` from an existing node.
   */
  function TreeParentIn(links: seq<LinkData>, present: set<int>, k: int): (r: Option<int>)
    ensures r.Some? ==> r.value in present && IsLink(links, r.value, k)
  {
    if |links| == 0 then None
    else if links[0].to == k && links[0].from in present then Some(links[0].from)
    else
      var r := TreeParentIn(links[1..], present, k);
      assert r.Some? ==> IsLink(links, r.value, k) by {
        if r.Some? {
          var l :| l in links[1..] && l.from == r.value && l.to == k;
          assert l in links;
        }
      }
      r
  }

  /** `data.eventLikelihood / 5` for an array: `[x]` is x, `[]` is 0, longer arrays are NaN. */
  function ArrayOverFive(a: seq<int>): (r: Option<real>)
    ensures |a| == 1 ==> r == Some(a[0] as real / 5.0)
    ensures |a| == 0 ==> r == Some(0.0)
    ensures r.None? <==> |a| > 1
  {
    if |a| == 0 then Some(0.0) else if |a| == 1 then Some(a[0] as real / 5.0) else None
  }

  class EventsModel {
    var nodes: map<int, EventNode>
    var links: seq<LinkData>
    /** The model's `modelData`: the generator settings the insertions read. */
    var modelData: Utils.ModelData
    ghost var depth: map<int, int>

    /** Every link between existing nodes climbs the grading; gradings are bounded by the node count. */
    ghost predicate Graded()
      reads this
    {
      && (forall k :: k in nodes ==> k in depth && -|nodes| < depth[k] < |nodes|)
      && (forall l :: l in links && l.from in nodes && l.to in nodes ==> depth[l.from] < depth[l.to])
    }

    /** No link points at a node that is not in the model. */
    ghost predicate Closed()
      reads this
    {
      forall l :: l in links ==> l.from in nodes && l.to in nodes
    }

    ghost predicate Valid()
      reads this
    {
      Graded() && Closed()
    }

    /** An empty diagram with the given settings. */
    constructor (modelData: Utils.ModelData)
      ensures nodes == map[] && links == [] && this.modelData == modelData
      ensures Valid()
    {
      nodes := map[];
      links := [];
      this.modelData := modelData;
      depth := map[];
    }

    function Children(k: int): seq<int>
      reads this
    {
      ChildrenIn(links, k)
    }

    function TreeParent(k: int): Option<int>
      reads this
    {
      TreeParentIn(links, nodes.Keys, k)
    }

    /** `makeUniqueKeyFunction`: the smallest free node key at or above `data.key || 1000`, written back to `data.key`. */
    method MakeUniqueKey(data: KeyAlloc.KeyedData) returns (k: int)
      modifies data
      ensures k !in nodes && KeyAlloc.KeyOr(old(data.key), FirstNodeKey) <= k
      ensures forall j :: KeyAlloc.KeyOr(old(data.key), FirstNodeKey) <= j < k ==> j in nodes
      ensures data.key == Some(k)
    {
      k := KeyAlloc.AllocateUp(nodes.Keys, data, FirstNodeKey);
    }

    /** `makeUniqueLinkKeyFunction`: the largest free link key at or below `data.key || -1000`, written back to `data.key`. */
    method MakeUniqueLinkKey(data: KeyAlloc.KeyedData) returns (k: int)
      modifies data
      ensures k !in LinkKeys(links) && k <= KeyAlloc.KeyOr(old(data.key), FirstLinkKey)
      ensures forall j :: k < j <= KeyAlloc.KeyOr(old(data.key), FirstLinkKey) ==> j in LinkKeys(links)
      ensures data.key == Some(k)
    {
      k := KeyAlloc.AllocateDown(LinkKeys(links), data, FirstLinkKey);
    }

    /**
     * `addNodeData` with a key that is not yet used; `d` grades the new node,
     * which has no links yet.
     */
    method AddNodeData(k: int, n: EventNode, ghost d: int)
      modifies this
      requires Valid() && k !in nodes && -|nodes| <= d <= |nodes|
      ensures Valid()
      ensures nodes == old(nodes)[k := n] && links == old(links) && modelData == old(modelData)
      ensures depth == old(depth)[k := d]
    {
      nodes := nodes[k := n];
      depth := depth[k := d];
    }

    /** `addLinkData` for a link data object without a key: the link key function picks one. */
    method AddLinkData(from: int, to: int, text: string, probability: Option<real>) returns (key: int)
      modifies this
      requires Valid() && from in nodes && to in nodes && depth[from] < depth[to]
      ensures Valid()
      ensures key !in LinkKeys(old(links)) && key <= FirstLinkKey
      ensures forall j :: key < j <= FirstLinkKey ==> j in LinkKeys(old(links))
      ensures links == old(links) + [LinkData(key, from, to, text, probability)]
      ensures nodes == old(nodes) && modelData == old(modelData) && depth == old(depth)
    {
      var data := new KeyAlloc.KeyedData(None);
      key := MakeUniqueLinkKey(data);
      links := links + [LinkData(key, from, to, text, probability)];
    }

    /** `setDataProperty` on an existing node: the node's data is replaced, nothing else changes. */
    method SetNodeData(k: int, n: EventNode)
      modifies this
      requires Graded() && k in nodes
      ensures Graded() && Closed() == old(Closed())
      ensures nodes == old(nodes)[k := n] && links == old(links) && modelData == old(modelData)
      ensures depth == old(depth)
    {
      nodes := nodes[k := n];
    }

    /**
     * The texts from the top of `k`'s tree-parent chain down to `k` itself: what
     * the forward insertion collects as the story so far.
     */
    function Ancestry(k: int): (r: seq<string>)
      reads this
      requires Graded() && k in nodes
      decreases |nodes| + depth[k]
      ensures |r| >= 1 && r[|r| - 1] == nodes[k].text
      ensures |r| <= |nodes| + depth[k]
    {
      match TreeParent(k)
      case None => [nodes[k].text]
      case Some(p) =>
        LinkRaisesDepth(this, p, k);
        Ancestry(p) + [nodes[k].text]
    }

    /** The prompt the forward insertion sends for node `k`. */
    function ForwardPrompt(k: int): string
      reads this
      requires Graded() && k in nodes
    {
      Utils.NextPrompt(nodes[k].prevGuessesForward, Ancestry(k), modelData)
    }

    /**
     * `addNodeAndLink`'s walk: push each node's text while following tree
     * parents upwards, then reverse, so the list is root first.
     */
    method AncestryTexts(k: int) returns (parents: seq<string>)
      requires Graded() && k in nodes
      ensures parents == Ancestry(k)
    {
      var up: seq<string> := [];
      var current := Some(k);
      while current.Some?
        invariant current.Some? ==> current.value in nodes
        invariant Ancestry(k) == (if current.Some? then Ancestry(current.value) else []) + Reversed(up)
        decreases if current.Some? then |nodes| + depth[current.value] else -|nodes|
      {
        var c := current.value;
        ReversedAppend(up, nodes[c].text);
        up := up + [nodes[c].text];
        var p := TreeParent(c);
        if p.Some? {
          LinkRaisesDepth(this, p.value, c);
        }
        current := p;
      }
      parents := ReverseInPlace(up);
    }

    /**
     * `addNodeAndLink` on node `k`: ask for a next event with the ancestry as
     * context; if that throws nothing changes; otherwise record the text in
     * `k`'s forward guesses, add the new node at `newLoc` (a fresh key from
     * 1000 up, `parent` = `k`, empty guess lists) and a 'leads to' link from `k`
     * to it. `added` is the new node's key.
     */
    method AddNodeAndLink(k: int, generate: string -> Outcome<string>, newLoc: string)
      returns (added: Option<int>)
      modifies this
      requires Valid() && k in nodes
      ensures Valid() && modelData == old(modelData)
      ensures generate(old(ForwardPrompt(k))).Thrown? ==>
        added.None? && nodes == old(nodes) && links == old(links)
      ensures generate(old(ForwardPrompt(k))).Ok? ==>
        var text := generate(old(ForwardPrompt(k))).value;
        var ev := Utils.ShapeNextEvent(text, modelData);
        var from := old(nodes)[k];
        && added.Some? && added.value !in old(nodes) && FirstNodeKey <= added.value
        && (forall j :: FirstNodeKey <= j < added.value ==> j in old(nodes))
        && nodes == old(nodes)[k := from.(prevGuessesForward := Some(from.prevGuessesForward.GetOr([]) + [text]))]
                              [added.value := EventNode(text, ev.eventSeverity, Some(newLoc), Some(k), None,
                                                        Some([]), Some([]), None)]
        && |links| == |old(links)| + 1 && links[..|old(links)|] == old(links)
        && links[|old(links)|].from == k && links[|old(links)|].to == added.value
        && links[|old(links)|].text == LeadsTo
        && links[|old(links)|].probability == ArrayOverFive(ev.eventLikelihood)
        && links[|old(links)|].key !in LinkKeys(old(links))
    {
      var parents := AncestryTexts(k);
      var reply := Utils.GenerateNextEvent(nodes[k].prevGuessesForward, parents, modelData, generate);
      if reply.Thrown? {
        return None;
      }
      var ev := reply.value;
      var from := nodes[k];
      SetNodeData(k, from.(prevGuessesForward := Some(from.prevGuessesForward.GetOr([]) + [ev.text])));
      var data := new KeyAlloc.KeyedData(None);
      var key := MakeUniqueKey(data);
      assert nodes.Keys == old(nodes).Keys;
      AddNodeData(key, EventNode(ev.text, ev.eventSeverity, Some(newLoc), Some(k), None, Some([]), Some([]), None),
                  depth[k] + 1);
      var linkKey := AddLinkData(k, key, LeadsTo, ArrayOverFive(ev.eventLikelihood));
      added := Some(key);
    }

    /**
     * `addNodeAndLinkBackwards` on node `k`: ask for a previous event; if that
     * throws nothing changes; otherwise record the text in `k`'s backward
     * guesses, add the new node at `newLoc` with `child` = `k`, and a 'leads to'
     * link from the new node to `k`.
     */
    method AddNodeAndLinkBackwards(k: int, generate: string -> Outcome<string>, newLoc: string)
      returns (added: Option<int>)
      modifies this
      requires Valid() && k in nodes
      ensures Valid() && modelData == old(modelData)
      ensures
        var reply := Utils.GeneratePreviousEvent(old(nodes)[k].text, old(nodes)[k].prevGuessesBackward,
                                                 modelData, generate);
        && (reply.Thrown? ==> added.None? && nodes == old(nodes) && links == old(links))
        && (reply.Ok? ==>
              var from := old(nodes)[k];
              && added.Some? && added.value !in old(nodes) && FirstNodeKey <= added.value
              && (forall j :: FirstNodeKey <= j < added.value ==> j in old(nodes))
              && nodes == old(nodes)[k := from.(prevGuessesBackward := Some(from.prevGuessesBackward.value + [reply.value.text]))]
                                    [added.value := EventNode(reply.value.text, reply.value.eventSeverity, Some(newLoc),
                                                              None, Some(k), Some([]), Some([]), None)]
              && |links| == |old(links)| + 1 && links[..|old(links)|] == old(links)
              && links[|old(links)|].from == added.value && links[|old(links)|].to == k
              && links[|old(links)|].text == LeadsTo
              && links[|old(links)|].probability == ArrayOverFive(reply.value.eventLikelihood)
              && links[|old(links)|].key !in LinkKeys(old(links)))
    {
      var from := nodes[k];
      var reply := Utils.GeneratePreviousEvent(from.text, from.prevGuessesBackward, modelData, generate);
      if reply.Thrown? {
        return None;
      }
      var ev := reply.value;
      SetNodeData(k, from.(prevGuessesBackward := Some(from.prevGuessesBackward.GetOr([]) + [ev.text])));
      var data := new KeyAlloc.KeyedData(None);
      var key := MakeUniqueKey(data);
      assert nodes.Keys == old(nodes).Keys;
      AddNodeData(key, EventNode(ev.text, ev.eventSeverity, Some(newLoc), None, Some(k), Some([]), Some([]), None),
                  depth[k] - 1);
      var linkKey := AddLinkData(key, k, LeadsTo, ArrayOverFive(ev.eventLikelihood));
      added := Some(key);
    }
  }

  /** A link between two existing nodes of a graded model climbs the grading. */
  lemma LinkRaisesDepth(m: EventsModel, a: int, b: int)
    requires m.Graded() && a in m.nodes && b in m.nodes && IsLink(m.links, a, b)
    ensures m.depth[a] < m.depth[b]
  {
    var l :| l in m.links && l.from == a && l.to == b;
  }

  function Reversed<T>(s: seq<T>): (r: seq<T>)
    ensures |r| == |s|
    ensures forall i :: 0 <= i < |s| ==> r[i] == s[|s| - 1 - i]
  {
    if |s| == 0 then [] else Reversed(s[1..]) + [s[0]]
  }

  lemma ReversedAppend<T>(s: seq<T>, x: T)
    ensures Reversed(s + [x]) == [x] + Reversed(s)
  {
  }

  /** `Array.prototype.reverse`, swapping the two ends inwards. */
  method ReverseInPlace<T>(s: seq<T>) returns (r: seq<T>)
    ensures r == Reversed(s)
  {
    r := s;
    var i := 0;
    while i < |s| / 2
      invariant 0 <= i <= |s| / 2 && |r| == |s|
      invariant forall j :: 0 <= j < i ==> r[j] == s[|s| - 1 - j] && r[|s| - 1 - j] == s[j]
      invariant forall j :: i <= j < |s| - i ==> r[j] == s[j]
    {
      r := r[i := s[|s| - 1 - i]][|s| - 1 - i := s[i]];
      i := i + 1;
    }
  }

  /**
   * A node that has no backward-guess list (every node the search engine
   * creates) can never get a backward insertion: the generation step throws
   * before asking the model, so the diagram stays as it was.
   */
  lemma BackwardNeedsGuessList(text: string, md: Utils.ModelData, generate: string -> Outcome<string>)
    ensures Utils.GeneratePreviousEvent(text, None, md, generate).Thrown?
  {
  }
}
