/**
 * The entities diagram's model: entity nodes keyed by positive integers
 * counted up from 1, relationship links keyed by negative integers counted
 * down from -1, and a linking tool that accepts every candidate link.
 */
module EntitiesDiagram {
  import opened Wrappers
  import KeyAlloc

  /** Where the node key search starts when the data brings no key (or 0). */
  const FirstNodeKey: int := 1
  /** Where the link key search starts when the data brings no key (or 0). */
  const FirstLinkKey: int := -1

  /** The archetype of a node made by clicking the background. */
  const NewNodeText: string := "new node"
  const NewNodeColor: string := "lightblue"
  /** The archetype of a link drawn with the linking tool. */
  const NewLinkText: string := "relationship"

  datatype EntityNode = EntityNode(text: string, color: string)

  datatype EntityLink = EntityLink(key: int, from: int, to: int, text: string)

  function LinkKeys(links: seq<EntityLink>): (r: set<int>)
    ensures forall l :: l in links ==> l.key in r
    ensures forall k :: k in r ==> exists l :: l in links && l.key == k
  {
    set l | l in links :: l.key
  }

  /**
   * `linkValidation`: every candidate link is accepted, whatever its ends.
   * Parallel links can therefore be drawn, since the ports allow duplicates.
   * Self-links cannot: the ports leave GoJS's self-node linking off, so the
   * linking tool never offers one to this function.
   */
  function LinkValidation(from: int, to: int): (ok: bool)
    ensures ok
  {
    true
  }

  class EntitiesModel {
    var nodes: map<int, EntityNode>
    var links: seq<EntityLink>

    /** Link keys are unique. */
    ghost predicate Valid()
      reads this
    {
      forall i, j :: 0 <= i < j < |links| ==> links[i].key != links[j].key
    }

    constructor (nodes: map<int, EntityNode>)
      ensures Valid() && this.nodes == nodes && links == []
    {
      this.nodes := nodes;
      links := [];
    }

    /** `makeUniqueKeyFunction`: the smallest free node key at or above `data.key || 1`, written back to `data.key`. */
    method MakeUniqueKey(data: KeyAlloc.KeyedData) returns (k: int)
      modifies data
      ensures k !in nodes && KeyAlloc.KeyOr(old(data.key), FirstNodeKey) <= k
      ensures forall j :: KeyAlloc.KeyOr(old(data.key), FirstNodeKey) <= j < k ==> j in nodes
      ensures data.key == Some(k)
    {
      k := KeyAlloc.AllocateUp(nodes.Keys, data, FirstNodeKey);
    }

    /** `makeUniqueLinkKeyFunction`: the largest free link key at or below `data.key || -1`, written back to `data.key`. */
    method MakeUniqueLinkKey(data: KeyAlloc.KeyedData) returns (k: int)
      modifies data
      ensures k !in LinkKeys(links) && k <= KeyAlloc.KeyOr(old(data.key), FirstLinkKey)
      ensures forall j :: k < j <= KeyAlloc.KeyOr(old(data.key), FirstLinkKey) ==> j in LinkKeys(links)
      ensures data.key == Some(k)
    {
      k := KeyAlloc.AllocateDown(LinkKeys(links), data, FirstLinkKey);
    }

    /**
     * A click on the background: a copy of the archetype ("new node",
     * light blue), which carries no key, gets the smallest free key from 1 up.
     */
    method AddClickedNode() returns (k: int)
      modifies this
      requires Valid()
      ensures Valid()
      ensures k !in old(nodes) && 1 <= k && forall j :: 1 <= j < k ==> j in old(nodes)
      ensures nodes == old(nodes)[k := EntityNode(NewNodeText, NewNodeColor)] && links == old(links)
    {
      var data := new KeyAlloc.KeyedData(None);
      k := MakeUniqueKey(data);
      nodes := nodes[k := EntityNode(NewNodeText, NewNodeColor)];
    }

    /**
     * A link drawn between two nodes with the linking tool: `linkValidation`
     * lets it through, and a copy of the archetype ("relationship") gets the
     * largest free link key from -1 down. The tool only draws between two
     * different nodes; the method itself does not depend on that.
     */
    method AddDrawnLink(from: int, to: int) returns (added: Option<int>)
      modifies this
      requires Valid()
      ensures Valid()
      ensures added.Some?
      ensures added.value !in LinkKeys(old(links)) && added.value <= FirstLinkKey
      ensures forall j :: added.value < j <= FirstLinkKey ==> j in LinkKeys(old(links))
      ensures links == old(links) + [EntityLink(added.value, from, to, NewLinkText)] && nodes == old(nodes)
    {
      if !LinkValidation(from, to) {
        return None;
      }
      var data := new KeyAlloc.KeyedData(None);
      var k := MakeUniqueLinkKey(data);
      forall i | 0 <= i < |links|
        ensures links[i].key != k
      {
        assert links[i] in links;
      }
      links := links + [EntityLink(k, from, to, NewLinkText)];
      added := Some(k);
    }
  }
}
