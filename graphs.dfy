/**
 * The element graph as the graph-consuming commands see it: a snapshot
 * queried by element type and by (element, relation type). The graph
 * service that builds it is a stand-in that records each request.
 */
module Graphs {
  import opened Wrappers

  /** Identity of a CnATreeElement (its database id). */
  type ElementId = int
  type TypeId = string
  type RelationId = string

  /** An IGraphElementLoader: which element types, under which scope. */
  datatype Loader = Loader(typeIds: seq<TypeId>, scopeId: Option<int>)

  /**
   * A VeriniceGraph. Each Java Set the graph hands out is given as the
   * sequence its iterator yields, so a loop over it has a definite order;
   * since the graph is arbitrary, what is proved holds for every order.
   */
  datatype Graph = Graph(
    nodes: map<TypeId, seq<ElementId>>,
    links: map<(ElementId, RelationId), seq<ElementId>>)

  /** getElements(typeId): empty when no element has that type. */
  function GetElements(g: Graph, t: TypeId): seq<ElementId> {
    if t in g.nodes then g.nodes[t] else []
  }

  /** getLinkTargets(element, relationId): empty when there is no such link. */
  function GetLinkTargets(g: Graph, e: ElementId, r: RelationId): seq<ElementId> {
    if (e, r) in g.links then g.links[(e, r)] else []
  }

  predicate Distinct(xs: seq<ElementId>) {
    forall i, j :: 0 <= i < j < |xs| ==> xs[i] != xs[j]
  }

  /** The sequences stand for sets: none holds an element twice. */
  predicate Valid(g: Graph) {
    && (forall t :: t in g.nodes ==> Distinct(g.nodes[t]))
    && (forall k :: k in g.links ==> Distinct(g.links[k]))
  }

  /** e is among the elements of type t. */
  predicate TypedAs(g: Graph, e: ElementId, t: TypeId) {
    e in GetElements(g, t)
  }

  /** The arguments of one IGraphService.create call. */
  datatype GraphRequest =
    | Create(loaders: seq<Loader>, relationIds: Option<seq<RelationId>>)  // create(loaders, relationIds)
    | CreateWithoutLinks(loaders: seq<Loader>)                            // create(loaders, false)

  /**
   * Stand-in for IGraphService: `build` is what create returns; `requests`
   * logs the calls. The real service rebuilds from the store on every call,
   * so two equal requests need not give equal graphs; no property here
   * relies on them doing so.
   */
  class GraphService {
    const build: GraphRequest -> Graph
    var requests: seq<GraphRequest>

    constructor (build: GraphRequest -> Graph)
      ensures this.build == build && requests == []
    {
      this.build := build;
      requests := [];
    }

    method Create(req: GraphRequest) returns (g: Graph)
      modifies this
      ensures requests == old(requests) + [req]
      ensures g == build(req)
    {
      requests := requests + [req];
      g := build(req);
    }
  }
}
