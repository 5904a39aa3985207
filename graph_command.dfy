/**
 * The graph-command base (sernet.verinice.interfaces.GraphCommand): it
 * collects element loaders and relation ids, and its execute first builds
 * the graph and only then runs the subclass hook executeWithGraph.
 */
module GraphCommands {
  import opened Wrappers
  import opened Graphs

  /** The two phases of execute, recorded so that their order can be stated. */
  datatype Phase = GraphBuilt(request: GraphRequest) | HookRan(graph: Option<Graph>)

  /**
   * The create call initGraph makes: with links, a null relation filter when
   * the id list is null or empty and otherwise the ids in list order;
   * without links, the node-only variant.
   */
  function GraphRequestFor(loadLinks: bool, loaders: seq<Loader>, relationIdList: Option<seq<RelationId>>): (r: GraphRequest)
    ensures r.loaders == loaders
    ensures r.Create? <==> loadLinks
    ensures r.Create? ==> (r.relationIds.None? <==> (relationIdList.None? || relationIdList.value == []))
    ensures r.Create? && r.relationIds.Some? ==> r.relationIds == relationIdList
  {
    if loadLinks then
      var relationIds := if relationIdList.Some? && relationIdList.value != [] then relationIdList else None;
      Create(loaders, relationIds)
    else
      CreateWithoutLinks(loaders)
  }

  class GraphCommand {
    var graph: Option<Graph>
    var elementLoaderList: Option<seq<Loader>>
    var loadLinks: bool
    var relationIdList: Option<seq<RelationId>>
    var graphService: GraphService?
    ghost var phases: seq<Phase>

    /** The loaders getLoader would return: the list, or a new empty one when it is null. */
    function Loaders(): seq<Loader>
      reads this
    {
      if elementLoaderList.Some? then elementLoaderList.value else []
    }

    /** The relation ids getRelationIds would return. */
    function RelationIds(): seq<RelationId>
      reads this
    {
      if relationIdList.Some? then relationIdList.value else []
    }

    constructor ()
      ensures loadLinks
      ensures graph == None && elementLoaderList == None && relationIdList == None
      ensures graphService == null && phases == []
    {
      graph := None;
      elementLoaderList := None;
      loadLinks := true;
      relationIdList := None;
      graphService := null;
      phases := [];
    }

    method Execute()
      requires graphService != null
      modifies this, graphService
      ensures var req := GraphRequestFor(old(loadLinks), old(Loaders()), old(relationIdList));
        && graphService == old(graphService)
        && graphService.requests == old(graphService.requests) + [req]
        && graph == Some(graphService.build(req))
        && phases == old(phases) + [GraphBuilt(req), HookRan(graph)]
      ensures elementLoaderList == Some(old(Loaders()))
      ensures loadLinks == old(loadLinks) && relationIdList == old(relationIdList)
    {
      InitGraph();
      ExecuteWithGraph();
    }

    /** The hook subclasses override; the base does nothing. */
    method ExecuteWithGraph()
      modifies this`phases
      ensures phases == old(phases) + [HookRan(graph)]
    {
      phases := phases + [HookRan(graph)];
    }

    method InitGraph()
      requires graphService != null
      modifies this, graphService
      ensures var req := GraphRequestFor(old(loadLinks), old(Loaders()), old(relationIdList));
        && graphService == old(graphService)
        && graphService.requests == old(graphService.requests) + [req]
        && graph == Some(graphService.build(req))
        && phases == old(phases) + [GraphBuilt(req)]
      ensures elementLoaderList == Some(old(Loaders()))
      ensures loadLinks == old(loadLinks) && relationIdList == old(relationIdList)
    {
      var g: Graph;
      var req: GraphRequest;
      if loadLinks {
        var relationIds: Option<seq<RelationId>> := None;
        if relationIdList.Some? && relationIdList.value != [] {
          relationIds := Some(relationIdList.value);
        }
        var loaders := GetLoader();
        req := Create(loaders, relationIds);
      } else {
        var loaders := GetLoader();
        req := CreateWithoutLinks(loaders);
      }
      g := graphService.Create(req);
      graph := Some(g);
      phases := phases + [GraphBuilt(req)];
    }

    /** Lazily creates the loader list and keeps returning it. */
    method GetLoader() returns (l: seq<Loader>)
      modifies this`elementLoaderList
      ensures l == old(Loaders())
      ensures elementLoaderList == Some(l)
    {
      if elementLoaderList.None? {
        elementLoaderList := Some([]);
      }
      l := elementLoaderList.value;
    }

    method SetLoader(loader: Option<seq<Loader>>)
      modifies this`elementLoaderList
      ensures elementLoaderList == loader
    {
      elementLoaderList := loader;
    }

    method AddLoader(loader: Loader)
      modifies this`elementLoaderList
      ensures elementLoaderList == Some(old(Loaders()) + [loader])
    {
      var l := GetLoader();
      elementLoaderList := Some(l + [loader]);
    }

    method SetLoadLinks(loadLinks: bool)
      modifies this`loadLinks
      ensures this.loadLinks == loadLinks
    {
      this.loadLinks := loadLinks;
    }

    /** Lazily creates the relation-id list and keeps returning it. */
    method GetRelationIds() returns (ids: seq<RelationId>)
      modifies this`relationIdList
      ensures ids == old(RelationIds())
      ensures relationIdList == Some(ids)
    {
      if relationIdList.None? {
        relationIdList := Some([]);
      }
      ids := relationIdList.value;
    }

    method SetRelationIds(relationIdList: Option<seq<RelationId>>)
      modifies this`relationIdList
      ensures this.relationIdList == relationIdList
    {
      this.relationIdList := relationIdList;
    }

    method AddRelationId(id: RelationId)
      modifies this`relationIdList
      ensures relationIdList == Some(old(RelationIds()) + [id])
    {
      var ids := GetRelationIds();
      relationIdList := Some(ids + [id]);
    }

    method SetGraphService(graphService: GraphService?)
      modifies this`graphService
      ensures this.graphService == graphService
    {
      this.graphService := graphService;
    }
  }

  /**
   * A client: relation ids added one by one reach the graph service in the
   * order they were added; with links switched off none are passed.
   */
  method ConfigureAndExecute(service: GraphService, loader: Loader, a: RelationId, b: RelationId)
    modifies service
    ensures service.requests == old(service.requests) + [Create([loader], Some([a, b])), CreateWithoutLinks([loader])]
  {
    var cmd := new GraphCommand();
    cmd.AddLoader(loader);
    assert cmd.Loaders() == [loader];
    cmd.AddRelationId(a);
    assert cmd.RelationIds() == [a];
    cmd.AddRelationId(b);
    assert cmd.RelationIds() == [a] + [b] == [a, b];
    cmd.SetGraphService(service);
    ghost var start := service.requests;
    assert GraphRequestFor(true, [loader], Some([a, b])) == Create([loader], Some([a, b]));
    cmd.Execute();
    assert service.requests == start + [Create([loader], Some([a, b]))];
    cmd.SetLoadLinks(false);
    assert cmd.Loaders() == [loader];
    cmd.Execute();
    assert service.requests == start + [Create([loader], Some([a, b]))] + [CreateWithoutLinks([loader])];
  }
}
