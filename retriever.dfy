/**
 * The lazy-load tracker (sernet.gs.service.Retriever): for each facet of a
 * partially loaded element it tells whether the facet is already in memory,
 * and when it is not it issues one retrieve request naming what is missing.
 *
 * Hibernate proxies and persistent collections are modelled only by their
 * "initialized" flag; a Java null is None. Hibernate.isInitialized(null) is
 * true, which several checks below rely on.
 */
module Retrieval {
  import opened Wrappers

  /** A Hibernate proxy or persistent collection whose contents are not modelled. */
  datatype Lazy = Lazy(initialized: bool)

  /** A PropertyList and its collection of properties. */
  datatype PropertyList = PropertyList(initialized: bool, properties: Option<Lazy>)

  /** An entity's map of typed property lists; `lists` are the map's values. */
  datatype TypedPropertyLists = TypedPropertyLists(initialized: bool, lists: seq<Option<PropertyList>>)

  /** The entity ("properties" payload) of an element. */
  datatype Entity = Entity(initialized: bool, typedPropertyLists: Option<TypedPropertyLists>)

  /** A CnATreeElement as far as the tracker looks at it. */
  datatype Element = Element(
    dbId: int,
    initialized: bool,
    entity: Option<Entity>,
    parent: Option<Lazy>,
    children: Option<Lazy>,
    permissions: Option<Lazy>,
    linksDown: Option<Lazy>,
    linksUp: Option<Lazy>)

  datatype Facet = Properties | Children | Permissions | Parent | LinksDown | LinksUp

  /** Hibernate.isInitialized on a collection or proxy that may be null. */
  predicate IsInitialized(c: Option<Lazy>) {
    c.None? || c.value.initialized
  }

  /** Hibernate.isInitialized on an element that may be null. */
  predicate ProxyInitialized(e: Option<Element>) {
    e.None? || e.value.initialized
  }

  // ---------------------------------------------------------------------
  // Reference definition: a facet is loaded when every non-null container
  // reachable through it is initialized.
  // ---------------------------------------------------------------------

  datatype Container = Null | Node(initialized: bool, nested: seq<Container>)

  predicate FullyLoaded(c: Container)
    decreases c
  {
    c.Null? || (c.initialized && forall n :: n in c.nested ==> FullyLoaded(n))
  }

  function LazyTree(c: Option<Lazy>): Container {
    if c.None? then Null else Node(c.value.initialized, [])
  }

  function PropertyListTree(p: Option<PropertyList>): Container {
    if p.None? then Null else Node(p.value.initialized, [LazyTree(p.value.properties)])
  }

  function TypedListsTree(m: Option<TypedPropertyLists>): Container {
    if m.None? then Null
    else
      var lists := m.value.lists;
      Node(m.value.initialized, seq(|lists|, i requires 0 <= i < |lists| => PropertyListTree(lists[i])))
  }

  function EntityTree(e: Option<Entity>): Container {
    if e.None? then Null else Node(e.value.initialized, [TypedListsTree(e.value.typedPropertyLists)])
  }

  /** The collection or proxy behind a facet other than Properties. */
  function FacetContainer(el: Element, f: Facet): Option<Lazy>
    requires f != Properties
  {
    match f
    case Children => el.children
    case Permissions => el.permissions
    case Parent => el.parent
    case LinksDown => el.linksDown
    case LinksUp => el.linksUp
  }

  /** The containers reachable from an element through one facet. */
  function FacetTree(e: Option<Element>, f: Facet): Container {
    if e.None? then Null
    else if f == Properties then Node(e.value.initialized, [EntityTree(e.value.entity)])
    else Node(e.value.initialized, [LazyTree(FacetContainer(e.value, f))])
  }

  predicate Loaded(e: Option<Element>, f: Facet) {
    FullyLoaded(FacetTree(e, f))
  }

  /** A node with one nested container is loaded iff it and that container are. */
  lemma OneNested(b: bool, c: Container)
    ensures FullyLoaded(Node(b, [c])) == (b && FullyLoaded(c))
  {
    assert forall n :: n in [c] <==> n == c;
  }

  /** For the facets held in one collection, Loaded is the two-level Hibernate test. */
  lemma SimpleFacetLoaded(e: Option<Element>, f: Facet)
    requires f != Properties
    ensures Loaded(e, f) == (ProxyInitialized(e) && (e.None? || IsInitialized(FacetContainer(e.value, f))))
  {
    if e.Some? {
      var c := FacetContainer(e.value, f);
      OneNested(e.value.initialized, LazyTree(c));
      assert FullyLoaded(LazyTree(c)) == IsInitialized(c);
    }
  }

  // ---------------------------------------------------------------------
  // The checks, as the source writes them
  // ---------------------------------------------------------------------

  function IsPropertiesInitialized(p: Option<PropertyList>): (r: bool)
    ensures r == FullyLoaded(PropertyListTree(p))
  {
    if p.None? then true
    else
      OneNested(p.value.initialized, LazyTree(p.value.properties));
      if !p.value.initialized then false
      else if p.value.properties.None? then true
      else p.value.properties.value.initialized
  }

  method IsPropertyListInitialized(m: Option<TypedPropertyLists>) returns (b: bool)
    ensures b == FullyLoaded(TypedListsTree(m))
  {
    if m.None? {
      return true;
    }
    if !m.value.initialized {
      return false;
    }
    var lists := m.value.lists;
    ghost var t := TypedListsTree(m);
    assert |t.nested| == |lists|;
    for i := 0 to |lists|
      invariant forall j :: 0 <= j < i ==> FullyLoaded(t.nested[j])
    {
      assert t.nested[i] == PropertyListTree(lists[i]);
      var ok := IsPropertiesInitialized(lists[i]);
      if !ok {
        return false;
      }
    }
    return true;
  }

  method IsEntityInitialized(e: Option<Entity>) returns (b: bool)
    ensures b == FullyLoaded(EntityTree(e))
  {
    if e.None? {
      return true;
    }
    if !e.value.initialized {
      return false;
    }
    b := IsPropertyListInitialized(e.value.typedPropertyLists);
    assert EntityTree(e).nested == [TypedListsTree(e.value.typedPropertyLists)];
  }

  /** Null counts as initialized; otherwise the element, its entity, the map and every list in it. */
  method IsElementInitialized(e: Option<Element>) returns (b: bool)
    ensures b == Loaded(e, Properties)
  {
    if e.None? {
      return true;
    }
    if !e.value.initialized {
      return false;
    }
    b := IsEntityInitialized(e.value.entity);
    assert FacetTree(e, Properties).nested == [EntityTree(e.value.entity)];
  }

  function AreChildrenInitialized(e: Option<Element>): (r: bool)
    ensures r == Loaded(e, Children)
  {
    SimpleFacetLoaded(e, Children);
    ProxyInitialized(e) && (e.None? || IsInitialized(e.value.children))
  }

  function ArePermissionsInitialized(e: Option<Element>): (r: bool)
    ensures r == Loaded(e, Permissions)
  {
    SimpleFacetLoaded(e, Permissions);
    ProxyInitialized(e) && (e.None? || IsInitialized(e.value.permissions))
  }

  function IsParentInitialized(e: Option<Element>): (r: bool)
    ensures r == Loaded(e, Parent)
  {
    SimpleFacetLoaded(e, Parent);
    ProxyInitialized(e) && (e.None? || IsInitialized(e.value.parent))
  }

  /** Errors surfacing from the tracker. */
  datatype RetrieveError =
    | RetrieveFailed(cause: string)   // the RuntimeException wrapping the CommandException
    | NullPointer                     // a NullPointerException

  /**
   * areLinksInitizialized as written: a null element passes the first
   * test (Hibernate.isInitialized(null) is true) and is then dereferenced.
   */
  function AreLinksInitializedAsWritten(e: Option<Element>, upLinks: bool): (r: Result<bool, RetrieveError>)
    ensures e.None? ==> r == Err(NullPointer)
    ensures e.Some? ==> r == Ok(Loaded(e, LinksDown) && (upLinks ==> Loaded(e, LinksUp)))
  {
    SimpleFacetLoaded(e, LinksDown);
    SimpleFacetLoaded(e, LinksUp);
    if !ProxyInitialized(e) then Ok(false)
    else if e.None? then Err(NullPointer)
    else if !IsInitialized(e.value.linksDown) then Ok(false)
    else Ok(!upLinks || IsInitialized(e.value.linksUp))
  }

  /** areLinksInitizialized on an element that is not null. */
  function AreLinksInitialized(e: Element, upLinks: bool): (r: bool)
    ensures r == (Loaded(Some(e), LinksDown) && (upLinks ==> Loaded(Some(e), LinksUp)))
  {
    SimpleFacetLoaded(Some(e), LinksDown);
    SimpleFacetLoaded(Some(e), LinksUp);
    e.initialized && IsInitialized(e.linksDown) && (!upLinks || IsInitialized(e.linksUp))
  }

  // ---------------------------------------------------------------------
  // The retrieve command
  // ---------------------------------------------------------------------

  /** The facets a RetrieveCnATreeElement command is asked to load. */
  datatype RetrieveInfo = RetrieveInfo(
    properties: bool, children: bool, permissions: bool,
    parent: bool, linksDown: bool, linksUp: bool)

  /** new RetrieveInfo(): nothing requested. */
  const NOTHING := RetrieveInfo(false, false, false, false, false, false)
  /** RetrieveInfo.getPropertyInstance(). */
  const PROPERTIES_ONLY := NOTHING.(properties := true)
  /** RetrieveInfo.getChildrenInstance(). */
  const CHILDREN_ONLY := NOTHING.(children := true)

  /** One execution of RetrieveCnATreeElement. */
  datatype Request = Request(elementId: int, info: RetrieveInfo)

  /**
   * The command service: for an element id and a RetrieveInfo it yields the
   * command's element (which may be null) or the CommandException's cause.
   */
  type Store = (int, RetrieveInfo) -> Result<Option<Element>, string>

  /** What retrieveElement returns for one request. */
  function Fetched(store: Store, req: Request): (r: Result<Option<Element>, RetrieveError>)
    ensures store(req.elementId, req.info).Err? <==> r.Err?
    ensures r.Err? ==> r == Err(RetrieveFailed(store(req.elementId, req.info).error))
    ensures r.Ok? ==> r.value == store(req.elementId, req.info).value
  {
    match store(req.elementId, req.info)
    case Ok(el) => Ok(el)
    case Err(cause) => Err(RetrieveFailed(cause))
  }

  /** The element satisfies every facet the request names. */
  predicate Provides(e: Option<Element>, ri: RetrieveInfo) {
    && (ri.properties ==> Loaded(e, Properties))
    && (ri.children ==> Loaded(e, Children))
    && (ri.permissions ==> Loaded(e, Permissions))
    && (ri.parent ==> Loaded(e, Parent))
    && (ri.linksDown ==> Loaded(e, LinksDown))
    && (ri.linksUp ==> Loaded(e, LinksUp))
  }

  /** A store that always loads what it is asked for. */
  ghost predicate Honours(store: Store) {
    forall id, ri :: store(id, ri).Ok? ==> Provides(store(id, ri).value, ri)
  }

  /** retrieveElement: exactly one command execution. */
  method RetrieveElement(elementId: int, ri: RetrieveInfo, store: Store)
    returns (r: Result<Option<Element>, RetrieveError>, fetches: seq<Request>)
    ensures fetches == [Request(elementId, ri)]
    ensures r == Fetched(store, Request(elementId, ri))
    ensures Honours(store) && r.Ok? ==> Provides(r.value, ri)
  {
    fetches := [Request(elementId, ri)];
    match store(elementId, ri)
    case Ok(el) => r := Ok(el);
    case Err(cause) => r := Err(RetrieveFailed(cause));
  }

  method CheckRetrieveElement(element: Option<Element>, store: Store)
    returns (r: Result<Option<Element>, RetrieveError>, fetches: seq<Request>)
    ensures Loaded(element, Properties) ==> r == Ok(element) && fetches == []
    ensures !Loaded(element, Properties) ==>
      element.Some? && fetches == [Request(element.value.dbId, PROPERTIES_ONLY)] && r == Fetched(store, fetches[0])
    ensures Honours(store) && r.Ok? ==> Loaded(r.value, Properties)
  {
    var initialized := IsElementInitialized(element);
    r, fetches := Ok(element), [];
    if !initialized {
      r, fetches := RetrieveElement(element.value.dbId, PROPERTIES_ONLY, store);
    }
  }

  method CheckRetrieveChildren(element: Option<Element>, store: Store)
    returns (r: Result<Option<Element>, RetrieveError>, fetches: seq<Request>)
    ensures Loaded(element, Children) ==> r == Ok(element) && fetches == []
    ensures !Loaded(element, Children) ==>
      element.Some? && fetches == [Request(element.value.dbId, CHILDREN_ONLY)] && r == Fetched(store, fetches[0])
    ensures Honours(store) && r.Ok? ==> Loaded(r.value, Children)
  {
    r, fetches := Ok(element), [];
    if !AreChildrenInitialized(element) {
      r, fetches := RetrieveElement(element.value.dbId, CHILDREN_ONLY, store);
    }
  }

  method CheckRetrievePermissions(element: Option<Element>, store: Store)
    returns (r: Result<Option<Element>, RetrieveError>, fetches: seq<Request>)
    ensures Loaded(element, Permissions) ==> r == Ok(element) && fetches == []
    ensures !Loaded(element, Permissions) ==>
      element.Some? && fetches == [Request(element.value.dbId, NOTHING.(permissions := true))]
      && r == Fetched(store, fetches[0])
    ensures Honours(store) && r.Ok? ==> Loaded(r.value, Permissions)
  {
    r, fetches := Ok(element), [];
    if !ArePermissionsInitialized(element) {
      var ri := NOTHING;
      ri := ri.(permissions := true);
      r, fetches := RetrieveElement(element.value.dbId, ri, store);
    }
  }

  /** One fetch naming exactly the missing facets among properties and children. */
  method CheckRetrieveElementAndChildren(element: Option<Element>, store: Store)
    returns (r: Result<Option<Element>, RetrieveError>, fetches: seq<Request>)
    ensures Loaded(element, Properties) && Loaded(element, Children) ==> r == Ok(element) && fetches == []
    ensures !(Loaded(element, Properties) && Loaded(element, Children)) ==>
      && element.Some?
      && |fetches| == 1
      && fetches[0].elementId == element.value.dbId
      && fetches[0].info == NOTHING.(properties := !Loaded(element, Properties),
                                     children := !Loaded(element, Children))
      && r == Fetched(store, fetches[0])
    ensures Honours(store) && r.Ok? && Loaded(element, Properties) && Loaded(element, Children) ==>
      Loaded(r.value, Properties) && Loaded(r.value, Children)
    ensures Honours(store) && r.Ok? && !Loaded(element, Properties) ==> Loaded(r.value, Properties)
    ensures Honours(store) && r.Ok? && !Loaded(element, Children) ==> Loaded(r.value, Children)
  {
    var elementInitialized := IsElementInitialized(element);
    var childrenInitialized := AreChildrenInitialized(element);
    if elementInitialized && childrenInitialized {
      return Ok(element), [];
    }
    var ri := NOTHING;
    if !elementInitialized {
      ri := ri.(properties := true);
    }
    if !childrenInitialized {
      ri := ri.(children := true);
    }
    r, fetches := RetrieveElement(element.value.dbId, ri, store);
  }

  method CheckRetrieveParent(element: Option<Element>, store: Store)
    returns (r: Result<Option<Element>, RetrieveError>, fetches: seq<Request>)
    ensures element.None? ==> r == Ok(element) && fetches == []
    ensures Loaded(element, Parent) ==> r == Ok(element) && fetches == []
    ensures !Loaded(element, Parent) ==>
      element.Some? && fetches == [Request(element.value.dbId, NOTHING.(parent := true))]
      && r == Fetched(store, fetches[0])
    ensures Honours(store) && r.Ok? ==> Loaded(r.value, Parent)
  {
    r, fetches := Ok(element), [];
    if !IsParentInitialized(element) && element.Some? {
      var ri := NOTHING;
      ri := ri.(parent := true);
      r, fetches := RetrieveElement(element.value.dbId, ri, store);
    }
  }

  /** The facets checkRetrieveLinks asks for, whatever its upLinks argument. */
  const LINKS_BOTH := NOTHING.(linksDown := true, linksUp := true)

  /**
   * checkRetrieveLinks as written: the links test runs before the null
   * test, so a null element raises NullPointerException.
   */
  method CheckRetrieveLinksAsWritten(element: Option<Element>, upLinks: bool, store: Store)
    returns (r: Result<Option<Element>, RetrieveError>, fetches: seq<Request>)
    ensures element.None? ==> r == Err(NullPointer) && fetches == []
    ensures element.Some? ==> r == CheckLinksOutcome(element.value, upLinks, store) && fetches == LinksFetches(element.value, upLinks)
  {
    var initialized := AreLinksInitializedAsWritten(element, upLinks);
    if initialized.Err? {
      return Err(initialized.error), [];
    }
    r, fetches := Ok(element), [];
    if !initialized.value && element.Some? {
      var ri := NOTHING;
      ri := ri.(linksDown := true).(linksUp := true);
      r, fetches := RetrieveElement(element.value.dbId, ri, store);
    }
  }

  /** The requests checkRetrieveLinks issues for a non-null element. */
  function LinksFetches(e: Element, upLinks: bool): (r: seq<Request>)
    ensures AreLinksInitialized(e, upLinks) <==> r == []
    ensures r != [] ==> r == [Request(e.dbId, LINKS_BOTH)]
  {
    if AreLinksInitialized(e, upLinks) then [] else [Request(e.dbId, LINKS_BOTH)]
  }

  /** What checkRetrieveLinks returns for a non-null element. */
  function CheckLinksOutcome(e: Element, upLinks: bool, store: Store): Result<Option<Element>, RetrieveError> {
    if AreLinksInitialized(e, upLinks) then Ok(Some(e)) else Fetched(store, Request(e.dbId, LINKS_BOTH))
  }

  /**
   * checkRetrieveLinks with the null test first, as the guard intends: a
   * null element is returned unchanged without a fetch.
   */
  method CheckRetrieveLinks(element: Option<Element>, upLinks: bool, store: Store)
    returns (r: Result<Option<Element>, RetrieveError>, fetches: seq<Request>)
    ensures element.None? ==> r == Ok(None) && fetches == []
    ensures element.Some? && AreLinksInitialized(element.value, upLinks) ==> r == Ok(element) && fetches == []
    ensures element.Some? && !AreLinksInitialized(element.value, upLinks) ==>
      fetches == [Request(element.value.dbId, LINKS_BOTH)] && r == Fetched(store, fetches[0])
    ensures Honours(store) && r.Ok? ==> Loaded(r.value, LinksDown) && (upLinks ==> Loaded(r.value, LinksUp))
  {
    r, fetches := Ok(element), [];
    if element.Some? && !AreLinksInitialized(element.value, upLinks) {
      var ri := NOTHING;
      ri := ri.(linksDown := true).(linksUp := true);
      r, fetches := RetrieveElement(element.value.dbId, ri, store);
    }
  }

  /**
   * A null element passes the source's tests of properties, children,
   * permissions and parent; its link test instead ends in a
   * NullPointerException, although the reference definition calls it loaded.
   */
  lemma NullElementIsLoaded(f: Facet, upLinks: bool)
    requires f != LinksDown && f != LinksUp
    ensures Loaded(None, f)
    ensures AreChildrenInitialized(None) && ArePermissionsInitialized(None) && IsParentInitialized(None)
    ensures AreLinksInitializedAsWritten(None, upLinks) == Err(NullPointer)
  {
  }

  /** The loaded test of one facet looks only at that facet's containers. */
  lemma {:induction false} PropertiesIgnoreOtherFacets(e: Element, children: Option<Lazy>, permissions: Option<Lazy>)
    ensures Loaded(Some(e), Properties) == Loaded(Some(e.(children := children, permissions := permissions)), Properties)
  {
    assert FacetTree(Some(e), Properties) == FacetTree(Some(e.(children := children, permissions := permissions)), Properties);
  }
}
