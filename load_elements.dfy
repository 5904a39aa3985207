/**
 * The command that loads several elements by uuid
 * (sernet.verinice.service.commands.LoadElementsByUuid): one DAO lookup per
 * distinct uuid, with a fixed retrieve profile; uuids that find nothing are
 * skipped.
 */
module LoadElements {
  import opened Wrappers
  import Retrieval

  /** Which DAO getDaoFactory() hands out: the generic one, or the one for a type id. */
  datatype DaoKey = ElementDao | TypedDao(typeId: string)

  /** IBaseDao.findByUuid(uuid, ri) of the given DAO; None stands for null. */
  type Finder<T> = (DaoKey, string, Retrieval.RetrieveInfo) -> Option<T>

  /** The DAO getDao() answers with: the cached one, else the one its type id selects. */
  function DaoOf(cached: Option<DaoKey>, typeId: Option<string>): (d: DaoKey)
    ensures cached.Some? ==> d == cached.value
    ensures cached.None? && typeId.None? ==> d == ElementDao
    ensures cached.None? && typeId.Some? ==> d == TypedDao(typeId.value)
  {
    if cached.Some? then cached.value
    else if typeId.None? then ElementDao
    else TypedDao(typeId.value)
  }

  /** The elements the uuids of `us` find through DAO d. */
  function Found<T(==)>(find: Finder<T>, d: DaoKey, us: set<string>, ri: Retrieval.RetrieveInfo): set<T> {
    set u | u in us && find(d, u, ri).Some? :: find(d, u, ri).value
  }

  /** An element is loaded exactly when some uuid of the command finds it. */
  lemma FoundIff<T>(find: Finder<T>, d: DaoKey, us: set<string>, ri: Retrieval.RetrieveInfo, e: T)
    ensures e in Found(find, d, us, ri) <==> exists u :: u in us && find(d, u, ri) == Some(e)
  {
    if exists u :: u in us && find(d, u, ri) == Some(e) {
      var u :| u in us && find(d, u, ri) == Some(e);
      assert find(d, u, ri).value == e;
    }
  }

  lemma FoundAdd<T>(find: Finder<T>, d: DaoKey, us: set<string>, u: string, ri: Retrieval.RetrieveInfo)
    ensures Found(find, d, us + {u}, ri) ==
      Found(find, d, us, ri) + (if find(d, u, ri).Some? then {find(d, u, ri).value} else {})
  {
  }

  /** At most one element per uuid: the result is never larger than the uuid set. */
  lemma {:induction false} FoundAtMostOnePerUuid<T>(find: Finder<T>, d: DaoKey, us: set<string>,
                                                        ri: Retrieval.RetrieveInfo)
    ensures |Found(find, d, us, ri)| <= |us|
    decreases |us|
  {
    if us != {} {
      var u :| u in us;
      var rest := us - {u};
      FoundAtMostOnePerUuid(find, d, rest, ri);
      FoundAdd(find, d, rest, u, ri);
      assert rest + {u} == us;
    }
  }

  class LoadElementsByUuid<T(==)> {
    var uuids: set<string>
    var elements: Option<set<T>>
    var typeId: Option<string>
    var ri: Retrieval.RetrieveInfo
    var dao: Option<DaoKey>

    /** LoadElementsByUuid(typeId, uuids, ri); a null ri means an empty RetrieveInfo. */
    constructor OfType(typeId: Option<string>, uuids: seq<string>, ri: Option<Retrieval.RetrieveInfo>)
      ensures this.uuids == set u | u in uuids
      ensures this.typeId == typeId
      ensures this.ri == if ri.Some? then ri.value else Retrieval.NOTHING
      ensures elements.None? && dao.None?
    {
      this.uuids := set u | u in uuids;
      this.typeId := typeId;
      this.ri := if ri.Some? then ri.value else Retrieval.NOTHING;
      elements := None;
      dao := None;
    }

    /** LoadElementsByUuid(uuids): no type id, empty RetrieveInfo. */
    constructor (uuids: seq<string>)
      ensures this.uuids == set u | u in uuids
      ensures typeId.None? && ri == Retrieval.NOTHING
      ensures elements.None? && dao.None?
    {
      this.uuids := set u | u in uuids;
      typeId := None;
      ri := Retrieval.NOTHING;
      elements := None;
      dao := None;
    }

    /** LoadElementsByUuid(uuids, ri). */
    constructor WithInfo(uuids: seq<string>, ri: Option<Retrieval.RetrieveInfo>)
      ensures this.uuids == set u | u in uuids
      ensures typeId.None?
      ensures this.ri == if ri.Some? then ri.value else Retrieval.NOTHING
      ensures elements.None? && dao.None?
    {
      this.uuids := set u | u in uuids;
      typeId := None;
      this.ri := if ri.Some? then ri.value else Retrieval.NOTHING;
      elements := None;
      dao := None;
    }

    /** LoadElementsByUuid(typeId, uuids). */
    constructor OfTypeOnly(typeId: Option<string>, uuids: seq<string>)
      ensures this.uuids == set u | u in uuids
      ensures this.typeId == typeId && ri == Retrieval.NOTHING
      ensures elements.None? && dao.None?
    {
      this.uuids := set u | u in uuids;
      this.typeId := typeId;
      ri := Retrieval.NOTHING;
      elements := None;
      dao := None;
    }

    /** getDao(): chosen on first use and cached. */
    method GetDao() returns (d: DaoKey)
      modifies this`dao
      ensures d == DaoOf(old(dao), typeId)
      ensures dao == Some(d)
    {
      if dao.None? {
        if typeId.None? {
          dao := Some(ElementDao);
        } else {
          dao := Some(TypedDao(typeId.value));
        }
      }
      d := dao.value;
    }

    /**
     * execute(): one lookup per uuid, in the set's iteration order; the
     * DAO is fetched only if there is a uuid to look up.
     */
    method Execute(find: Finder<T>)
      modifies this`elements, this`dao
      ensures elements == Some(Found(find, DaoOf(old(dao), typeId), uuids, ri))
      ensures dao == if uuids == {} then old(dao) else Some(DaoOf(old(dao), typeId))
    {
      ghost var d := DaoOf(dao, typeId);
      elements := Some({});
      var remaining := uuids;
      ghost var visited: set<string> := {};
      assert Found(find, d, visited, ri) == {};
      while remaining != {}
        invariant remaining <= uuids && visited == uuids - remaining
        invariant elements == Some(Found(find, d, visited, ri))
        invariant dao == if visited == {} then old(dao) else Some(d)
        decreases remaining
      {
        var uuid :| uuid in remaining;
        var dd := GetDao();
        assert dd == d;
        var element := find(dd, uuid, ri);
        FoundAdd(find, d, visited, uuid, ri);
        assert element == find(d, uuid, ri);
        if element.Some? {
          assert Found(find, d, visited + {uuid}, ri) == Found(find, d, visited, ri) + {element.value};
          elements := Some(elements.value + {element.value});
        } else {
          assert Found(find, d, visited + {uuid}, ri) == Found(find, d, visited, ri);
        }
        remaining := remaining - {uuid};
        visited := visited + {uuid};
      }
      assert visited == uuids;
    }
  }
}
