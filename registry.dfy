/**
 * The importer registry (src/import/registry.rs): importers by id, the
 * friendly display names that lead back to an id, and the id dispatch of a
 * JSON import request.
 *
 * The registry is a class whose two maps `register` updates in place. The
 * type-erased importer objects become values that record which concrete
 * importer they are, which is all that `downcast_ref` inspects.
 */
module Registry {
  import opened Wrappers
  import opened Strings
  import opened Imports
  import NotUltranx

  const ULTRANX_ID := "ultranx"
  const URL_ID := "url"
  const ULTRANX_DISPLAY_NAME := "UltraNX Importer"
  const NOT_SUPPORTED := "Importer not found or not supported: "
  const BAD_REQUEST := "Failed to parse JSON request: "

  /** The concrete type behind a registered importer. */
  datatype ImporterKind = NotUltranxImporter | UrlImporter | OtherImporter(name: string)

  datatype Importer = Importer(kind: ImporterKind, displayName: string)

  class ImporterRegistry {
    var importers: map<string, Importer>
    var friendlyNames: map<string, string>

    /** Every friendly name leads to a registered id. */
    ghost predicate Valid()
      reads this
    {
      forall name :: name in friendlyNames ==> friendlyNames[name] in importers
    }

    /** `ImporterRegistry::new`: no importers and no friendly names. */
    constructor ()
      ensures importers == map[] && friendlyNames == map[]
      ensures Valid()
    {
      importers := map[];
      friendlyNames := map[];
    }

    /** `get`: the importer registered under `id`, if any. */
    function Get(id: string): (r: Option<Importer>)
      reads this
      ensures r.Some? <==> id in importers
      ensures r.Some? ==> r.value == importers[id]
    {
      if id in importers then Some(importers[id]) else None
    }

    /** `has`: whether an importer is registered under `id`. */
    predicate Has(id: string)
      reads this
      ensures Has(id) <==> Get(id).Some?
    {
      id in importers
    }

    /**
     * `get_all`: every registered importer, as a set (the order of the hash
     * map's values is not modelled).
     */
    function GetAll(): (r: set<Importer>)
      reads this
      ensures forall imp :: imp in r <==> exists id :: Get(id) == Some(imp)
    {
      var all := set id | id in importers :: importers[id];
      forall imp | imp in all
        ensures exists id :: Get(id) == Some(imp)
      {
        var id :| id in importers && importers[id] == imp;
        assert Get(id) == Some(imp);
      }
      all
    }

    /**
     * `register`: the importer is stored under `id`, replacing an earlier one;
     * its lower-cased display name leads to `id` unless the display name is
     * the id itself. Every other id keeps its importer.
     */
    method Register(id: string, imp: Importer)
      requires Valid()
      modifies this
      ensures importers == old(importers)[id := imp]
      ensures friendlyNames == if id != imp.displayName then old(friendlyNames)[ToLower(imp.displayName) := id]
                               else old(friendlyNames)
      ensures Valid()
      ensures Has(id) && Get(id) == Some(imp)
      ensures forall other :: other != id ==> Get(other) == old(Get(other))
    {
      if id != imp.displayName {
        friendlyNames := friendlyNames[ToLower(imp.displayName) := id];
      }
      importers := importers[id := imp];
    }
  }

  /**
   * `init_registry`: the UltraNX importer under "ultranx" and the URL
   * importer under "url", whatever the registry held before.
   */
  method InitRegistry(reg: ImporterRegistry, urlDisplayName: string)
    requires reg.Valid()
    modifies reg
    ensures reg.Valid()
    ensures reg.Has(ULTRANX_ID) && reg.Has(URL_ID)
    ensures reg.Get(ULTRANX_ID) == Some(Importer(NotUltranxImporter, ULTRANX_DISPLAY_NAME))
    ensures reg.Get(URL_ID) == Some(Importer(UrlImporter, urlDisplayName))
  {
    assert ULTRANX_ID != ULTRANX_DISPLAY_NAME by {
      assert |ULTRANX_ID| != |ULTRANX_DISPLAY_NAME|;
    }
    assert ULTRANX_ID != URL_ID by {
      assert |ULTRANX_ID| != |URL_ID|;
    }
    reg.Register(ULTRANX_ID, Importer(NotUltranxImporter, ULTRANX_DISPLAY_NAME));
    reg.Register(URL_ID, Importer(UrlImporter, urlDisplayName));
  }

  /** The importer `import_with_json` picks for an id: only the two known ids, and only with their own kind. */
  function Selected(reg: ImporterRegistry, id: string): (k: Option<ImporterKind>)
    reads reg
    ensures k.Some? ==> (id == ULTRANX_ID || id == URL_ID) && reg.Has(id) && k.value == reg.Get(id).value.kind
    ensures k == Some(NotUltranxImporter) <==> id == ULTRANX_ID && reg.Has(id) && reg.Get(id).value.kind.NotUltranxImporter?
    ensures k == Some(UrlImporter) <==> id == URL_ID && reg.Has(id) && reg.Get(id).value.kind.UrlImporter?
  {
    if id == ULTRANX_ID && reg.Has(id) && reg.Get(id).value.kind.NotUltranxImporter? then Some(NotUltranxImporter)
    else if id == URL_ID && reg.Has(id) && reg.Get(id).value.kind.UrlImporter? then Some(UrlImporter)
    else None
  }

  /**
   * `import_with_json`: an id other than "ultranx" or "url", or one whose
   * registered importer is not of the matching kind, is not supported; a
   * request that does not parse is an error before the importer runs;
   * otherwise the importer's own result.
   *
   * The UltraNX importer fetches its title page with `fetch` and reads its
   * configuration as `stored`; the URL importer's request parser and import
   * are parameters.
   */
  method ImportWithJson<U>(reg: ImporterRegistry, id: string, json: string,
                           parseUltranx: string -> Result<NotUltranx.ImportRequest, string>,
                           fetch: string -> NotUltranx.Fetched,
                           stored: Result<Option<NotUltranx.DownloadConfig>, string>,
                           parseUrl: string -> Result<U, string>,
                           importUrl: U -> Result<ImportSource, ImportError>)
    returns (r: Result<ImportSource, ImportError>)
    ensures Selected(reg, id).None? ==> r == Err(Other(NOT_SUPPORTED + id))
    ensures id != ULTRANX_ID && id != URL_ID ==> r == Err(Other(NOT_SUPPORTED + id))
    ensures Selected(reg, id) == Some(NotUltranxImporter) ==>
              match parseUltranx(json)
              case Err(e) => r == Err(Other(BAD_REQUEST + e))
              case Ok(req) => NotUltranx.Imported(req, fetch(req.titleId), stored, r)
    ensures Selected(reg, id) == Some(UrlImporter) ==>
              match parseUrl(json)
              case Err(e) => r == Err(Other(BAD_REQUEST + e))
              case Ok(req) => r == importUrl(req)
  {
    var kind := Selected(reg, id);
    if kind == Some(NotUltranxImporter) {
      var request := parseUltranx(json);
      if request.Err? {
        return Err(Other(BAD_REQUEST + request.error));
      }
      r := NotUltranx.Import(request.value, fetch(request.value.titleId), stored);
    } else if kind == Some(UrlImporter) {
      var request := parseUrl(json);
      if request.Err? {
        return Err(Other(BAD_REQUEST + request.error));
      }
      r := importUrl(request.value);
    } else {
      r := Err(Other(NOT_SUPPORTED + id));
    }
  }
}
