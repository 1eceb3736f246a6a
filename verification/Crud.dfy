/**
 The CRUD request handler over the file-backed entity store. Each request is a
 step on the abstract entities, and a run of requests refines a map from
 (entity, id) to normalised JSON text.
 */
module Crud {
  import opened Options
  import opened Decimal
  import opened LineReader
  import opened Http
  import opened EntityStorage

  // ---------------------------------------------------------------------------
  // The two fixed patterns, as leftmost searches for a literal base path.

  /** The longest prefix without a slash. */
  function Segment(s: string): (r: string)
    ensures r <= s && Free(r, '/') && (|r| < |s| ==> s[|r|] == '/')
  {
    if s == "" || s[0] == '/' then "" else [s[0]] + Segment(s[1..])
  }

  /** `base/` and at least one character of a segment. */
  predicate EntityHere(base: string, u: string) {
    base + "/" <= u && Segment(u[|base| + 1..]) != ""
  }

  function AfterEntity(base: string, u: string): string
    requires EntityHere(base, u)
  {
    u[|base| + 1..][|Segment(u[|base| + 1..])|..]
  }

  /** The same, and then a slash and another non-empty segment. */
  predicate IdHere(base: string, u: string) {
    EntityHere(base, u) && var rest := AfterEntity(base, u); rest != "" && Segment(rest[1..]) != ""
  }

  function ExtractEntity(base: string, uri: string): string {
    if EntityHere(base, uri) then Segment(uri[|base| + 1..])
    else if uri == "" then ""
    else ExtractEntity(base, uri[1..])
  }

  function ExtractId(base: string, uri: string): string {
    if IdHere(base, uri) then Segment(AfterEntity(base, uri)[1..])
    else if uri == "" then ""
    else ExtractId(base, uri[1..])
  }

  lemma {:induction false} SegmentIs(s: string, t: string)
    requires Free(s, '/') && (t == "" || t[0] == '/')
    ensures Segment(s + t) == s
  {
    if s == "" {
      assert s + t == t;
    } else {
      SegmentIs(s[1..], t);
      assert (s + t)[1..] == s[1..] + t;
    }
  }

  function EntityUri(base: string, entity: string): string {
    base + "/" + entity
  }

  function IdUri(base: string, entity: string, id: string): string {
    base + "/" + entity + "/" + id
  }

  predicate IsSegment(s: string) {
    s != "" && Free(s, '/')
  }

  /** On `base/entity/id`, whatever path follows, the searches find the entity and the id. */
  lemma ExtractsFromIdUri(base: string, entity: string, id: string, more: string)
    requires IsSegment(entity) && IsSegment(id) && (more == "" || more[0] == '/')
    ensures var uri := IdUri(base, entity, id) + more;
            ExtractEntity(base, uri) == entity && ExtractId(base, uri) == id
  {
    var uri := IdUri(base, entity, id) + more;
    assert uri[|base| + 1..] == entity + ("/" + (id + more));
    assert uri[..|base| + 1] == base + "/";
    SegmentIs(entity, "/" + (id + more));
    assert (entity + ("/" + (id + more)))[|entity|..] == "/" + (id + more);
    assert ("/" + (id + more))[1..] == id + more;
    SegmentIs(id, more);
  }

  function Slashes(s: string): nat {
    if s == "" then 0 else (if s[0] == '/' then 1 else 0) + Slashes(s[1..])
  }

  lemma {:induction false} SlashesAdd(s: string, t: string)
    ensures Slashes(s + t) == Slashes(s) + Slashes(t)
  {
    if s == "" {
      assert s + t == t;
    } else {
      assert (s + t)[1..] == s[1..] + t;
      SlashesAdd(s[1..], t);
    }
  }

  lemma {:induction false} FreeOfSlashes(s: string)
    requires Free(s, '/')
    ensures Slashes(s) == 0
  {
    if s != "" {
      FreeOfSlashes(s[1..]);
    }
  }

  lemma SlashFirst(s: string)
    ensures Slashes("/" + s) == 1 + Slashes(s)
  {
    assert ("/" + s)[1..] == s;
  }

  predicate EndsInSlash(s: string) {
    s != "" && s[|s| - 1] == '/'
  }

  lemma SlashLast(s: string)
    requires EndsInSlash(s)
    ensures Slashes(s) >= 1
  {
    assert s == s[..|s| - 1] + "/";
    SlashesAdd(s[..|s| - 1], "/");
  }

  lemma SlashesOfParts(base: string, entity: string, rest: string)
    ensures Slashes(base + ("/" + (entity + ("/" + rest)))) == Slashes(base) + 2 + Slashes(entity) + Slashes(rest)
  {
    hide Slashes;
    SlashesAdd(base, "/" + (entity + ("/" + rest)));
    SlashFirst(entity + ("/" + rest));
    SlashesAdd(entity, "/" + rest);
    SlashFirst(rest);
  }

  lemma PartsOf(base: string, u: string) returns (entity: string, rest: string)
    requires IdHere(base, u)
    ensures u == base + ("/" + (entity + ("/" + rest))) && rest != ""
    ensures IsSegment(entity) && Segment(rest) != ""
  {
    var tail := u[|base| + 1..];
    entity := Segment(tail);
    rest := tail[|entity|..][1..];
    assert tail == entity + ("/" + rest);
    assert u == base + ("/" + tail);
  }

  lemma IdNeedsSlashes(base: string, u: string)
    requires IdHere(base, u)
    ensures Slashes(u) >= Slashes(base) + if EndsInSlash(u) then 3 else 2
  {
    hide Slashes, IdHere;
    var entity, rest := PartsOf(base, u);
    SlashesOfParts(base, entity, rest);
    if EndsInSlash(u) {
      assert u[|u| - |rest|..] == rest;
      SlashLast(rest);
    }
  }

  lemma {:induction false} NoId(base: string, u: string)
    requires Slashes(u) < Slashes(base) + if EndsInSlash(u) then 3 else 2
    ensures ExtractId(base, u) == ""
  {
    if IdHere(base, u) {
      IdNeedsSlashes(base, u);
    } else if u != "" {
      NoId(base, u[1..]);
    }
  }

  /** On `base/entity`, also with a slash behind it, they find the entity and no id. */
  lemma ExtractsFromEntityUri(base: string, entity: string, slash: string)
    requires IsSegment(entity) && (slash == "" || slash == "/")
    ensures var uri := EntityUri(base, entity) + slash;
            ExtractEntity(base, uri) == entity && ExtractId(base, uri) == ""
  {
    var uri := EntityUri(base, entity) + slash;
    assert uri[|base| + 1..] == entity + slash;
    assert uri[..|base| + 1] == base + "/";
    SegmentIs(entity, slash);
    EntityUriSlashes(base, entity, slash);
    NoId(base, uri);
  }

  lemma EntityUriSlashes(base: string, entity: string, slash: string)
    requires Free(entity, '/') && (slash == "" || slash == "/")
    ensures Slashes(EntityUri(base, entity) + slash) == Slashes(base) + 1 + |slash|
  {
    hide Slashes, Free;
    assert EntityUri(base, entity) + slash == base + ("/" + (entity + slash));
    SlashesAdd(base, "/" + (entity + slash));
    SlashFirst(entity + slash);
    TailSlashes(entity, slash);
  }

  lemma TailSlashes(entity: string, slash: string)
    requires Free(entity, '/') && (slash == "" || slash == "/")
    ensures Slashes(entity + slash) == |slash|
  {
    FreeOfSlashes(entity);
    SlashesAdd(entity, slash);
  }

  // ---------------------------------------------------------------------------
  // Content type, ids and JSON.

  function Lower(c: char): char {
    if 'A' <= c <= 'Z' then c + 32 as char else c
  }

  function ToLower(s: string): string {
    seq(|s|, i requires 0 <= i < |s| => Lower(s[i]))
  }

  /** The first content type header, names compared without case, is JSON. */
  predicate IsJson(headers: seq<Header>) {
    headers != [] &&
    if ToLower(headers[0].name) == ToLower("Content-Type") then headers[0].value == "application/json"
    else IsJson(headers[1..])
  }

  method IsJsonContentType(request: Request) returns (r: bool)
    ensures r == IsJson(request.headers)
  {
    for i := 0 to |request.headers|
      invariant IsJson(request.headers) == IsJson(request.headers[i..])
    {
      var header := request.headers[i];
      if ToLower(header.name) == ToLower("Content-Type") {
        return header.value == "application/json";
      }
      assert request.headers[i..][1..] == request.headers[i + 1..];
    }
    return false;
  }

  /** The whole text is an integer. */
  function ValidInteger(s: string): Option<Id> {
    match Stoi(s)
    case None => None
    case Some(parsed) => if parsed.used == |s| then Some(parsed.value) else None
  }

  /** The opaque JSON library: a partial parser and a serialiser. */
  datatype Codec<!J> = Codec(parse: string -> Option<J>, serialize: J -> string)

  ghost predicate Faithful<J(!new)>(codec: Codec<J>) {
    forall j: J :: codec.parse(codec.serialize(j)) == Some(j)
  }

  function Normalized<J>(codec: Codec<J>, body: string): Option<string> {
    match codec.parse(body)
    case None => None
    case Some(j) => Some(codec.serialize(j))
  }

  function Item(id: Id): string {
    "\"" + ToString(id) + "\""
  }

  /** The ids, quoted, with commas between them. */
  function Quoted(ids: seq<Id>): string {
    if ids == [] then ""
    else if |ids| == 1 then Item(ids[0])
    else Quoted(ids[..|ids| - 1]) + "," + Item(ids[|ids| - 1])
  }

  function VectorText(ids: seq<Id>): string {
    "[" + Quoted(ids) + "]"
  }

  // ---------------------------------------------------------------------------
  // The requests as steps on the entities.

  function VersionFor(request: Request): string {
    if request.valid then request.version else HTTP_VERSION
  }

  function Json(request: Request, code: int, message: string, body: string): Response {
    Response(VersionFor(request), code, message, [Header("Content-Type", "application/json")], body)
  }

  function Done(request: Request, code: int, message: string): Response {
    Response(VersionFor(request), code, message, [], "")
  }

  const NO_ENTITY := BAD_REQUEST.(body := "Invalid URI: missing entity")
  const UNSUPPORTED_OPERATION := BAD_REQUEST.(body := "Unsupported operation or malformed request")
  const NOT_JSON := UNSUPPORTED.(body := "Content-Type must be application/json")
  const BAD_JSON := BAD_REQUEST.(body := "Invalid JSON body")
  const CREATE_FAILED := SERVER_ERROR.(body := "Failed to create entity")
  const PUT_FAILED := SERVER_ERROR.(body := "PUT failed")
  const BAD_STORED_JSON := SERVER_ERROR.(body := "Stored JSON could not be parsed")
  const ID_NOT_FOUND := NOT_FOUND.(body := "ID not found")
  const ID_INVALID := NOT_FOUND.(body := "ID invalid")
  const INVALID_ID := NOT_FOUND.(body := "Invalid ID")
  const ENTITY_NOT_FOUND := NOT_FOUND.(body := "Entity type not found")
  const NO_ID_FOR_PUT := Response("", 405, "", [], "ID must be specified for PUT")
  const NO_ID_FOR_DELETE := Response("", 405, "", [], "ID must be specified for DELETE")

  /** `opens` tells whether the file to write could be opened. */
  ghost function RespondPost<J>(codec: Codec<J>, s: Entities, entity: string, request: Request, opens: bool)
    : (Entities, Response)
  {
    if !IsJson(request.headers) then (s, NOT_JSON)
    else match Normalized(codec, request.body)
      case None => (s, BAD_JSON)
      case Some(data) =>
        var next := NextId(IdsIn(s, entity));
        if next.None? || !opens then (s, CREATE_FAILED)
        else (Put(s, entity, next.value, data),
              Json(request, 201, "Created", "{\"id\": " + ToString(next.value) + "}"))
  }

  /** `ids` is the order in which a listing finds the ids. */
  function RespondGet<J>(codec: Codec<J>, s: Entities, entity: string, id: string, request: Request, ids: seq<Id>)
    : Response
  {
    if id == "" then
      if ids == [] then ENTITY_NOT_FOUND else Json(request, 200, "OK", VectorText(ids))
    else match ValidInteger(id)
      case None => ID_NOT_FOUND
      case Some(i) =>
        match Lookup(s, entity, i)
        case None => ID_NOT_FOUND
        case Some(text) =>
          match Normalized(codec, text)
          case None => BAD_STORED_JSON
          case Some(data) => Json(request, 200, "OK", data)
  }

  function RespondPut<J>(codec: Codec<J>, s: Entities, entity: string, id: string, request: Request, opens: bool)
    : (Entities, Response)
  {
    if id == "" then (s, NO_ID_FOR_PUT)
    else match ValidInteger(id)
      case None => (s, ID_INVALID)
      case Some(i) =>
        if !IsJson(request.headers) then (s, NOT_JSON)
        else match Normalized(codec, request.body)
          case None => (s, BAD_JSON)
          case Some(data) =>
            if !opens then (s, PUT_FAILED)
            else if Lookup(s, entity, i).Some? then (Put(s, entity, i, data), Done(request, 200, "OK"))
            else (Put(s, entity, i, data), Done(request, 201, "Created"))
  }

  function RespondDelete(s: Entities, entity: string, id: string, request: Request): (Entities, Response) {
    if id == "" then (s, NO_ID_FOR_DELETE)
    else match ValidInteger(id)
      case None => (s, INVALID_ID)
      case Some(i) =>
        if Lookup(s, entity, i).Some? then (Drop(s, entity, i), Done(request, 204, "No Content"))
        else (s, ID_NOT_FOUND)
  }

  /** One request: the entities after it and the response. */
  ghost function Respond<J>(base: string, codec: Codec<J>, s: Entities, request: Request, opens: bool, ids: seq<Id>)
    : (Entities, Response)
  {
    var entity := ExtractEntity(base, request.uri);
    var id := ExtractId(base, request.uri);
    if entity == "" then (s, NO_ENTITY)
    else if request.verb == "POST" then RespondPost(codec, s, entity, request, opens)
    else if request.verb == "GET" then (s, RespondGet(codec, s, entity, id, request, ids))
    else if request.verb == "PUT" then RespondPut(codec, s, entity, id, request, opens)
    else if request.verb == "DELETE" then RespondDelete(s, entity, id, request)
    else (s, UNSUPPORTED_OPERATION)
  }

  /** A step of the handler; a listing may come in any order. */
  ghost predicate CrudStep<J>(base: string, codec: Codec<J>, s: Entities, request: Request, opens: bool,
                              s': Entities, res: Response)
  {
    exists ids :: Enumerates(ids, IdsIn(s, ExtractEntity(base, request.uri)))
                  && (s', res) == Respond(base, codec, s, request, opens, ids)
  }

  // ---------------------------------------------------------------------------
  // The file store, read as the entities it is related to.

  lemma CreateMeans(d: Directories, s: Entities, resource: string, data: string, opens: bool,
                    d': Directories, id: Option<Id>)
    requires Related(d, s) && RealStep(d, Create(resource, data), opens, d', Created(id))
    ensures var next := NextId(IdsIn(s, resource));
            if next.None? || !opens then id == None && Related(d', s)
            else id == next && Related(d', Put(s, resource, next.value, data))
  {
    hide Related, Stoi, ToString;
    var next := NextId(IdsIn(s, resource));
    if opens {
      var s' := if next.None? then s else Put(s, resource, next.value, data);
      StepSimulates(d, s, Create(resource, data), d', Created(id), s', Created(next));
    } else {
      FailedStepKeeps(d, s, Create(resource, data), d', Created(id));
    }
  }

  lemma RetrieveMeans(d: Directories, s: Entities, resource: string, id: Id, text: Option<string>)
    requires Related(d, s) && RealStep(d, Retrieve(resource, id), true, d, Retrieved(text))
    ensures text == Lookup(s, resource, id)
  {
    StepSimulates(d, s, Retrieve(resource, id), d, Retrieved(text), s, Retrieved(Lookup(s, resource, id)));
  }

  lemma UpdateMeans(d: Directories, s: Entities, resource: string, id: Id, data: string, opens: bool,
                    d': Directories, ok: bool)
    requires Related(d, s) && RealStep(d, Update(resource, id, data), opens, d', Updated(ok))
    ensures ok == opens && Related(d', if opens then Put(s, resource, id, data) else s)
  {
    hide Related, Stoi, ToString;
    if opens {
      StepSimulates(d, s, Update(resource, id, data), d', Updated(ok), Put(s, resource, id, data), Updated(true));
    } else {
      FailedStepKeeps(d, s, Update(resource, id, data), d', Updated(ok));
    }
  }

  lemma RemoveMeans(d: Directories, s: Entities, resource: string, id: Id, d': Directories, ok: bool)
    requires Related(d, s) && RealStep(d, Remove(resource, id), true, d', Removed(ok))
    ensures ok == Lookup(s, resource, id).Some? && Related(d', Drop(s, resource, id))
  {
    hide Related, Stoi, ToString;
    var there := Lookup(s, resource, id).Some?;
    StepSimulates(d, s, Remove(resource, id), d', Removed(ok), Drop(s, resource, id), Removed(there));
  }

  lemma ListMeans(d: Directories, s: Entities, resource: string, ids: seq<Id>)
    requires Related(d, s) && RealStep(d, List(resource), true, d, Listed(ids))
    ensures Enumerates(ids, IdsIn(s, resource))
  {
    hide SameFiles, Enumerates, Stoi, ParseAll;
    var names :| Enumerates(names, Files(d, resource).Keys) && ids == ParseAll(names);
    ListedIds(Files(d, resource), EntitiesAt(s, resource), names);
    assert IdsIn(s, resource) == EntitiesAt(s, resource).Keys;
  }

  lemma {:induction false} EnumerationExists(s: set<Id>) returns (ids: seq<Id>)
    ensures Enumerates(ids, s)
  {
    if s == {} {
      ids := [];
    } else {
      var id :| id in s;
      var rest := EnumerationExists(s - {id});
      ids := rest + [id];
    }
  }

  // ---------------------------------------------------------------------------
  // The handler.

  /** The listing after `n` ids have been written. */
  function Written(ids: seq<Id>, n: nat): string
    requires n <= |ids|
  {
    "[" + (Quoted(ids[..n]) + if 0 < n < |ids| then "," else "")
  }

  lemma WriteOne(ids: seq<Id>, i: nat)
    requires i < |ids|
    ensures Written(ids, i + 1) == Written(ids, i) + (Item(ids[i]) + if i < |ids| - 1 then "," else "")
  {
    hide ToString;
    var comma := if i < |ids| - 1 then "," else "";
    assert ids[..i + 1][..i] == ids[..i];
    if i == 0 {
      assert ids[..1] == [ids[0]];
      assert Quoted(ids[..0]) == "";
    } else {
      Regroup(Quoted(ids[..i]), ",", Item(ids[i]), comma);
    }
  }

  lemma Regroup(text: string, mark: string, item: string, comma: string)
    ensures "[" + (text + mark + item + comma) == "[" + (text + mark) + (item + comma)
  {
  }

  method VectorToJson(ids: seq<Id>) returns (text: string)
    ensures text == VectorText(ids)
  {
    text := "[";
    for i := 0 to |ids|
      invariant text == Written(ids, i)
    {
      WriteOne(ids, i);
      var item := "\"" + Decimal.ToString(ids[i]) + "\"";
      if i < |ids| - 1 {
        item := item + ",";
      }
      text := text + item;
    }
    assert ids[..|ids|] == ids;
    text := text + "]";
  }

  class CrudRequestHandler<J(!new)> {
    const baseUri: string
    const codec: Codec<J>
    const storage: RealEntityStorage
    ghost var entities: Entities

    /** A handler on an empty root. */
    constructor (baseUri: string, codec: Codec<J>)
      ensures Valid() && fresh(storage) && entities == map[]
      ensures this.baseUri == baseUri && this.codec == codec
    {
      this.baseUri := baseUri;
      this.codec := codec;
      storage := new RealEntityStorage();
      entities := map[];
      new;
      EmptyRelated();
    }

    /** The files hold the entities. */
    ghost predicate Valid()
      reads this, storage
    {
      Related(storage.directories, entities)
    }

    method HandlePost(request: Request, opens: bool) returns (res: Response)
      requires Valid()
      modifies this, storage
      ensures Valid()
      ensures (entities, res)
              == RespondPost(codec, old(entities), ExtractEntity(baseUri, request.uri), request, opens)
    {
      hide Related, RealStep;
      var entity := ExtractEntity(baseUri, request.uri);
      var json := IsJsonContentType(request);
      if !json {
        return UNSUPPORTED.(body := "Content-Type must be application/json");
      }
      var parsed := codec.parse(request.body);
      if parsed.None? {
        return BAD_REQUEST.(body := "Invalid JSON body");
      }
      var normalized := codec.serialize(parsed.value);
      ghost var before := storage.directories;
      var result := storage.Create(entity, normalized, opens);
      CreateMeans(before, entities, entity, normalized, opens, storage.directories, result);
      if result.None? {
        return SERVER_ERROR.(body := "Failed to create entity");
      }
      entities := Put(entities, entity, result.value, normalized);
      res := Response(VersionFor(request), 201, "Created", [Header("Content-Type", "application/json")],
                      "{\"id\": " + Decimal.ToString(result.value) + "}");
    }

    method HandleGet(request: Request) returns (res: Response, ghost ids: seq<Id>)
      requires Valid()
      ensures Enumerates(ids, IdsIn(entities, ExtractEntity(baseUri, request.uri)))
      ensures res == RespondGet(codec, entities, ExtractEntity(baseUri, request.uri),
                                ExtractId(baseUri, request.uri), request, ids)
    {
      hide Related, RealStep;
      var entity := ExtractEntity(baseUri, request.uri);
      var id := ExtractId(baseUri, request.uri);
      if id != "" {
        ids := EnumerationExists(IdsIn(entities, entity));
        var parsedId := Stoi(id);
        if parsedId.None? || parsedId.value.used != |id| {
          return NOT_FOUND.(body := "ID not found"), ids;
        }
        var result := storage.Retrieve(entity, parsedId.value.value);
        RetrieveMeans(storage.directories, entities, entity, parsedId.value.value, result);
        if result.None? {
          return NOT_FOUND.(body := "ID not found"), ids;
        }
        var parsed := codec.parse(result.value);
        if parsed.None? {
          return SERVER_ERROR.(body := "Stored JSON could not be parsed"), ids;
        }
        var normalized := codec.serialize(parsed.value);
        res := Response(VersionFor(request), 200, "OK", [Header("Content-Type", "application/json")], normalized);
      } else {
        var found := storage.List(entity);
        ids := found;
        ListMeans(storage.directories, entities, entity, found);
        if found == [] {
          return NOT_FOUND.(body := "Entity type not found"), ids;
        }
        var text := VectorToJson(found);
        res := Response(VersionFor(request), 200, "OK", [Header("Content-Type", "application/json")], text);
      }
    }

    method HandlePut(request: Request, opens: bool) returns (res: Response)
      requires Valid()
      modifies this, storage
      ensures Valid()
      ensures (entities, res)
              == RespondPut(codec, old(entities), ExtractEntity(baseUri, request.uri),
                            ExtractId(baseUri, request.uri), request, opens)
    {
      hide Related, RealStep;
      var entity := ExtractEntity(baseUri, request.uri);
      var id := ExtractId(baseUri, request.uri);
      if id == "" {
        return Response("", 405, "", [], "ID must be specified for PUT");
      }
      var parsedId := Stoi(id);
      if parsedId.None? || parsedId.value.used != |id| {
        return NOT_FOUND.(body := "ID invalid");
      }
      var json := IsJsonContentType(request);
      if !json {
        return UNSUPPORTED.(body := "Content-Type must be application/json");
      }
      var parsed := codec.parse(request.body);
      if parsed.None? {
        return BAD_REQUEST.(body := "Invalid JSON body");
      }
      var i := parsedId.value.value;
      var previous := storage.Retrieve(entity, i);
      RetrieveMeans(storage.directories, entities, entity, i, previous);
      var normalized := codec.serialize(parsed.value);
      ghost var before := storage.directories;
      var result := storage.Update(entity, i, normalized, opens);
      UpdateMeans(before, entities, entity, i, normalized, opens, storage.directories, result);
      if !result {
        return SERVER_ERROR.(body := "PUT failed");
      }
      entities := Put(entities, entity, i, normalized);
      if previous.Some? {
        res := Response(VersionFor(request), 200, "OK", [], "");
      } else {
        res := Response(VersionFor(request), 201, "Created", [], "");
      }
    }

    method HandleDelete(request: Request) returns (res: Response)
      requires Valid()
      modifies this, storage
      ensures Valid()
      ensures (entities, res)
              == RespondDelete(old(entities), ExtractEntity(baseUri, request.uri),
                               ExtractId(baseUri, request.uri), request)
    {
      hide Related, RealStep;
      var entity := ExtractEntity(baseUri, request.uri);
      var id := ExtractId(baseUri, request.uri);
      if id == "" {
        return Response("", 405, "", [], "ID must be specified for DELETE");
      }
      var parsedId := Stoi(id);
      if parsedId.None? || parsedId.value.used != |id| {
        return NOT_FOUND.(body := "Invalid ID");
      }
      ghost var before := storage.directories;
      var result := storage.Remove(entity, parsedId.value.value);
      RemoveMeans(before, entities, entity, parsedId.value.value, storage.directories, result);
      ghost var was := entities;
      entities := Drop(entities, entity, parsedId.value.value);
      if !result {
        DropAbsent(was, entity, parsedId.value.value);
        return NOT_FOUND.(body := "ID not found");
      }
      res := Response(VersionFor(request), 204, "No Content", [], "");
    }

    method HandleRequest(request: Request, opens: bool) returns (res: Response)
      requires Valid()
      modifies this, storage
      ensures Valid() && CrudStep(baseUri, codec, old(entities), request, opens, entities, res)
    {
      hide Related, RespondPost, RespondGet, RespondPut, RespondDelete, Enumerates, ExtractEntity;
      var entity := ExtractEntity(baseUri, request.uri);
      ghost var ids := EnumerationExists(IdsIn(entities, entity));
      if entity == "" {
        return BAD_REQUEST.(body := "Invalid URI: missing entity");
      }
      if request.verb == "POST" {
        res := HandlePost(request, opens);
      } else if request.verb == "GET" {
        res, ids := HandleGet(request);
      } else if request.verb == "PUT" {
        res := HandlePut(request, opens);
      } else if request.verb == "DELETE" {
        res := HandleDelete(request);
      } else {
        res := BAD_REQUEST.(body := "Unsupported operation or malformed request");
      }
    }
  }

  lemma DropAbsent(s: Entities, resource: string, id: Id)
    requires Lookup(s, resource, id).None?
    ensures Drop(s, resource, id) == s
  {
    if resource in s {
      assert s[resource] - {id} == s[resource];
    }
  }

  // ---------------------------------------------------------------------------
  // Runs refine a map from (entity, id) to normalised JSON.

  /** The request names this entity and this id. */
  predicate Targets(base: string, request: Request, entity: string, id: Id) {
    ExtractEntity(base, request.uri) == entity && ValidInteger(ExtractId(base, request.uri)) == Some(id)
  }

  predicate Succeeded(res: Response) {
    res.statusCode < 400
  }

  /** The request writes this key: the next id of its entity for POST, the id it names for PUT. */
  ghost predicate Writes(base: string, s: Entities, request: Request, res: Response, entity: string, id: Id) {
    && Succeeded(res)
    && ((request.verb == "POST" && ExtractEntity(base, request.uri) == entity && NextId(IdsIn(s, entity)) == Some(id))
        || (request.verb == "PUT" && Targets(base, request, entity, id)))
  }

  predicate Deletes(base: string, request: Request, res: Response, entity: string, id: Id) {
    Succeeded(res) && request.verb == "DELETE" && Targets(base, request, entity, id)
  }

  lemma FailuresChangeNothing<J>(base: string, codec: Codec<J>, s: Entities, request: Request, opens: bool,
                                 s': Entities, res: Response)
    requires CrudStep(base, codec, s, request, opens, s', res) && !Succeeded(res)
    ensures s' == s
  {
    hide ExtractEntity, ExtractId, ValidInteger, Enumerates, Lookup, Normalized, IsJson, VectorText, NextId, Put, Drop;
  }

  lemma LookupAfterPut(s: Entities, resource: string, id: Id, data: string, entity: string, i: Id)
    ensures Lookup(Put(s, resource, id, data), entity, i)
            == if entity == resource && i == id then Some(data) else Lookup(s, entity, i)
  {
  }

  lemma LookupAfterDrop(s: Entities, resource: string, id: Id, entity: string, i: Id)
    ensures Lookup(Drop(s, resource, id), entity, i)
            == if entity == resource && i == id then None else Lookup(s, entity, i)
  {
  }

  /**
   Each request acts on the entities as on a map from (entity, id) to JSON text:
   a write sets its key to the normalised body, a successful DELETE clears its
   key, and every other key is untouched.
   */
  lemma StepRefinesMap<J>(base: string, codec: Codec<J>, s: Entities, request: Request, opens: bool,
                          s': Entities, res: Response, entity: string, id: Id)
    requires CrudStep(base, codec, s, request, opens, s', res)
    ensures Lookup(s', entity, id) ==
            if Writes(base, s, request, res, entity, id) then Normalized(codec, request.body)
            else if Deletes(base, request, res, entity, id) then None
            else Lookup(s, entity, id)
  {
    hide ExtractEntity, ExtractId, ValidInteger, Enumerates, Lookup, Put, Drop, Normalized, IsJson, VectorText, NextId;
    var e := ExtractEntity(base, request.uri);
    var target := ValidInteger(ExtractId(base, request.uri));
    if request.verb == "POST" {
      var next := NextId(IdsIn(s, e));
      if next.Some? && Normalized(codec, request.body).Some? {
        LookupAfterPut(s, e, next.value, Normalized(codec, request.body).value, entity, id);
      }
    } else if target.Some? {
      LookupAfterDrop(s, e, target.value, entity, id);
      if Normalized(codec, request.body).Some? {
        LookupAfterPut(s, e, target.value, Normalized(codec, request.body).value, entity, id);
      }
    } else {
      EmptyIsNoInteger();
    }
  }

  lemma EmptyIsNoInteger()
    ensures ValidInteger("") == None
  {
  }

  /** Every stored text is normalised JSON. */
  ghost predicate AllNormal<J>(codec: Codec<J>, s: Entities) {
    forall entity, id :: Lookup(s, entity, id).Some? ==>
      Normalized(codec, Lookup(s, entity, id).value) == Lookup(s, entity, id)
  }

  lemma NormalizedTwice<J(!new)>(codec: Codec<J>, body: string)
    requires Faithful(codec) && Normalized(codec, body).Some?
    ensures var text := Normalized(codec, body).value; Normalized(codec, text) == Some(text)
  {
    var j := codec.parse(body).value;
    assert codec.parse(codec.serialize(j)) == Some(j);
  }

  lemma StepKeepsNormal<J(!new)>(base: string, codec: Codec<J>, s: Entities, request: Request, opens: bool,
                                 s': Entities, res: Response)
    requires Faithful(codec) && AllNormal(codec, s) && CrudStep(base, codec, s, request, opens, s', res)
    ensures AllNormal(codec, s')
  {
    hide CrudStep, Lookup, Writes, Deletes;
    if Normalized(codec, request.body).Some? {
      NormalizedTwice(codec, request.body);
    }
    forall entity, id | Lookup(s', entity, id).Some?
      ensures Normalized(codec, Lookup(s', entity, id).value) == Lookup(s', entity, id)
    {
      StepRefinesMap(base, codec, s, request, opens, s', res, entity, id);
    }
  }

  // ---------------------------------------------------------------------------
  // The answers.

  /** The canonical URI of a key, with any path behind it, targets the key. */
  lemma CanonicalUriTargets(base: string, request: Request, entity: string, id: Id, more: string)
    requires IsSegment(entity) && (more == "" || more[0] == '/')
    requires request.uri == IdUri(base, entity, ToString(id)) + more
    ensures Targets(base, request, entity, id)
  {
    hide Stoi, ToString, ExtractEntity, ExtractId;
    StoiReadsToString(id);
    ToStringAlphabet(id);
    ToStringNotEmpty(id);
    ExtractsFromIdUri(base, entity, ToString(id), more);
  }

  lemma ToStringNotEmpty(id: Id)
    ensures ToString(id) != ""
  {
    StoiReadsToString(id);
  }

  /**
   GET answers 200 with the text of the key, or 404; PUT of JSON answers 200
   exactly when the key existed and 201 otherwise; DELETE answers 204 exactly
   when it existed and 404 otherwise.
   */
  lemma AnswersTellMap<J(!new)>(base: string, codec: Codec<J>, s: Entities, request: Request, opens: bool,
                                s': Entities, res: Response, entity: string, id: Id)
    requires AllNormal(codec, s) && Targets(base, request, entity, id) && entity != ""
    requires CrudStep(base, codec, s, request, opens, s', res)
    ensures var there := Lookup(s, entity, id);
            var version := if request.valid then request.version else "HTTP/1.1";
            var missing := Response("HTTP/1.1", 404, "Not Found", [Header("Content-Type", "text/plain")],
                                    "ID not found");
            && (request.verb == "GET" && there.Some? ==>
                  res == Response(version, 200, "OK", [Header("Content-Type", "application/json")], there.value))
            && (request.verb == "PUT" && IsJson(request.headers) && codec.parse(request.body).Some? && opens ==>
                  res == if there.Some? then Response(version, 200, "OK", [], "")
                         else Response(version, 201, "Created", [], ""))
            && (request.verb == "DELETE" && there.Some? ==> res == Response(version, 204, "No Content", [], ""))
            && ((request.verb == "GET" || request.verb == "DELETE") && there.None? ==> res == missing)
  {
    hide ExtractEntity, ExtractId, ValidInteger, Enumerates, Lookup, IsJson;
    EmptyIsNoInteger();
  }

  /** The request would write, once it has passed the checks of its URI. */
  predicate WantsToWrite(base: string, request: Request) {
    ExtractEntity(base, request.uri) != ""
    && (request.verb == "POST" || (request.verb == "PUT" && ValidInteger(ExtractId(base, request.uri)).Some?))
  }

  /**
   400 for a URI without an entity, an unknown verb or a body that is not JSON; 405
   for PUT or DELETE without an id; 415 for a missing content type, looked at after
   the id.
   */
  lemma StatusTellsBadRequest<J>(base: string, codec: Codec<J>, s: Entities, request: Request, opens: bool,
                                 s': Entities, res: Response)
    requires CrudStep(base, codec, s, request, opens, s', res)
    ensures var entity, verb := ExtractEntity(base, request.uri), request.verb;
            && (res.statusCode == 400 <==>
                  entity == "" || (verb != "POST" && verb != "GET" && verb != "PUT" && verb != "DELETE")
                  || (WantsToWrite(base, request)
                      && IsJson(request.headers) && Normalized(codec, request.body).None?))
            && (res.statusCode == 405 <==>
                  entity != "" && (verb == "PUT" || verb == "DELETE") && ExtractId(base, request.uri) == "")
            && (res.statusCode == 415 <==> WantsToWrite(base, request) && !IsJson(request.headers))
  {
    hide ExtractEntity, ExtractId, ValidInteger, Enumerates, Lookup, Normalized, IsJson, VectorText, NextId, Put, Drop;
    EmptyIsNoInteger();
  }

  /** 404 for an id that is no integer or not there, or for an empty listing. */
  lemma StatusTellsNotFound<J>(base: string, codec: Codec<J>, s: Entities, request: Request, opens: bool,
                               s': Entities, res: Response)
    requires CrudStep(base, codec, s, request, opens, s', res)
    ensures var entity, text, verb := ExtractEntity(base, request.uri), ExtractId(base, request.uri), request.verb;
            var key := ValidInteger(text);
            res.statusCode == 404 <==>
              (entity != ""
               && if verb == "GET" && text == "" then IdsIn(s, entity) == {}
                  else if verb == "GET" || verb == "DELETE" then
                    text != "" && (key.None? || Lookup(s, entity, key.value).None?)
                  else verb == "PUT" && text != "" && key.None?)
  {
    hide ExtractEntity, ExtractId, ValidInteger, Enumerates, Lookup, Normalized, IsJson, VectorText, NextId, Put, Drop;
    var entity := ExtractEntity(base, request.uri);
    var ids :| Enumerates(ids, IdsIn(s, entity)) && (s', res) == Respond(base, codec, s, request, opens, ids);
    EmptyEnumeration(ids, IdsIn(s, entity));
  }

  /** 500 for a file that does not open or an exhausted id range, when everything else is right. */
  lemma StatusTellsServerError<J>(base: string, codec: Codec<J>, s: Entities, request: Request, opens: bool,
                                  s': Entities, res: Response)
    requires AllNormal(codec, s) && CrudStep(base, codec, s, request, opens, s', res)
    ensures res.statusCode == 500 <==>
              && WantsToWrite(base, request) && IsJson(request.headers) && Normalized(codec, request.body).Some?
              && (!opens || (request.verb == "POST" && INT_MAX in IdsIn(s, ExtractEntity(base, request.uri))))
  {
    hide ExtractEntity, ExtractId, ValidInteger, Enumerates, Lookup, Normalized, IsJson, VectorText, NextId, Put, Drop;
    EmptyIsNoInteger();
    NextIdIsFresh(IdsIn(s, ExtractEntity(base, request.uri)));
  }

  lemma EmptyEnumeration(ids: seq<Id>, s: set<Id>)
    requires Enumerates(ids, s)
    ensures ids == [] <==> s == {}
  {
    assert ids == [] || ids[0] in ids;
  }

  /** A POST of JSON to an entity creates the next id, and answers it, unless the last id is live. */
  lemma PostAnswers<J>(base: string, codec: Codec<J>, s: Entities, request: Request,
                       s': Entities, res: Response, entity: string)
    requires ExtractEntity(base, request.uri) == entity && entity != "" && request.verb == "POST"
    requires IsJson(request.headers) && codec.parse(request.body).Some?
    requires CrudStep(base, codec, s, request, true, s', res)
    ensures INT_MAX in IdsIn(s, entity) ==>
              res == Response("HTTP/1.1", 500, "Internal Server Error", [Header("Content-Type", "text/plain")],
                              "Failed to create entity")
    ensures INT_MAX !in IdsIn(s, entity) ==>
              exists id: Id ::
                && id >= 1 && (forall other :: other in IdsIn(s, entity) ==> other < id)
                && res == Response(if request.valid then request.version else "HTTP/1.1", 201, "Created",
                                   [Header("Content-Type", "application/json")], "{\"id\": " + ToString(id) + "}")
                && Lookup(s', entity, id) == Some(codec.serialize(codec.parse(request.body).value))
  {
    hide ExtractEntity, ExtractId, Enumerates, Lookup, IsJson, Put, ToString;
    var next := NextId(IdsIn(s, entity));
    NextIdIsFresh(IdsIn(s, entity));
    if next.Some? {
      LookupAfterPut(s, entity, next.value, Normalized(codec, request.body).value, entity, next.value);
    }
  }

  /** A GET of an entity without an id lists the live ids in some order, or answers 404 if there is none. */
  lemma ListAnswers<J>(base: string, codec: Codec<J>, s: Entities, request: Request, opens: bool,
                       s': Entities, res: Response, entity: string)
    requires ExtractEntity(base, request.uri) == entity && entity != "" && ExtractId(base, request.uri) == ""
    requires request.verb == "GET"
    requires CrudStep(base, codec, s, request, opens, s', res)
    ensures s' == s
    ensures if IdsIn(s, entity) == {} then
              res == Response("HTTP/1.1", 404, "Not Found", [Header("Content-Type", "text/plain")],
                              "Entity type not found")
            else
              exists ids ::
                Enumerates(ids, IdsIn(s, entity))
                && res == Response(if request.valid then request.version else "HTTP/1.1", 200, "OK",
                                   [Header("Content-Type", "application/json")], VectorText(ids))
  {
    hide ExtractEntity, ExtractId, VectorText;
    var ids :| Enumerates(ids, IdsIn(s, ExtractEntity(base, request.uri)))
               && (s', res) == Respond(base, codec, s, request, opens, ids);
    EmptyEnumeration(ids, IdsIn(s, entity));
  }

  lemma JsonIsPlain(request: Request)
    ensures forall body ::
              IsPlainResponse(Json(request, 200, "OK", body)) && IsPlainResponse(Json(request, 201, "Created", body))
  {
    hide IsPlainHeader;
    ContentTypesArePlain();
  }

  lemma EmptyIsPlain(request: Request)
    ensures IsPlainResponse(Done(request, 200, "OK")) && IsPlainResponse(Done(request, 201, "Created"))
    ensures IsPlainResponse(Done(request, 204, "No Content"))
    ensures IsPlainResponse(NO_ID_FOR_PUT) && IsPlainResponse(NO_ID_FOR_DELETE)
  {
  }

  /** Whatever is stored, any reader reads every response as it is meant. */
  lemma ResponsesAreReadAsMeant<J>(base: string, codec: Codec<J>, s: Entities, request: Request, opens: bool,
                                   s': Entities, res: Response, reader: Reader)
    requires CrudStep(base, codec, s, request, opens, s', res)
    ensures Sendable(res) && ReadAsMeant(reader, res)
  {
    ResponsesArePlain(base, codec, s, request, opens, s', res);
    PlainIsSendable(reader, res);
  }

  lemma ResponsesArePlain<J>(base: string, codec: Codec<J>, s: Entities, request: Request, opens: bool,
                             s': Entities, res: Response)
    requires CrudStep(base, codec, s, request, opens, s', res)
    ensures IsPlainResponse(res)
  {
    hide ExtractEntity, ExtractId, ValidInteger, Enumerates, Lookup, Normalized, IsJson, VectorText, NextId, Put, Drop;
    hide IsPlainResponse, Json, Done;
    JsonIsPlain(request);
    EmptyIsPlain(request);
    FailuresArePlain(res.body);
    RefusalsArePlain(res.body);
  }

  // ---------------------------------------------------------------------------
  // Whole runs.

  datatype Exchange = Exchange(request: Request, opens: bool, res: Response)

  /** The entities before each exchange, and after the last. */
  ghost predicate CrudRun<J>(base: string, codec: Codec<J>, ss: seq<Entities>, xs: seq<Exchange>) {
    && |ss| == |xs| + 1
    && forall i :: 0 <= i < |xs| ==> CrudStep(base, codec, ss[i], xs[i].request, xs[i].opens, ss[i + 1], xs[i].res)
  }

  ghost predicate TouchesKey(base: string, s: Entities, x: Exchange, entity: string, id: Id) {
    Writes(base, s, x.request, x.res, entity, id) || Deletes(base, x.request, x.res, entity, id)
  }

  lemma RunStaysNormal<J(!new)>(base: string, codec: Codec<J>, ss: seq<Entities>, xs: seq<Exchange>)
    requires Faithful(codec) && CrudRun(base, codec, ss, xs) && ss[0] == map[]
    ensures forall n :: 0 <= n <= |xs| ==> AllNormal(codec, ss[n])
  {
    hide CrudStep, AllNormal;
    EmptyIsNormal(codec);
    for n := 0 to |xs|
      invariant forall i :: 0 <= i <= n ==> AllNormal(codec, ss[i])
    {
      StepKeepsNormal(base, codec, ss[n], xs[n].request, xs[n].opens, ss[n + 1], xs[n].res);
    }
  }

  lemma EmptyIsNormal<J>(codec: Codec<J>)
    ensures AllNormal(codec, map[])
  {
  }

  /** A key keeps its text, or its absence, while no request writes or deletes it. */
  lemma {:induction false} UntouchedKeyStays<J>(base: string, codec: Codec<J>, ss: seq<Entities>, xs: seq<Exchange>,
                                                k: nat, n: nat, entity: string, id: Id)
    requires CrudRun(base, codec, ss, xs) && k <= n <= |xs|
    requires forall i :: k <= i < n ==> !TouchesKey(base, ss[i], xs[i], entity, id)
    ensures Lookup(ss[n], entity, id) == Lookup(ss[k], entity, id)
    decreases n - k
  {
    hide CrudStep, Lookup, Writes, Deletes;
    if k < n {
      assert !TouchesKey(base, ss[n - 1], xs[n - 1], entity, id);
      UntouchedKeyStays(base, codec, ss, xs, k, n - 1, entity, id);
      StepRefinesMap(base, codec, ss[n - 1], xs[n - 1].request, xs[n - 1].opens, ss[n], xs[n - 1].res, entity, id);
    }
  }

  /**
   Over a whole run from an empty store, GET of a key answers the normalised body
   of the last POST or PUT that wrote it, and 404 after a DELETE, until the next
   request that touches the key.
   */
  lemma GetAnswersLastWrite<J(!new)>(base: string, codec: Codec<J>, ss: seq<Entities>, xs: seq<Exchange>,
                                     k: nat, n: nat, entity: string, id: Id)
    requires Faithful(codec) && CrudRun(base, codec, ss, xs) && ss[0] == map[] && k < n < |xs|
    requires TouchesKey(base, ss[k], xs[k], entity, id)
    requires forall i :: k < i < n ==> !TouchesKey(base, ss[i], xs[i], entity, id)
    requires xs[n].request.verb == "GET" && Targets(base, xs[n].request, entity, id) && entity != ""
    ensures Writes(base, ss[k], xs[k].request, xs[k].res, entity, id) ==>
              && codec.parse(xs[k].request.body).Some?
              && xs[n].res.statusCode == 200
              && xs[n].res.headers == [Header("Content-Type", "application/json")]
              && xs[n].res.body == codec.serialize(codec.parse(xs[k].request.body).value)
    ensures Deletes(base, xs[k].request, xs[k].res, entity, id) ==>
              xs[n].res.statusCode == 404 && xs[n].res.body == "ID not found"
  {
    hide CrudStep, Lookup, AllNormal, Targets, TouchesKey;
    RunStaysNormal(base, codec, ss, xs);
    StepRefinesMap(base, codec, ss[k], xs[k].request, xs[k].opens, ss[k + 1], xs[k].res, entity, id);
    UntouchedKeyStays(base, codec, ss, xs, k + 1, n, entity, id);
    AnswersTellMap(base, codec, ss[n], xs[n].request, xs[n].opens, ss[n + 1], xs[n].res, entity, id);
    if Writes(base, ss[k], xs[k].request, xs[k].res, entity, id) {
      WritesJson(base, codec, ss[k], xs[k].request, xs[k].opens, ss[k + 1], xs[k].res, entity, id);
    }
  }

  lemma WritesJson<J>(base: string, codec: Codec<J>, s: Entities, request: Request, opens: bool,
                      s': Entities, res: Response, entity: string, id: Id)
    requires CrudStep(base, codec, s, request, opens, s', res) && Writes(base, s, request, res, entity, id)
    ensures Normalized(codec, request.body).Some? && !Deletes(base, request, res, entity, id)
  {
    hide ExtractEntity, ExtractId, ValidInteger, Enumerates, Normalized, IsJson;
    assert "POST" != "DELETE" && "PUT" != "DELETE";
  }
}
