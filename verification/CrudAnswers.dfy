/**
 The CRUD handler in characters and fields: which part of a URI is the entity and
 which the id, which header counts, how ids are read and listed, and the text of
 every error.
 */
module CrudAnswers {
  import opened Options
  import opened Decimal
  import opened LineReader
  import opened Http
  import opened EntityStorage
  import opened Crud

  // ---------------------------------------------------------------------------
  // The URI.

  /** The pattern of the entity fits at the start of the text. */
  ghost predicate EntityFits(base: string, u: string) {
    exists e, more :: e != "" && '/' !in e && u == base + "/" + e + more
  }

  ghost predicate IdFits(base: string, u: string) {
    exists e, id, more :: e != "" && '/' !in e && id != "" && '/' !in id && u == base + "/" + e + "/" + id + more
  }

  lemma Parts(base: string, u: string, tail: string)
    requires u == base + "/" + tail
    ensures base + "/" <= u && u[|base| + 1..] == tail
  {
  }

  lemma NotFree(s: string)
    ensures Free(s, '/') <==> '/' !in s
  {
  }

  lemma {:induction false} SegmentStarts(s: string)
    ensures Segment(s) != "" <==> s != "" && s[0] != '/'
  {
  }

  lemma EntityHereMeans(base: string, u: string)
    ensures EntityHere(base, u) <==> EntityFits(base, u)
  {
    hide Segment;
    if EntityHere(base, u) {
      var tail := u[|base| + 1..];
      var e := Segment(tail);
      NotFree(e);
      assert tail == e + tail[|e|..];
      assert u == base + "/" + e + tail[|e|..];
    }
    if EntityFits(base, u) {
      var e, more :| e != "" && '/' !in e && u == base + "/" + e + more;
      assert u == base + "/" + (e + more);
      Parts(base, u, e + more);
      SegmentStarts(e + more);
      assert (e + more)[0] == e[0] && e[0] in e;
    }
  }

  lemma IdHereMeans(base: string, u: string)
    ensures IdHere(base, u) <==> IdFits(base, u)
  {
    hide Segment;
    if IdHere(base, u) {
      IdHereFits(base, u);
    }
    if IdFits(base, u) {
      var e, id, more :| e != "" && '/' !in e && id != "" && '/' !in id && u == base + "/" + e + "/" + id + more;
      var rest := id + more;
      NotFree(e);
      assert u == base + "/" + (e + ("/" + rest));
      Parts(base, u, e + ("/" + rest));
      SegmentIs(e, "/" + rest);
      assert (e + ("/" + rest))[|e|..] == "/" + rest && ("/" + rest)[1..] == rest;
      SegmentStarts(rest);
      assert rest[0] == id[0] && id[0] in id;
    }
  }

  lemma IdHereFits(base: string, u: string)
    requires IdHere(base, u)
    ensures IdFits(base, u)
  {
    hide IdHere, Segment;
    var e, rest := PartsOf(base, u);
    var id := Segment(rest);
    NotFree(e);
    NotFree(id);
    var more := rest[|id|..];
    assert rest == id + more;
    hide Free;
    PartsJoined(base, e, id, more);
    OnePlace(base, u, e, id, more);
  }

  lemma OnePlace(base: string, u: string, e: string, id: string, more: string)
    requires e != "" && '/' !in e && id != "" && '/' !in id && u == base + "/" + e + "/" + id + more
    ensures IdFits(base, u)
  {
  }

  lemma PartsJoined(base: string, e: string, id: string, more: string)
    ensures base + "/" + (e + ("/" + (id + more))) == base + "/" + e + "/" + id + more
  {
  }

  /** The searches pass over what is in front of the first place where their pattern fits. */
  lemma {:induction false} EntitySkips(base: string, p: string, u: string)
    requires forall k :: 0 <= k < |p| ==> !EntityFits(base, (p + u)[k..])
    ensures ExtractEntity(base, p + u) == ExtractEntity(base, u)
  {
    if p == "" {
      assert p + u == u;
    } else {
      EntityHereMeans(base, p + u);
      hide EntityHere, EntityFits, Segment;
      assert (p + u)[0..] == p + u && (p + u)[1..] == p[1..] + u;
      assert forall k :: 0 <= k < |p| - 1 ==> (p[1..] + u)[k..] == (p + u)[k + 1..];
      EntitySkips(base, p[1..], u);
    }
  }

  lemma {:induction false} IdSkips(base: string, p: string, u: string)
    requires forall k :: 0 <= k < |p| ==> !IdFits(base, (p + u)[k..])
    ensures ExtractId(base, p + u) == ExtractId(base, u)
  {
    if p == "" {
      assert p + u == u;
    } else {
      IdHereMeans(base, p + u);
      hide IdHere, IdFits, Segment;
      assert (p + u)[0..] == p + u && (p + u)[1..] == p[1..] + u;
      assert forall k :: 0 <= k < |p| - 1 ==> (p[1..] + u)[k..] == (p + u)[k + 1..];
      IdSkips(base, p[1..], u);
    }
  }

  /** The entity is the whole segment at the first place where its pattern fits. */
  lemma EntityIsLeftmost(base: string, p: string, e: string, more: string)
    requires e != "" && '/' !in e && (more == "" || more[0] == '/')
    requires forall k :: 0 <= k < |p| ==> !EntityFits(base, (p + (base + "/" + e + more))[k..])
    ensures ExtractEntity(base, p + (base + "/" + e + more)) == e
  {
    hide EntityFits, ExtractEntity;
    EntitySkips(base, p, base + "/" + e + more);
    EntityInFront(base, e, more);
  }

  lemma EntityInFront(base: string, e: string, more: string)
    requires e != "" && '/' !in e && (more == "" || more[0] == '/')
    ensures ExtractEntity(base, base + "/" + e + more) == e
  {
    var u := base + "/" + e + more;
    NotFree(e);
    SegmentIs(e, more);
    assert u == base + "/" + (e + more);
    Parts(base, u, e + more);
    hide Segment;
    assert EntityHere(base, u);
  }

  /** The id is the whole segment behind the entity at the first place where its own pattern fits. */
  lemma IdIsLeftmost(base: string, p: string, e: string, id: string, more: string)
    requires e != "" && '/' !in e && id != "" && '/' !in id && (more == "" || more[0] == '/')
    requires forall k :: 0 <= k < |p| ==> !IdFits(base, (p + (base + "/" + e + "/" + id + more))[k..])
    ensures ExtractId(base, p + (base + "/" + e + "/" + id + more)) == id
  {
    hide IdFits, ExtractId;
    IdSkips(base, p, base + "/" + e + "/" + id + more);
    NotFree(e);
    NotFree(id);
    ExtractsFromIdUri(base, e, id, more);
  }

  /** Where a pattern fits nowhere, there is no entity, or no id. */
  lemma {:induction false} NothingFits(base: string, u: string)
    ensures (forall k :: 0 <= k <= |u| ==> !EntityFits(base, u[k..])) ==> ExtractEntity(base, u) == ""
    ensures (forall k :: 0 <= k <= |u| ==> !IdFits(base, u[k..])) ==> ExtractId(base, u) == ""
  {
    EntityHereMeans(base, u);
    IdHereMeans(base, u);
    hide EntityHere, IdHere, EntityFits, IdFits, Segment;
    assert u[0..] == u;
    if u != "" {
      NothingFits(base, u[1..]);
      assert forall k :: 0 <= k <= |u| - 1 ==> u[1..][k..] == u[k + 1..];
    }
  }

  // ---------------------------------------------------------------------------
  // The content type.

  /** The name of the header, each letter small or capital. */
  predicate IsContentType(name: string) {
    |name| == 12 && forall i :: 0 <= i < 12 ==> name[i] == "content-type"[i] || name[i] == "CONTENT-TYPE"[i]
  }

  lemma LowerLetter(c: char, l: char)
    requires 'a' <= l <= 'z'
    ensures Lower(c) == l <==> c == l || c == l - 32 as char
  {
  }

  lemma LowerOther(c: char)
    ensures Lower(c) == '-' <==> c == '-'
  {
  }

  lemma NamesAgree(i: nat)
    requires i < 12
    ensures Lower("Content-Type"[i]) == "content-type"[i]
    ensures i != 7 ==> 'a' <= "content-type"[i] <= 'z' && "CONTENT-TYPE"[i] == "content-type"[i] - 32 as char
    ensures i == 7 ==> "content-type"[i] == "CONTENT-TYPE"[i] == '-'
  {
  }

  lemma ContentTypeIs(name: string)
    ensures ToLower(name) == ToLower("Content-Type") <==> IsContentType(name)
  {
    var given, wanted := ToLower(name), ToLower("Content-Type");
    assert |"Content-Type"| == |wanted| == 12 && |given| == |name|;
    forall i | 0 <= i < 12 && |name| == 12
      ensures given[i] == wanted[i] <==> name[i] == "content-type"[i] || name[i] == "CONTENT-TYPE"[i]
    {
      NamesAgree(i);
      if i == 7 {
        LowerOther(name[i]);
      } else {
        LowerLetter(name[i], "content-type"[i]);
      }
    }
  }

  /** The first header of that name decides, by its whole value. */
  lemma {:induction false} ContentTypeDecides(before: seq<Header>, h: Header, more: seq<Header>)
    requires (forall i :: 0 <= i < |before| ==> !IsContentType(before[i].name)) && IsContentType(h.name)
    ensures IsJson(before + [h] + more) <==> h.value == "application/json"
  {
    hide IsContentType, ToLower;
    var all := before + [h] + more;
    if before == [] {
      ContentTypeIs(h.name);
      assert all[0] == h;
    } else {
      ContentTypeIs(before[0].name);
      ContentTypeDecides(before[1..], h, more);
      assert all[0] == before[0] && all[1..] == before[1..] + [h] + more;
    }
  }

  /** Without one the request is not JSON. */
  lemma {:induction false} NoContentType(headers: seq<Header>)
    requires forall i :: 0 <= i < |headers| ==> !IsContentType(headers[i].name)
    ensures !IsJson(headers)
  {
    hide IsContentType, ToLower;
    if headers != [] {
      ContentTypeIs(headers[0].name);
      NoContentType(headers[1..]);
    }
  }

  // ---------------------------------------------------------------------------
  // Ids and JSON.

  /** An id is an integer that the whole text is read as. */
  lemma IdIs(text: string, id: Id, more: string)
    ensures ValidInteger(text) == Some(id) <==> Stoi(text) == Some(Parsed(id, |text|))
    ensures ValidInteger(ToString(id)) == Some(id)
    ensures more != "" && (more[0] < '0' || '9' < more[0]) ==> ValidInteger(ToString(id) + more) == None
  {
    hide Stoi, ToString;
    StoiReadsToString(id);
    if more != "" && (more[0] < '0' || '9' < more[0]) {
      StoiReadsFirst(id, more);
    }
  }

  /** The ids in quotes, with commas between them, in brackets. */
  lemma ListingIs(ids: seq<Id>, id: Id)
    ensures VectorText([]) == "[]" && VectorText([id]) == "[\"" + ToString(id) + "\"]"
    ensures ids != [] ==>
              var text := VectorText(ids);
              text != "" && VectorText(ids + [id]) == text[..|text| - 1] + ",\"" + ToString(id) + "\"]"
  {
    hide ToString;
    if ids != [] {
      assert (ids + [id])[..|ids|] == ids;
      assert VectorText(ids)[..|VectorText(ids)| - 1] == "[" + Quoted(ids);
    }
  }

  /** What is stored is the body, read and written again. */
  lemma NormalizedIs<J>(codec: Codec<J>, body: string)
    ensures codec.parse(body).Some? ==>
              Normalized(codec, body) == Some(codec.serialize(codec.parse(body).value))
    ensures codec.parse(body).None? ==> Normalized(codec, body) == None
  {
  }

  // ---------------------------------------------------------------------------
  // The errors.

  /** A URI without an entity, and a verb of no operation. */
  lemma UriErrors<J>(base: string, codec: Codec<J>, s: Entities, request: Request, opens: bool,
                     s': Entities, res: Response)
    requires CrudStep(base, codec, s, request, opens, s', res)
    ensures var entity, verb := ExtractEntity(base, request.uri), request.verb;
            && (entity == "" ==>
                  s' == s && res == Response("HTTP/1.1", 400, "Bad Request", [Header("Content-Type", "text/plain")],
                                             "Invalid URI: missing entity"))
            && (entity != "" && verb != "POST" && verb != "GET" && verb != "PUT" && verb != "DELETE" ==>
                  s' == s && res == Response("HTTP/1.1", 400, "Bad Request", [Header("Content-Type", "text/plain")],
                                             "Unsupported operation or malformed request"))
  {
    hide ExtractEntity, ExtractId, Enumerates, RespondPost, RespondGet, RespondPut, RespondDelete;
  }

  /** A POST, or a PUT with an id, that is not JSON by its header or by its body. */
  lemma BodyErrors<J>(base: string, codec: Codec<J>, s: Entities, request: Request, opens: bool,
                      s': Entities, res: Response)
    requires CrudStep(base, codec, s, request, opens, s', res) && ExtractEntity(base, request.uri) != ""
    requires request.verb == "POST"
             || (request.verb == "PUT" && ValidInteger(ExtractId(base, request.uri)).Some?)
    ensures !IsJson(request.headers) ==>
              s' == s && res == Response("HTTP/1.1", 415, "Unsupported Media Type",
                                         [Header("Content-Type", "text/plain")],
                                         "Content-Type must be application/json")
    ensures IsJson(request.headers) && codec.parse(request.body).None? ==>
              s' == s && res == Response("HTTP/1.1", 400, "Bad Request", [Header("Content-Type", "text/plain")],
                                         "Invalid JSON body")
  {
    hide ExtractEntity, ExtractId, ValidInteger, Enumerates, IsJson, RespondGet, RespondDelete, NextId, Lookup, Put;
    EmptyIsNoInteger();
  }

  /** An id that is missing, or no integer. */
  lemma IdErrors<J>(base: string, codec: Codec<J>, s: Entities, request: Request, opens: bool,
                    s': Entities, res: Response)
    requires CrudStep(base, codec, s, request, opens, s', res) && ExtractEntity(base, request.uri) != ""
    requires ValidInteger(ExtractId(base, request.uri)).None?
    ensures var id, verb := ExtractId(base, request.uri), request.verb;
            var type_ := [Header("Content-Type", "text/plain")];
            && (verb == "GET" && id != "" ==>
                  s' == s && res == Response("HTTP/1.1", 404, "Not Found", type_, "ID not found"))
            && (verb == "PUT" && id != "" ==>
                  s' == s && res == Response("HTTP/1.1", 404, "Not Found", type_, "ID invalid"))
            && (verb == "DELETE" && id != "" ==>
                  s' == s && res == Response("HTTP/1.1", 404, "Not Found", type_, "Invalid ID"))
            && (verb == "PUT" && id == "" ==>
                  s' == s && res == Response("", 405, "", [], "ID must be specified for PUT"))
            && (verb == "DELETE" && id == "" ==>
                  s' == s && res == Response("", 405, "", [], "ID must be specified for DELETE"))
  {
    hide ExtractEntity, ExtractId, ValidInteger, Enumerates, IsJson, Lookup, Put, Drop, RespondPost, VectorText;
  }

  /** A good write whose file does not open. */
  lemma StoreErrors<J>(base: string, codec: Codec<J>, s: Entities, request: Request, s': Entities, res: Response)
    requires CrudStep(base, codec, s, request, false, s', res) && ExtractEntity(base, request.uri) != ""
    requires IsJson(request.headers) && codec.parse(request.body).Some?
    ensures request.verb == "POST" ==>
              s' == s && res == Response("HTTP/1.1", 500, "Internal Server Error",
                                         [Header("Content-Type", "text/plain")], "Failed to create entity")
    ensures request.verb == "PUT" && ValidInteger(ExtractId(base, request.uri)).Some? ==>
              s' == s && res == Response("HTTP/1.1", 500, "Internal Server Error",
                                         [Header("Content-Type", "text/plain")], "PUT failed")
  {
    hide ExtractEntity, ExtractId, ValidInteger, Enumerates, IsJson, RespondGet, RespondDelete, NextId, Lookup, Put;
    EmptyIsNoInteger();
  }

  /** A stored text is read and written again; one that cannot be read is an error. */
  lemma StoredTextIsRead<J>(base: string, codec: Codec<J>, s: Entities, request: Request, opens: bool,
                            s': Entities, res: Response, entity: string, id: Id)
    requires CrudStep(base, codec, s, request, opens, s', res) && request.verb == "GET"
    requires Targets(base, request, entity, id) && entity != "" && entity in s && id in s[entity]
    ensures s' == s
    ensures codec.parse(s[entity][id]).Some? ==>
              res == Response(if request.valid then request.version else "HTTP/1.1", 200, "OK",
                              [Header("Content-Type", "application/json")],
                              codec.serialize(codec.parse(s[entity][id]).value))
    ensures codec.parse(s[entity][id]).None? ==>
              res == Response("HTTP/1.1", 500, "Internal Server Error", [Header("Content-Type", "text/plain")],
                              "Stored JSON could not be parsed")
  {
    hide ExtractEntity, ExtractId, ValidInteger, Enumerates, IsJson, RespondPost, RespondPut, RespondDelete, VectorText;
    EmptyIsNoInteger();
  }
}
