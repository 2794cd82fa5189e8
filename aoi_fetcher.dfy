/** Item transactions against a STAC catalog's transaction endpoint.
 *
 *  A `TapiPayload` names a bearer token, a collection, a feature and the
 *  catalog's base URL. Each of the three transactions (create by POST,
 *  replace by PUT, delete by DELETE) builds one request, lets the retry
 *  wrapper re-send it while the transport fails, and maps the status code of
 *  the response that gets through to an outcome: a normal return, possibly
 *  after logging, or one of the typed errors.
 *
 *  The HTTP client, logging and JSON decoding are not modelled; the network
 *  is a sequence of attempt results handed in by the caller.
 */
module AoiFetcher {

  datatype Option<T> = None | Some(value: T)

  /** The `feature` field: a JSON object (only its string members matter
      here) or a bare item identifier. */
  datatype Feature = Obj(fields: map<string, string>) | Id(name: string)

  /** A decoded response body. The client never looks inside it: it is only
      logged or carried by the generic HTTP error. */
  type Json = string

  datatype TapiPayload = TapiPayload(
    bearer: string,
    collectionId: string,
    feature: Feature,
    osUrl: string)

  /** The three item transactions. */
  datatype Operation = Post | Put | Delete

  /** What goes on the wire: verb, target URL, JSON body (if any) and the
      value of the Authorization header. */
  datatype HttpRequest = HttpRequest(
    verb: string,
    url: string,
    json: Option<Feature>,
    authorization: string)

  /** The closed set of ways a transaction can end. The first three return
      normally; every other one is an exception escaping to the caller. */
  datatype Outcome =
    | Ok                                  // success, debug log only
    | LoggedError(body: Json)             // 400: logged at error level, swallowed
    | LoggedWarning(featureId: string)    // DELETE 404: logged as a warning, swallowed
    | AlreadyExists(featureId: string)    // AlreadyExistsError
    | NotFoundOnPost(featureId: string)   // NotFoundErrorOnPOST
    | NotFound(featureId: string)         // NotFoundError
    | GenericHttp(status: int, body: Json) // fastapi HTTPException
    | MissingId                           // KeyError: object feature without "id"
    | TransportFailure                    // httpx.HTTPError once retries are used up

  predicate Raises(o: Outcome) {
    !(o.Ok? || o.LoggedError? || o.LoggedWarning?)
  }

  /** httpx's `Response.is_success`: the 2xx range. */
  predicate IsSuccess(status: int) {
    200 <= status < 300
  }

  /** `TapiPayload.feature_id`: the object's "id" member, or the bare
      identifier itself. `None` stands for the KeyError raised when an
      object has no "id" member. */
  function FeatureId(f: Feature): (r: Option<string>)
    ensures r.Some? <==> f.Id? || "id" in f.fields
    ensures f.Id? ==> r == Some(f.name)
    ensures f.Obj? && r.Some? ==> r.value == f.fields["id"]
  {
    match f
    case Obj(m) => if "id" in m then Some(m["id"]) else None
    case Id(s) => Some(s)
  }

  /** `TapiPayload.tapi_path`: the collection's items endpoint. Its contract
      splits the URL back into its parts, so the base URL and the collection
      id can be read off it verbatim. */
  function TapiPath(p: TapiPayload): (r: string)
    ensures |r| == |p.osUrl| + |p.collectionId| + 20
    ensures r[..|p.osUrl|] == p.osUrl
    ensures r[|p.osUrl|..|p.osUrl| + 13] == "/collections/"
    ensures r[|p.osUrl| + 13..|r| - 7] == p.collectionId
    ensures r[|r| - 7..] == "/items/"
  {
    var r := p.osUrl + "/collections/" + p.collectionId + "/items/";
    assert r[..|p.osUrl|] == p.osUrl;
    assert r[|p.osUrl|..|p.osUrl| + 13] == "/collections/";
    assert r[|p.osUrl| + 13..|r| - 7] == p.collectionId;
    r
  }

  /** Within one catalog, two collections share an items endpoint only if
      they are the same collection. */
  lemma TapiPathInjective(p: TapiPayload, q: TapiPayload)
    requires p.osUrl == q.osUrl
    requires TapiPath(p) == TapiPath(q)
    ensures p.collectionId == q.collectionId
  {
    var u := |p.osUrl|;
    assert p.collectionId == TapiPath(p)[u + 13..|TapiPath(p)| - 7];
  }

  function Authorization(p: TapiPayload): string {
    "Bearer " + p.bearer
  }

  /** The request each transaction sends. `None` when building it raises:
      PUT and DELETE read `feature_id` while building the URL; POST does
      not, so it is always sent. */
  function Request(op: Operation, p: TapiPayload): (r: Option<HttpRequest>)
    ensures r.None? <==> op != Post && FeatureId(p.feature).None?
    ensures r.Some? ==> r.value.verb == match op case Post => "POST" case Put => "PUT" case Delete => "DELETE"
    ensures r.Some? ==> |r.value.authorization| >= 7
                        && r.value.authorization[..7] == "Bearer "
                        && r.value.authorization[7..] == p.bearer
    ensures r.Some? ==> (r.value.json.Some? <==> op != Delete)
    ensures r.Some? && r.value.json.Some? ==> r.value.json.value == p.feature
    ensures r.Some? ==> |TapiPath(p)| <= |r.value.url| && r.value.url[..|TapiPath(p)|] == TapiPath(p)
    ensures r.Some? && op == Post ==> r.value.url == TapiPath(p)
    ensures r.Some? && op != Post ==> r.value.url[|TapiPath(p)|..] == FeatureId(p.feature).value
  {
    match op
    case Post =>
      Some(HttpRequest("POST", TapiPath(p), Some(p.feature), Authorization(p)))
    case Put =>
      (match FeatureId(p.feature)
       case None => None
       case Some(id) => Some(HttpRequest("PUT", TapiPath(p) + id, Some(p.feature), Authorization(p))))
    case Delete =>
      (match FeatureId(p.feature)
       case None => None
       case Some(id) => Some(HttpRequest("DELETE", TapiPath(p) + id, None, Authorization(p))))
  }

  /** PUT and DELETE address distinct items of a collection by distinct
      URLs: the item URL determines the feature id. */
  lemma ItemUrlDeterminesId(op: Operation, p: TapiPayload, q: TapiPayload)
    requires op != Post
    requires p.osUrl == q.osUrl && p.collectionId == q.collectionId
    requires Request(op, p).Some? && Request(op, q).Some?
    requires Request(op, p).value.url == Request(op, q).value.url
    ensures FeatureId(p.feature) == FeatureId(q.feature)
  {
    assert TapiPath(p) == TapiPath(q);
    var n := |TapiPath(p)|;
    assert FeatureId(p.feature).value == Request(op, p).value.url[n..];
  }

  /** Reading `feature_id` on a path that logs or raises with it. */
  function WithId(featureId: Option<string>, o: Outcome): Outcome {
    if featureId.None? then MissingId else o
  }

  /** The status handling that follows the request in `async_post`,
      `async_put` and `async_delete`. `featureId` is the value of
      `feature_id` on this payload (`None`: reading it raises). Each branch
      that logs or raises with the id reads it, including the debug line
      that ends every path returning normally. */
  function Classify(op: Operation, status: int, featureId: Option<string>, body: Json): (o: Outcome)
    ensures featureId.Some? ==>
              (Raises(o) <==> !(IsSuccess(status) || status == 400 || (op == Delete && status == 404)))
    ensures o.Ok? <==> IsSuccess(status) && featureId.Some?
    ensures o.LoggedError? <==> status == 400 && featureId.Some?
    ensures o.LoggedError? ==> o.body == body
    ensures o.LoggedWarning? <==> op == Delete && status == 404 && featureId.Some?
    ensures o.AlreadyExists? <==> op == Post && status == 409 && featureId.Some?
    ensures o.NotFoundOnPost? <==> op == Post && status == 404 && featureId.Some?
    ensures o.NotFound? <==> op == Put && status == 404 && featureId.Some?
    ensures o.LoggedWarning? || o.AlreadyExists? || o.NotFoundOnPost? || o.NotFound? ==>
              featureId == Some(o.featureId)
    ensures o.GenericHttp? <==>
              !IsSuccess(status) && status != 400 && status != 404 && !(op == Post && status == 409)
    ensures o.GenericHttp? ==> o.status == status && o.body == body
    ensures o.MissingId? <==>
              featureId.None? && (IsSuccess(status) || status == 400 || status == 404 || (op == Post && status == 409))
    ensures !o.TransportFailure?
  {
    if IsSuccess(status) then
      WithId(featureId, Ok)
    else if status == 400 then
      WithId(featureId, LoggedError(body))
    else
      match op
      case Post =>
        if status == 409 then
          WithId(featureId, AlreadyExists(if featureId.Some? then featureId.value else ""))
        else if status == 404 then
          WithId(featureId, NotFoundOnPost(if featureId.Some? then featureId.value else ""))
        else
          GenericHttp(status, body)
      case Put =>
        if status == 404 then
          WithId(featureId, NotFound(if featureId.Some? then featureId.value else ""))
        else
          GenericHttp(status, body)
      case Delete =>
        if status == 404 then
          WithId(featureId, LoggedWarning(if featureId.Some? then featureId.value else ""))
        else
          GenericHttp(status, body)
  }

  /** One physical try: the transport failed (an httpx.HTTPError), or a
      response with a status and a body came back. */
  datatype Attempt = TransportError | Response(status: int, body: Json)

  /** What the retry wrapper hands on: nothing (retries used up), or the
      response of attempt number `attempt` (counting from 0). */
  datatype Exchange = Exhausted | Received(status: int, body: Json, attempt: nat)

  /** The retry wrapper around the HTTP call: re-send while the transport
      fails, at most `budget` tries in all. `attempts` lists what the network
      would give on successive tries; running out of it counts as exhausted. */
  function Retry(attempts: seq<Attempt>, budget: nat): (r: Exchange)
    ensures r.Received? ==>
              r.attempt < budget && r.attempt < |attempts|
              && attempts[r.attempt] == Response(r.status, r.body)
              && forall i :: 0 <= i < r.attempt ==> attempts[i].TransportError?
    ensures r.Exhausted? <==>
              forall i :: 0 <= i < budget && i < |attempts| ==> attempts[i].TransportError?
  {
    if budget == 0 || attempts == [] then
      Exhausted
    else
      match attempts[0]
      case Response(status, body) => Received(status, body, 0)
      case TransportError =>
        match Retry(attempts[1..], budget - 1)
        case Exhausted => Exhausted
        case Received(status, body, k) => Received(status, body, k + 1)
  }

  /** A whole transaction: build the request (which may raise before
      anything is sent), send it under the retry wrapper, classify the one
      response that gets through. */
  function Transact(op: Operation, p: TapiPayload, attempts: seq<Attempt>, budget: nat): (o: Outcome)
    ensures Request(op, p).None? ==> o == MissingId
    ensures o.TransportFailure? <==> Request(op, p).Some? && Retry(attempts, budget).Exhausted?
    ensures Request(op, p).Some? && !o.TransportFailure? ==> Retry(attempts, budget).Received?
  {
    if Request(op, p).None? then
      MissingId
    else
      match Retry(attempts, budget)
      case Exhausted => TransportFailure
      case Received(status, body, _) => Classify(op, status, FeatureId(p.feature), body)
  }

  /** PUT and DELETE of an object without "id" fail before any request:
      the outcome does not depend on the network at all. */
  lemma FailFastBeforeRequest(op: Operation, p: TapiPayload, attempts: seq<Attempt>, budget: nat)
    requires op != Post && p.feature.Obj? && "id" !in p.feature.fields
    ensures Request(op, p).None?
    ensures Transact(op, p, attempts, budget) == MissingId
  {
  }

  /** POST of an object without "id" is sent first; the missing id only
      shows once a response has come back, and a response with a status that
      takes the generic branch raises the HTTP error instead. */
  lemma PostMissingIdOnlyAfterResponse(p: TapiPayload, attempts: seq<Attempt>, budget: nat)
    requires p.feature.Obj? && "id" !in p.feature.fields
    ensures Request(Post, p).Some?
    ensures Transact(Post, p, attempts, budget) == MissingId ==> Retry(attempts, budget).Received?
    ensures Retry(attempts, budget).Exhausted? ==> Transact(Post, p, attempts, budget) == TransportFailure
    ensures var r := Retry(attempts, budget);
            r.Received? && !IsSuccess(r.status) && r.status !in {400, 404, 409} ==>
              Transact(Post, p, attempts, budget) == GenericHttp(r.status, r.body)
  {
  }

  /** Transport failures before the first response are invisible to the
      caller: the outcome is the classification of that response. */
  lemma {:induction false} RetriesAreTransparent(op: Operation, p: TapiPayload, failures: nat,
                                                 status: int, body: Json, rest: seq<Attempt>, budget: nat)
    requires failures < budget
    requires Request(op, p).Some?
    ensures Transact(op, p, seq(failures, _ => TransportError) + [Response(status, body)] + rest, budget)
            == Classify(op, status, FeatureId(p.feature), body)
  {
    var attempts := seq(failures, _ => TransportError) + [Response(status, body)] + rest;
    assert attempts[failures] == Response(status, body);
    var r := Retry(attempts, budget);
    assert r.Received?;
  }

  /** A transaction returns normally only on a real response: running out
      of retries never turns into a success. */
  lemma NoFabricatedSuccess(op: Operation, p: TapiPayload, attempts: seq<Attempt>, budget: nat)
    requires !Raises(Transact(op, p, attempts, budget))
    ensures Retry(attempts, budget).Received?
    ensures 0 < budget
    ensures IsSuccess(Retry(attempts, budget).status) || Retry(attempts, budget).status in {400, 404}
  {
  }

  /** Deleting an item that is already gone (404) never raises, so a second
      DELETE of the same item is harmless. */
  lemma DeleteOfAbsentItemReturnsNormally(p: TapiPayload, body: Json)
    requires FeatureId(p.feature).Some?
    ensures Classify(Delete, 404, FeatureId(p.feature), body) == LoggedWarning(FeatureId(p.feature).value)
    ensures !Raises(Classify(Delete, 404, FeatureId(p.feature), body))
  {
  }

  /** The 404 asymmetry: create blames the collection, replace blames the
      item, delete absorbs it. */
  lemma NotFoundByOperation(id: string, body: Json)
    ensures Classify(Post, 404, Some(id), body) == NotFoundOnPost(id)
    ensures Classify(Put, 404, Some(id), body) == NotFound(id)
    ensures Classify(Delete, 404, Some(id), body) == LoggedWarning(id)
  {
  }

  /** 409 is special only for POST; for PUT and DELETE it is a generic
      HTTP error carrying the status and body. */
  lemma ConflictByOperation(id: string, body: Json)
    ensures Classify(Post, 409, Some(id), body) == AlreadyExists(id)
    ensures Classify(Put, 409, Some(id), body) == GenericHttp(409, body)
    ensures Classify(Delete, 409, Some(id), body) == GenericHttp(409, body)
  {
  }

  /** A 400 is logged and swallowed by every operation. */
  lemma BadRequestNeverRaises(op: Operation, id: string, body: Json)
    ensures Classify(op, 400, Some(id), body) == LoggedError(body)
  {
  }
}
