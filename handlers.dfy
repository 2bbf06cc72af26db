/** The three HTTP handlers, `PUT`, `GET` and `DELETE` on `/v1/{key}`, reduced
    to what they decide: which store operation runs and which status code and
    body the response carries. Routing, the path variable and the request body
    stream are inputs: the key arrives already extracted, and the body arrives
    as the outcome of reading it. */
module Handlers {
  import opened KVStore

  const StatusOK := 200
  const StatusCreated := 201
  const StatusNotFound := 404
  const StatusInternalServerError := 500

  /** A piece of a response body: raw bytes written by the handler, or the
      text of an error followed by a newline, as `http.Error` writes it. */
  datatype Chunk = Bytes(bytes: string) | ErrorLine(err: Error)

  datatype Response = Response(status: int, body: seq<Chunk>)

  /** The request body as the PUT handler sees it after reading it whole. */
  datatype Body = BodyRead(bytes: string) | BodyReadFailed(err: Error)

  datatype Request =
    | PutRequest(key: string, body: Body)
    | GetRequest(key: string)
    | DeleteRequest(key: string)

  /** What a handler has in hand when it chooses its response: the verb is
      the constructor, the rest is what the store operation (or, for PUT, the
      body read before it) returned. */
  datatype Outcome =
    | PutBodyFailed(readErr: Error)
    | PutDone(putErr: Option<Error>)
    | GetDone(result: GetResult)
    | DeleteDone(deleteErr: Option<Error>)

  /** The handlers' decision from outcome to response. The not-found error
      gives 404, every other error 500, and success 201 for PUT and 200 for
      GET and DELETE. In the two error branches that cannot run (DELETE and
      GET with an error other than not-found) the handler writes the error
      and then goes on: a DELETE keeps the status 500, since the later
      200 is ignored, and a GET appends the value after the error text. */
  function Respond(o: Outcome): (r: Response)
    ensures r.status in {StatusOK, StatusCreated, StatusNotFound, StatusInternalServerError}
    ensures r.status == StatusCreated <==> o == PutDone(None)
    ensures r.status == StatusNotFound <==> o.GetDone? && IsNoSuchKey(o.result.err)
    ensures r.status == StatusOK <==> o == DeleteDone(None) || (o.GetDone? && o.result.err == None)
    ensures r.status == StatusInternalServerError <==>
              o.PutBodyFailed? || (o.PutDone? && o.putErr.Some?) || (o.DeleteDone? && o.deleteErr.Some?)
              || (o.GetDone? && o.result.err.Some? && !IsNoSuchKey(o.result.err))
    ensures o.GetDone? && o.result.err == None ==> r.body == [Bytes(o.result.value)]
    ensures o.GetDone? && IsNoSuchKey(o.result.err) ==> r.body == [ErrorLine(o.result.err.value)]
    ensures o.PutBodyFailed? ==> r.body == [ErrorLine(o.readErr)]
    ensures r.status in {StatusOK, StatusCreated} && !o.GetDone? ==> r.body == []
  {
    match o
    case PutBodyFailed(e) => Response(StatusInternalServerError, [ErrorLine(e)])
    case PutDone(err) =>
      if err.Some? then Response(StatusInternalServerError, [ErrorLine(err.value)])
      else Response(StatusCreated, [])
    case GetDone(GetResult(value, err)) =>
      if IsNoSuchKey(err) then Response(StatusNotFound, [ErrorLine(err.value)])
      else if err.Some? then Response(StatusInternalServerError, [ErrorLine(err.value), Bytes(value)])
      else Response(StatusOK, [Bytes(value)])
    case DeleteDone(err) =>
      if err.Some? then Response(StatusInternalServerError, [ErrorLine(err.value)])
      else Response(StatusOK, [])
  }

  /** The store after a request, and the response to it. */
  datatype Transition = Transition(store: map<string, string>, response: Response)

  /** One request served against a store holding `m`. */
  function Step(m: map<string, string>, req: Request): (t: Transition)
    // GET never changes the store, and a failed PUT leaves it untouched
    ensures req.GetRequest? || (req.PutRequest? && req.body.BodyReadFailed?) ==> t.store == m
    // a successful PUT stores the body under the key; DELETE removes the key
    ensures req.PutRequest? && req.body.BodyRead? ==>
              t.store == m[req.key := req.body.bytes] && t.response == Response(StatusCreated, [])
    ensures req.DeleteRequest? ==> t.store == m - {req.key} && t.response == Response(StatusOK, [])
    // GET answers 200 with the stored value, or 404 naming the key
    ensures req.GetRequest? && req.key in m ==> t.response == Response(StatusOK, [Bytes(m[req.key])])
    ensures req.GetRequest? && req.key !in m ==>
              t.response == Response(StatusNotFound, [ErrorLine(NoSuchKey(req.key))])
    // the only 500 is a PUT whose body could not be read
    ensures t.response.status == StatusInternalServerError <==> req.PutRequest? && req.body.BodyReadFailed?
  {
    match req
    case PutRequest(key, body) =>
      if body.BodyReadFailed? then Transition(m, Respond(PutBodyFailed(body.err)))
      else Transition(m[key := body.bytes], Respond(PutDone(None)))
    case GetRequest(key) => Transition(m, Respond(GetDone(Lookup(m, key))))
    case DeleteRequest(key) => Transition(m - {key}, Respond(DeleteDone(None)))
  }

  /** The PUT handler: read the body, then store it under the key. */
  method PutHandler(s: Store, key: string, body: Body) returns (resp: Response)
    modifies s
    ensures s.entries == Step(old(s.entries), PutRequest(key, body)).store
    ensures resp == Step(old(s.entries), PutRequest(key, body)).response
  {
    if body.BodyReadFailed? {
      return Response(StatusInternalServerError, [ErrorLine(body.err)]);
    }
    var err := s.Put(key, body.bytes);
    if err.Some? {
      // Put never fails, so this branch cannot run
      assert false;
    }
    resp := Response(StatusCreated, []);
  }

  /** The GET handler: look the key up and answer with the value or 404. */
  method GetHandler(s: Store, key: string) returns (resp: Response)
    ensures resp == Step(s.entries, GetRequest(key)).response
    ensures key in s.entries <==> resp.status == StatusOK
    ensures key !in s.entries <==> resp.status == StatusNotFound
  {
    var value, err := s.Get(key);
    if IsNoSuchKey(err) {
      return Response(StatusNotFound, [ErrorLine(err.value)]);
    } else if err.Some? {
      // Get fails only with the not-found error, so this branch cannot run
      assert false;
    }
    resp := Response(StatusOK, [Bytes(value)]);
  }

  /** The DELETE handler: remove the key and answer 200. */
  method DeleteHandler(s: Store, key: string) returns (resp: Response)
    modifies s
    ensures s.entries == Step(old(s.entries), DeleteRequest(key)).store
    ensures resp == Step(old(s.entries), DeleteRequest(key)).response
  {
    var err := s.Delete(key);
    if err.Some? {
      // Delete never fails, so this branch cannot run
      assert false;
    }
    resp := Response(StatusOK, []);
  }
}
