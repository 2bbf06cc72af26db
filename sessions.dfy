/** A run of the server: requests served one after another against the one
    store, which starts empty when the process starts. This is where the
    properties that relate several requests are stated (a value read back
    after it was written, a key gone after it was deleted). */
module Sessions {
  import opened KVStore
  import opened Handlers

  /** The store at the end of a run and the response to each request, in order. */
  datatype Session = Session(store: map<string, string>, responses: seq<Response>)

  /** Serves `reqs` in order against a store that holds `m` at the start. */
  function Serve(m: map<string, string>, reqs: seq<Request>): (s: Session)
    ensures |s.responses| == |reqs|
    ensures (forall i :: 0 <= i < |reqs| ==> reqs[i].GetRequest?) ==> s.store == m
    decreases |reqs|
  {
    if reqs == [] then Session(m, [])
    else
      var t := Step(m, reqs[0]);
      var rest := Serve(t.store, reqs[1..]);
      Session(rest.store, [t.response] + rest.responses)
  }

  /** The last thing a run did to one key: stored a value, or removed it. */
  datatype Write = Stored(value: string) | Removed

  /** How `req` changes `key`, if it does: a PUT whose body was read stores
      it, a DELETE removes the key; a GET and a failed PUT change nothing. */
  function WriteOf(req: Request, key: string): Option<Write>
  {
    match req
    case PutRequest(k, body) => if k == key && body.BodyRead? then Some(Stored(body.bytes)) else None
    case GetRequest(_) => None
    case DeleteRequest(k) => if k == key then Some(Removed) else None
  }

  /** The last write to `key` in `reqs`, found by scanning from the end. */
  function LastWrite(reqs: seq<Request>, key: string): (w: Option<Write>)
    ensures w == None <==> forall i :: 0 <= i < |reqs| ==> WriteOf(reqs[i], key) == None
  {
    if reqs == [] then None
    else
      var last := WriteOf(reqs[|reqs| - 1], key);
      if last.Some? then last else LastWrite(reqs[..|reqs| - 1], key)
  }

  /** What a GET of `key` returns after `w`, when it was `before` with no write. */
  function Seen(before: GetResult, key: string, w: Option<Write>): GetResult
  {
    match w
    case None => before
    case Some(Stored(v)) => GetResult(v, None)
    case Some(Removed) => GetResult("", Some(NoSuchKey(key)))
  }

  /** Serving one more request continues from where the run stopped. */
  lemma {:induction false} ServeSnoc(m: map<string, string>, reqs: seq<Request>, req: Request)
    ensures Serve(m, reqs + [req]).store == Step(Serve(m, reqs).store, req).store
    ensures Serve(m, reqs + [req]).responses
            == Serve(m, reqs).responses + [Step(Serve(m, reqs).store, req).response]
    decreases |reqs|
  {
    if reqs == [] {
      assert [] + [req] == [req];
    } else {
      var t := Step(m, reqs[0]);
      assert (reqs + [req])[0] == reqs[0];
      assert (reqs + [req])[1..] == reqs[1..] + [req];
      ServeSnoc(t.store, reqs[1..], req);
    }
  }

  /** Running `reqs` then `more` is one run over `reqs + more`. */
  lemma {:induction false} ServeAppend(m: map<string, string>, reqs: seq<Request>, more: seq<Request>)
    ensures Serve(m, reqs + more).store == Serve(Serve(m, reqs).store, more).store
    ensures Serve(m, reqs + more).responses
            == Serve(m, reqs).responses + Serve(Serve(m, reqs).store, more).responses
    decreases |reqs|
  {
    if reqs == [] {
      assert [] + more == more;
    } else {
      assert (reqs + more)[0] == reqs[0];
      assert (reqs + more)[1..] == reqs[1..] + more;
      ServeAppend(Step(m, reqs[0]).store, reqs[1..], more);
    }
  }

  /** Last write wins: after a run, a GET of `key` sees the last value
      stored under `key` or the not-found error if the last write removed
      it; a key the run never wrote reads as it did before the run. */
  lemma {:induction false} LastWriteWins(m: map<string, string>, reqs: seq<Request>, key: string)
    ensures Lookup(Serve(m, reqs).store, key) == Seen(Lookup(m, key), key, LastWrite(reqs, key))
    decreases |reqs|
  {
    if reqs != [] {
      var init, last := reqs[..|reqs| - 1], reqs[|reqs| - 1];
      assert init + [last] == reqs;
      ServeSnoc(m, init, last);
      LastWriteWins(m, init, key);
      var before := Serve(m, init).store;
      match last
      case PutRequest(k, body) =>
        if k != key && body.BodyRead? {
          PutFrame(before, k, body.bytes, key);
        }
      case GetRequest(_) =>
      case DeleteRequest(k) =>
        if k != key {
          DeleteFrame(before, k, key);
        }
    }
  }

  /** The i-th response is the one `Step` gives for the i-th request against
      the store that the requests before it left behind. */
  lemma {:induction false} ResponseAt(m: map<string, string>, reqs: seq<Request>, i: nat)
    requires i < |reqs|
    ensures Serve(m, reqs).responses[i] == Step(Serve(m, reqs[..i]).store, reqs[i]).response
  {
    assert reqs[..i] + reqs[i..] == reqs;
    ServeAppend(m, reqs[..i], reqs[i..]);
    assert |Serve(m, reqs[..i]).responses| == i;
  }

  /** In any run, a response is 500 exactly when its request is a PUT whose
      body could not be read; the 500 branches of the GET and DELETE
      handlers never answer. */
  lemma ServerErrorOnlyOnBodyReadFailure(m: map<string, string>, reqs: seq<Request>, i: nat)
    requires i < |reqs|
    ensures Serve(m, reqs).responses[i].status == StatusInternalServerError
            <==> reqs[i].PutRequest? && reqs[i].body.BodyReadFailed?
  {
    ResponseAt(m, reqs, i);
  }

  /** From a fresh store, a GET answers 200 with the last value PUT under its
      key, and 404 naming the key when the key was never written or its last
      write was a DELETE. */
  lemma GetAnswersLastWrite(reqs: seq<Request>, i: nat)
    requires i < |reqs| && reqs[i].GetRequest?
    ensures LastWrite(reqs[..i], reqs[i].key).Some? && LastWrite(reqs[..i], reqs[i].key).value.Stored? ==>
              Serve(map[], reqs).responses[i]
              == Response(StatusOK, [Bytes(LastWrite(reqs[..i], reqs[i].key).value.value)])
    ensures LastWrite(reqs[..i], reqs[i].key) in {None, Some(Removed)} ==>
              Serve(map[], reqs).responses[i] == Response(StatusNotFound, [ErrorLine(NoSuchKey(reqs[i].key))])
  {
    ResponseAt(map[], reqs, i);
    LastWriteWins(map[], reqs[..i], reqs[i].key);
  }

  /** The example run: PUT alice "42" answers 201, GET alice 200 with "42",
      DELETE alice 200, and GET alice then 404 naming alice. */
  lemma AliceRun()
    ensures Serve(map[], [PutRequest("alice", BodyRead("42")), GetRequest("alice"),
                          DeleteRequest("alice"), GetRequest("alice")]).responses
            == [Response(StatusCreated, []), Response(StatusOK, [Bytes("42")]),
                Response(StatusOK, []), Response(StatusNotFound, [ErrorLine(NoSuchKey("alice"))])]
  {
  }
}
