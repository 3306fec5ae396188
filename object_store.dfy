/**
  The in-memory object store behind `/objects/{key}`: a dictionary, created
  empty when the process starts, mapping keys to JSON documents.  PUT
  stores the request body under the key, replacing whatever was there and
  answering with no body; GET answers `{key: value}` or `NotFoundError(key)`.
 */
module ObjectStore {
  import opened Wrappers

  /** A JSON document, as the request body decodes to. */
  datatype Json =
    | Null
    | Bool(b: bool)
    | Number(n: int)
    | Str(s: string)
    | Array(items: seq<Json>)
    | Object(fields: map<string, Json>)

  /** The answer to a GET: the `{key: value}` body, or the `NotFoundError`
      carrying the key. */
  datatype Reply<V> = Found(body: map<string, V>) | NotFound(key: string)

  datatype HttpMethod = Get | Put | Other(name: string)

  /** What a GET of `key` answers on the dictionary `objects`. */
  function Lookup<V>(objects: map<string, V>, key: string): (r: Reply<V>)
    ensures r.Found? <==> key in objects
    ensures r.Found? ==> r.body.Keys == {key} && r.body[key] == objects[key]
    ensures r.NotFound? ==> r.key == key
  {
    if key in objects then Found(map[key := objects[key]]) else NotFound(key)
  }

  /** The module-level `OBJECTS` dictionary and the handler that serves it. */
  class Store<V> {
    var objects: map<string, V>

    constructor ()
      ensures objects == map[]
    {
      objects := map[];
    }

    /** `OBJECTS[key] = value`. */
    method Put(key: string, value: V)
      modifies this
      ensures objects == old(objects)[key := value]
    {
      objects := objects[key := value];
    }

    /** `{key: OBJECTS[key]}`, or `NotFoundError(key)`. */
    method Get(key: string) returns (r: Reply<V>)
      ensures r == Lookup(objects, key)
    {
      r := Lookup(objects, key);
    }

    /** `my_object(key)`: a PUT stores `body` and returns nothing, a GET
        answers from the store and leaves it as it was.  The route is
        registered for GET and PUT only, so the framework never calls the
        handler with another method; were it called so, it would fall
        through both branches and return nothing.  The new store is `Serve`
        of the old one and this request, and `ServeStep` extends that to a
        run of calls, so `LastWriteWins` applies to any sequence of calls. */
    method Handle(m: HttpMethod, key: string, body: V) returns (r: Option<Reply<V>>)
      modifies this
      ensures m.Put? ==> r == None && objects == old(objects)[key := body]
      ensures m.Get? ==> r == Some(Lookup(old(objects), key)) && objects == old(objects)
      ensures m.Other? ==> r == None && objects == old(objects)
      ensures objects == Serve(old(objects), [Request(m, key, body)])
    {
      if m.Put? {
        Put(key, body);
        r := None;
      } else if m.Get? {
        var reply := Get(key);
        r := Some(reply);
      } else {
        r := None;
      }
    }
  }

  /** A request to the route: the method, the key and the decoded body. */
  datatype Request<V> = Request(m: HttpMethod, key: string, body: V)

  /** The keys some request among `requests` PUTs to. */
  function PutKeys<V>(requests: seq<Request<V>>): set<string>
  {
    set i | 0 <= i < |requests| && requests[i].m.Put? :: requests[i].key
  }

  /** The dictionary after serving `requests` in order.  No entry is ever
      deleted, and the only keys added are the ones some PUT wrote. */
  function Serve<V>(objects: map<string, V>, requests: seq<Request<V>>): (r: map<string, V>)
    ensures r.Keys == objects.Keys + PutKeys(requests)
    decreases |requests|
  {
    if |requests| == 0 then objects
    else
      var q := requests[|requests| - 1];
      var before := Serve(objects, requests[..|requests| - 1]);
      if q.m.Put? then before[q.key := q.body] else before
  }

  /** Serving one more request after a run is serving the longer run: a
      sequence of `Handle` calls leaves the store that `Serve` gives for the
      whole sequence. */
  lemma ServeStep<V>(objects: map<string, V>, requests: seq<Request<V>>, q: Request<V>)
    ensures Serve(Serve(objects, requests), [q]) == Serve(objects, requests + [q])
  {
    assert (requests + [q])[..|requests|] == requests;
  }

  /** The body of the last PUT to `key` among `requests`, if any. */
  function LastPut<V>(requests: seq<Request<V>>, key: string): Option<V>
    decreases |requests|
  {
    if |requests| == 0 then None
    else
      var q := requests[|requests| - 1];
      if q.m.Put? && q.key == key then Some(q.body)
      else LastPut(requests[..|requests| - 1], key)
  }

  /** After any run of requests, a GET of `key` sees the body of the last
      PUT to `key` (nothing merged), or, if there was none, what was there
      before: writes to other keys and GETs leave it alone. */
  lemma {:induction false} LastWriteWins<V>(objects: map<string, V>, requests: seq<Request<V>>, key: string)
    ensures Lookup(Serve(objects, requests), key) ==
      match LastPut(requests, key)
      case Some(v) => Found(map[key := v])
      case None => Lookup(objects, key)
    decreases |requests|
  {
    if |requests| > 0 {
      LastWriteWins(objects, requests[..|requests| - 1], key);
    }
  }

  /** PUT then GET of the same key gives back the stored value. */
  lemma PutThenGet<V>(objects: map<string, V>, key: string, v: V)
    ensures Lookup(objects[key := v], key) == Found(map[key := v])
  {
  }

  /** A second PUT replaces the first. */
  lemma PutOverwrites<V>(objects: map<string, V>, key: string, v1: V, v2: V)
    ensures objects[key := v1][key := v2] == objects[key := v2]
  {
  }

  /** A PUT leaves every other key as it was. */
  lemma PutFrames<V>(objects: map<string, V>, key: string, other: string, v: V)
    requires other != key
    ensures Lookup(objects[key := v], other) == Lookup(objects, other)
  {
  }

  /** The store starts empty, so no key is found before it is written. */
  lemma NothingBeforeFirstPut<V>(requests: seq<Request<V>>, key: string)
    requires LastPut(requests, key) == None
    ensures Lookup(Serve(map[], requests), key) == NotFound(key)
  {
    LastWriteWins(map[], requests, key);
  }

  /** PUT `/objects/foo` with `{"a": 1}`, then GET `/objects/foo` and GET
      `/objects/bar` on a fresh store. */
  method FooBarScenario() returns (put: Option<Reply<Json>>, foo: Option<Reply<Json>>, bar: Option<Reply<Json>>)
    ensures put == None
    ensures foo == Some(Found(map["foo" := Object(map["a" := Number(1)])]))
    ensures bar == Some(NotFound("bar"))
  {
    var store := new Store<Json>();
    var doc := Object(map["a" := Number(1)]);
    put := store.Handle(Put, "foo", doc);
    foo := store.Handle(Get, "foo", Null);
    bar := store.Handle(Get, "bar", Null);
  }
}
