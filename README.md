# Chalice demo app: the object store, the city directory and the origin allow-list

This project models the three pieces of logic in the Chalice demo
application `app.py` and proves their contracts in Dafny 4.11.

- **Object store** (`/objects/{key}`, module `ObjectStore`). The module-level
  dictionary `OBJECTS` becomes the class `ObjectStore.Store<V>`. Its one field
  is `objects: map<string, V>`, and the store starts empty. `Put` overwrites
  the entry for a key in place. `Get` answers `Found({key: value})` or
  `NotFound(key)`, which stands for `NotFoundError(key)`. `Handle` is the
  route handler `my_object`: a PUT returns nothing and a GET returns the
  lookup. The route is registered for GET and PUT only (app.py:86), so the
  framework never calls the handler with another method; the `Other` case
  only records that the body would then fall through and return nothing.
  `Serve` replays a sequence of requests on the pure map, and `ServeStep`
  shows that a run of `Handle` calls leaves the store `Serve` gives.
  `LastWriteWins` proves that after any such sequence a GET sees the last
  PUT to its key, or what was there before.
  The example values are JSON documents (`ObjectStore.Json`).
- **City directory** (`/cities/{city}`, module `Cities`). `CITIES_TO_STATE`
  is an ordered sequence of pairs, so the key order of the error message is
  kept. The lookup is by exact key. An unknown city gets the
  `BadRequestError` message `Unknown city '<city.title()>', valid choices are
  : <keys title-cased, joined by ", ">`. The contract of `ValidChoices`
  states that splitting the choices list at `", "` gives back every
  title-cased key once, in insertion order.
- **Origin allow-list** (`/cors_multiple_origins`, module `Cors`). A missing
  `origin` header counts as `''`. An origin in `_ALLOWED_ORIGINS` (exact
  string membership) gets a `Response` with the fixed body and an
  `Access-Control-Allow-Origin` header that echoes the origin. Any other
  origin gets the bare string `The origin you sent has not been whitelisted:
  <origin>\n`.
- **Python string operations** (module `PyStr`). `str.title()` is modelled
  on ASCII and `sep.join(parts)` is modelled. The application never calls
  `str.split`. `PyStr.Split` is defined on its own, as Python's leftmost
  non-overlapping split, only to state a property of `join`: `SplitJoin`
  proves that splitting undoes joining when no part contains the first
  character of the separator.

The city lookup is case-sensitive: app.py:73 indexes `CITIES_TO_STATE`
with the path parameter as given, so `"Seattle"` is refused
(`Cities.CapitalisedCityRejected`), and the message then lists `Seattle`
among the valid choices.

## Model

| member | source | states |
|---|---|---|
| `ObjectStore.Lookup` | app.py:92-96 | a GET finds the key exactly when it is stored; on success the body has only that key, mapped to the stored value; otherwise the error carries the key |
| `ObjectStore.Store.constructor` | app.py:11 | the store starts empty |
| `ObjectStore.Store.Put` | app.py:91 | the new dictionary is the old one with `key` set to the value; nothing else changes |
| `ObjectStore.Store.Get` | app.py:93-96 | answers what `Lookup` gives on the current store: `{key: value}` for a stored key, `NotFound(key)` for an absent one; it changes nothing |
| `ObjectStore.Store.Handle` | app.py:86-96 | PUT stores the body and returns nothing; GET returns the lookup on the old store and leaves it unchanged; a method the route does not accept would return nothing and change nothing; the new store is `Serve` of the old store and this one request |
| `ObjectStore.Serve` | app.py:90-91 | after a run of requests the store holds the original keys plus exactly the keys some PUT wrote; no entry is ever deleted |
| `ObjectStore.ServeStep` | app.py:86-96 | serving one more request after a run gives the store of the longer run, so a sequence of `Handle` calls is described by `Serve` |
| `ObjectStore.LastWriteWins` | app.py:90-94 | after any sequence of requests, a GET of a key sees the body of the last PUT to that key, not merged, or the original entry if no PUT wrote to it |
| `ObjectStore.PutThenGet` | app.py:90-94 | a GET after a PUT of `v` at `key` returns `{key: v}` |
| `ObjectStore.PutOverwrites` | app.py:91 | a second PUT at a key replaces the first |
| `ObjectStore.PutFrames` | app.py:91 | a PUT at a key leaves the answer for every other key unchanged |
| `ObjectStore.NothingBeforeFirstPut` | app.py:92-96 | on the initially empty store, a key that no PUT wrote to is not found, and the error carries the key |
| `ObjectStore.FooBarScenario` | app.py:86-96 | on a fresh store, PUT `foo` with `{"a": 1}` returns nothing, GET `foo` returns `{"foo": {"a": 1}}`, and GET `bar` is not found |
| `Cities.Lookup` | app.py:73 | the dictionary lookup succeeds exactly when the literal key is present, and the value it returns is stored with that key |
| `Cities.LookupFindsEntry` | app.py:73 | in a table with distinct keys, looking up any entry's key returns that entry's value |
| `Cities.TitledKeys` | app.py:77 | the list comprehension has one element per key, the key title-cased, in insertion order |
| `Cities.UnknownCityMessage` | app.py:76 | the error message begins with `Unknown city '` |
| `Cities.StateOfCityIn` | app.py:72-78 | the handler returns a state body exactly when the city is literally a key of the table |
| `Cities.StateOfCity` | app.py:70-78 | over the fixed directory, a state body is returned exactly for the literal keys `seattle` and `portland`, with `WA` and `OR` |
| `Cities.StateOfCityFound` | app.py:73 | the handler returns `{'state': s}` exactly when `(city, s)` is an entry of the directory; there is no case normalisation |
| `Cities.UnknownCityRejected` | app.py:74-78 | an unknown city gets `BadRequest` with the title-cased city followed by the comma-joined title-cased keys |
| `Cities.ValidChoices` | app.py:77 | when the table is non-empty and no key contains a comma, splitting the choices list at `", "` gives every title-cased key exactly once, in insertion order |
| `Cities.UnknownCityMessageEndsWithChoices` | app.py:76-77 | the error message ends with the choices list |
| `Cities.DirectoryIsDictionary` | app.py:12-15 | the fixed directory has distinct keys |
| `Cities.SeattleIsWashington` | app.py:12-15 | `seattle` gives `{'state': 'WA'}` |
| `Cities.PortlandIsOregon` | app.py:12-15 | `portland` gives `{'state': 'OR'}` |
| `Cities.DirectoryChoices` | app.py:77 | the valid choices of the fixed directory read `Seattle, Portland` |
| `Cities.CapitalisedCityRejected` | app.py:73-78 | `Seattle` is not a key, so it is rejected with the message `Unknown city 'Seattle', valid choices are : Seattle, Portland` |
| `Cities.UnknownCityChicago` | app.py:74-78 | `chicago` is rejected with the message `Unknown city 'Chicago', valid choices are : Seattle, Portland` |
| `Cors.OriginOf` | app.py:54 | the origin is the `origin` header's value, or `''` when the request has none |
| `Cors.SupportsCorsMultipleOrigins` | app.py:52-62 | the reply is a `Response` exactly when the request's `origin` header is listed, with the fixed body and only the CORS header, equal to that origin; otherwise it is the denial text for the origin sent, or for `''` |
| `Cors.CheckOrigin` | app.py:55-62 | an origin is allowed exactly when it is in the allow-list; the allowed reply has the fixed body and only the `Access-Control-Allow-Origin` header, equal to the origin; the denial is the fixed text followed by the origin and a newline |
| `Cors.AllowedExactlyWhenListed` | app.py:54-60 | a reply allows origin `o` exactly when the request's `origin` header is `o` and `o` is listed |
| `Cors.NeverAllowsUnlisted` | app.py:55-60 | whatever the request headers, a CORS header in the reply names a listed origin |
| `Cors.DenialNamesOrigin` | app.py:61-62 | an unlisted origin is denied, and the origin can be read back verbatim from the denial text |
| `Cors.MissingOriginDenied` | app.py:54 | without an `origin` header the origin is `''`, which is denied with the text for the empty origin |
| `Cors.ListedOriginAllowed` | app.py:27-30 | `http://allowed1.example.com` is allowed and echoed in the header |
| `Cors.UnlistedOriginDenied` | app.py:61-62 | `http://evil.example.com` is denied, and the denial text names it |
| `PyStr.TitleFrom` | app.py:76-77 | title-casing keeps the length, and it keeps which positions hold cased characters |
| `PyStr.TitleFromAt` | app.py:76-77 | title-casing from a given state agrees, position by position, with the word-start rule |
| `PyStr.Title` | app.py:76-77 | `str.title()` keeps the length, upper-cases a letter that starts a word, lower-cases any other letter, and keeps every other character |
| `PyStr.TitleIdempotent` | app.py:76-77 | title-casing twice is the same as title-casing once |
| `PyStr.TitleOfWord` | app.py:76-77 | a word that is lower-case after its first letter gets only its first letter upper-cased |
| `PyStr.TitleKeepsUncased` | app.py:77 | title-casing neither adds nor removes an uncased character such as `,` |
| `PyStr.Join` | app.py:77 | the joined string is as long as the parts plus one separator between each two neighbours; joining nothing gives `""` |
| `PyStr.SplitJoin` | app.py:77 | `split` undoes `join` when no part contains the separator's first character |

## Left out

- Routing, the `@app.route` decorators (app.py:33, 38, 47, 52, 65, 70, 81, 86), `app.current_request`, and how handler results are turned into HTTP responses. This is framework code that is not part of this model. An error reply stands for the raised exception.
- The static `CORSConfig` of `/custom_cors` (app.py:18-24, app.py:47-49). It is configuration for the framework and holds no logic.
- `index_post` (app.py:38-44). Its form parsing is `urllib.parse.parse_qs`, which is not part of this model.
- `introspect`, `index` and `put_test` (app.py:33-35, app.py:65-67, app.py:81-83). They are constant or identity echoes with nothing to prove.
- Decoding the JSON request body (app.py:91). The store takes the decoded document as a value of type `V`. `ObjectStore.Json` has integer numbers only.
- The store is one `Store` object, not a process-wide global, and its survival between Lambda invocations is not modelled. Concurrent requests are not modelled either.
- PyStr.TitleFrom: models `str.title()` on ASCII letters only. Other Unicode letters are treated as uncased and kept unchanged, and title-case digraphs are not modelled.
- `Cors.OriginOf` looks up the header name `origin` exactly. Any case folding of header names is done by the framework and is not modelled.
