/**
 The conditional-fetch pipeline of `GitHubService.getContent`: derive the request and its
 cache key from the slug, attach `If-None-Match` when a validator is stored, then push the
 upstream's answer through `addToCache`, `fetchFromCache` and `forwardHttpError` in that order.
 The upstream call is a parameter; the store is threaded through explicitly.
 */
module GitHubService {
  import opened Wrappers
  import opened JsStrings
  import opened CacheStore

  const NotModified: int := 304
  const HttpErrorName: string := "HttpError"
  const IfNoneMatch: string := "If-None-Match"
  const EtagHeader: string := "etag"
  const WeakPrefix: string := "W/"
  const DefaultPath: string := "."
  const KeyPrefix: string := "getContent-"

  /** A rejection value as the service inspects it: its `name`, `message` and `status` properties. */
  datatype Error = Error(name: string, message: Option<string>, status: Option<int>)

  /** What reading `.data` of the missing cache item throws. */
  const DereferenceError: Error :=
    Error("TypeError", Some("Cannot read properties of undefined (reading 'data')"), None)

  /** What `getContent` finally rejects with: a forwarded error, or a NestJS `HttpException`. */
  datatype Thrown = Raw(error: Error) | HttpException(message: Option<string>, status: Option<int>)

  datatype Outcome<D> = Resolved(value: D) | Rejected(thrown: Thrown)

  /** A successful upstream response: its headers and its body. */
  datatype Reply<D> = Reply(headers: map<string, string>, data: D)

  /** The settled upstream call: a response, or the error it was rejected with (a 304 among them). */
  datatype Upstream<D> = Answered(reply: Reply<D>) | Failed(error: Error)

  /** The parameters handed to `repos.getContent`. */
  datatype Request = Request(owner: string, repo: Option<string>, path: string, headers: map<string, string>)

  /** The promise between `fetchFromCache` and `forwardHttpError`: a value, or a thrown error. */
  datatype Step<D> = Value(value: D) | Threw(error: Error)

  /** One `getContent` call: the request it sent, what it settled to, and the store afterwards. */
  datatype Call<D> = Call(request: Request, outcome: Outcome<D>, store: Store<D>)

  /**
   `const [owner, repo] = slug.split('/')`: the first two pieces; `repo` is undefined when the
   slug has no slash, and pieces after the second are ignored.
   */
  function ParseSlug(slug: string): (r: (string, Option<string>))
    ensures '/' !in r.0
    ensures r.1.None? <==> '/' !in slug
    ensures r.1.None? ==> r.0 == slug
    ensures r.1.Some? ==> '/' !in r.1.value && r.0 + "/" + r.1.value <= slug
    ensures r.1.Some? ==> var n := |r.0| + 1 + |r.1.value|; n == |slug| || slug[n] == '/'
  {
    var parts := Split(slug, '/');
    JoinSplit(slug, '/');
    if |parts| == 1 then (parts[0], None)
    else
      assert slug == parts[0] + "/" + parts[1] + (if |parts| == 2 then "" else "/" + Join(parts[2..], '/')) by {
        assert parts[1..][1..] == parts[2..];
      }
      (parts[0], Some(parts[1]))
  }

  /** An `owner/repo` slug is split back into its owner and its repository. */
  lemma SlugRoundTrip(owner: string, repo: string)
    requires '/' !in owner && '/' !in repo
    ensures ParseSlug(owner + "/" + repo) == (owner, Some(repo))
  {
    SplitJoin([owner, repo], '/');
    assert Join([owner, repo], '/') == owner + "/" + repo;
  }

  /** The path requested: the caller's, or `.` when the caller passes none. */
  function PathOrDefault(path: Option<string>): string
  {
    if path.Some? then path.value else DefaultPath
  }

  /** The cache key `getContent-<slug>-<path>`. */
  function CacheKey(slug: string, path: string): string
  {
    KeyPrefix + slug + "-" + path
  }

  /**
   Keys are not injective: a hyphen may sit in the repository name or in the path, so two
   different requests can share one cache entry.
   */
  lemma CacheKeyCollision()
    ensures CacheKey("x/a", "b-c") == CacheKey("x/a-b", "c")
  {
  }

  /** `makeCacheHeaders`: `If-None-Match` carries the stored etag exactly when an item is stored. */
  function MakeCacheHeaders<D>(store: Store<D>, key: string): (h: map<string, string>)
    ensures IfNoneMatch in h <==> key in store
    ensures h.Keys <= {IfNoneMatch}
    ensures key in store ==> h[IfNoneMatch] == store[key].etag
  {
    match Get(store, key)
    case Some(item) => map[IfNoneMatch := item.etag]
    case None => map[]
  }

  /** The etag of a response when `headers.etag` is truthy: present and not the empty string. */
  function TruthyEtag(headers: map<string, string>): (r: Option<string>)
    ensures r.Some? <==> EtagHeader in headers && headers[EtagHeader] != ""
    ensures r.Some? ==> r.value == headers[EtagHeader]
  {
    if EtagHeader in headers && headers[EtagHeader] != "" then Some(headers[EtagHeader]) else None
  }

  /** The validator as stored: the etag with its first `W/` removed. */
  function StripWeak(etag: string): string
  {
    ReplaceFirst(etag, WeakPrefix, "")
  }

  /** A weak etag is stored without its `W/` marker; the test's `W/1234` becomes `1234`. */
  lemma StripWeakPrefix(tag: string)
    ensures StripWeak(WeakPrefix + tag) == tag
    ensures StripWeak("W/1234") == "1234"
  {
    assert FirstOccurrence(WeakPrefix + tag, WeakPrefix, 0);
    ReplaceAtFirst(WeakPrefix + tag, WeakPrefix, "", 0);
    assert (WeakPrefix + tag)[2..] == tag;
    assert "W/1234" == WeakPrefix + "1234";
    assert FirstOccurrence("W/1234", WeakPrefix, 0);
    ReplaceAtFirst("W/1234", WeakPrefix, "", 0);
  }

  /** A strong etag (one without `W/` anywhere) is stored as it came. */
  lemma StripWeakStrong(etag: string)
    requires forall i :: 0 <= i <= |etag| ==> !OccursAt(etag, WeakPrefix, i)
    ensures StripWeak(etag) == etag
  {
    ReplaceAbsent(etag, WeakPrefix, "");
  }

  /**
   `addToCache`: the response body is always passed on; it is stored, with its normalised etag,
   only when the response carries a truthy etag, and the rest of the store is untouched.
   */
  function AddToCache<D>(store: Store<D>, key: string, reply: Reply<D>): (r: (D, Store<D>))
    ensures r.0 == reply.data
    ensures TruthyEtag(reply.headers).None? ==> r.1 == store
    ensures TruthyEtag(reply.headers).Some? ==>
              r.1.Keys == store.Keys + {key}
              && r.1[key] == CacheItem(StripWeak(reply.headers[EtagHeader]), reply.data)
              && forall k :: k in store && k != key ==> r.1[k] == store[k]
  {
    match TruthyEtag(reply.headers)
    case Some(etag) => (reply.data, store[key := CacheItem(StripWeak(etag), reply.data)])
    case None => (reply.data, store)
  }

  /**
   `fetchFromCache`: an error whose status is 304 is answered from the cache (whatever its
   name); when nothing is stored, reading `.data` of the missing item throws instead. Any
   other error is rethrown as it is.
   */
  function FetchFromCache<D>(store: Store<D>, key: string, e: Error): (r: Step<D>)
    ensures e.status == Some(NotModified) && key in store ==> r == Value(store[key].data)
    ensures e.status == Some(NotModified) && key !in store ==> r == Threw(DereferenceError)
    ensures e.status != Some(NotModified) ==> r == Threw(e)
  {
    if e.status == Some(NotModified) then
      match Get(store, key)
      case Some(item) => Value(item.data)
      case None => Threw(DereferenceError)
    else Threw(e)
  }

  /**
   `forwardHttpError`: always throws. An error named `HttpError` becomes an `HttpException`
   with the same message and status; anything else is rethrown unchanged.
   */
  function ForwardHttpError(e: Error): (t: Thrown)
    ensures t.HttpException? <==> e.name == HttpErrorName
    ensures t.HttpException? ==> t.message == e.message && t.status == e.status
    ensures t.Raw? ==> t.error == e
  {
    if e.name != HttpErrorName then Raw(e) else HttpException(e.message, e.status)
  }

  /**
   The chain `.then(addToCache).catch(fetchFromCache).catch(forwardHttpError)` applied to the
   upstream outcome. Only a success may change the store; a 304 with a stored item is the one
   failure that resolves; the error kinds are exactly those of the upstream, with a 304 never
   surfacing as an `HttpException`.
   */
  function Settle<D>(store: Store<D>, key: string, response: Upstream<D>): (r: (Outcome<D>, Store<D>))
    ensures response.Failed? ==> r.1 == store
    ensures r.0.Resolved? <==> response.Answered? || (response.error.status == Some(NotModified) && key in store)
    ensures response.Answered? ==> r == (Resolved(response.reply.data), AddToCache(store, key, response.reply).1)
    ensures response.Failed? && response.error.status == Some(NotModified) && key in store ==>
              r.0 == Resolved(store[key].data)
    ensures response.Failed? && response.error.status == Some(NotModified) && key !in store ==>
              r.0 == Rejected(Raw(DereferenceError))
    ensures response.Failed? && response.error.status != Some(NotModified) && response.error.name == HttpErrorName ==>
              r.0 == Rejected(HttpException(response.error.message, response.error.status))
    ensures response.Failed? && response.error.status != Some(NotModified) && response.error.name != HttpErrorName ==>
              r.0 == Rejected(Raw(response.error))
    ensures r.0.Rejected? && r.0.thrown.HttpException? ==> r.0.thrown.status != Some(NotModified)
  {
    match response
    case Answered(reply) =>
      var (data, store') := AddToCache(store, key, reply);
      (Resolved(data), store')
    case Failed(e) =>
      match FetchFromCache(store, key, e)
      case Value(data) => (Resolved(data), store)
      case Threw(e') => (Rejected(ForwardHttpError(e')), store)
  }

  /**
   `getContent(slug, path = '.')`: the request carries the slug's owner and repository, the
   path (defaulted), and a conditional header exactly when the key has a stored validator;
   the upstream's answer to that request is then settled against the key.
   */
  function GetContent<D>(store: Store<D>, slug: string, path: Option<string>, upstream: Request -> Upstream<D>): (c: Call<D>)
    ensures c.request.path == PathOrDefault(path)
    ensures c.request.owner == ParseSlug(slug).0 && c.request.repo == ParseSlug(slug).1
    ensures var key := CacheKey(slug, c.request.path);
            && (IfNoneMatch in c.request.headers <==> key in store)
            && (key in store ==> c.request.headers == map[IfNoneMatch := store[key].etag])
            && (key !in store ==> c.request.headers == map[])
            && (c.outcome, c.store) == Settle(store, key, upstream(c.request))
  {
    var (owner, repo) := ParseSlug(slug);
    var p := PathOrDefault(path);
    var key := CacheKey(slug, p);
    var request := Request(owner, repo, p, MakeCacheHeaders(store, key));
    var (outcome, store') := Settle(store, key, upstream(request));
    Call(request, outcome, store')
  }

  /** `fetchDataFrom`: the body of a successful response, or the forwarded error. */
  function FetchDataFrom<D>(response: Upstream<D>): (r: Outcome<D>)
    ensures r.Resolved? <==> response.Answered?
    ensures response.Answered? ==> r.value == response.reply.data
    ensures response.Failed? ==> r.thrown == ForwardHttpError(response.error)
  {
    match response
    case Answered(reply) => Resolved(reply.data)
    case Failed(e) => Rejected(ForwardHttpError(e))
  }

  /** A failed fetch, a 304 among them, leaves the reported usage exactly as it was. */
  lemma FailureKeepsUsage<D>(max: nat, store: Store<D>, key: string, e: Error, size: CacheItem<D> -> nat)
    ensures CacheUsage(max, Settle(store, key, Failed(e)).1, size) == CacheUsage(max, store, size)
  {
  }

  /**
   A success with a truthy etag changes the used bytes by exactly the key's share: the size
   of the item it replaces, if any, goes out and the size of the new item comes in. Without
   an etag the usage is unchanged.
   */
  lemma SuccessUsage<D>(max: nat, store: Store<D>, key: string, reply: Reply<D>, size: CacheItem<D> -> nat)
    ensures var after := CacheUsage(max, Settle(store, key, Answered(reply)).1, size).used;
            var before := CacheUsage(max, store, size).used;
            match TruthyEtag(reply.headers)
            case None => after == before
            case Some(etag) =>
              after == before - (if key in store then size(store[key]) else 0)
                       + size(CacheItem(StripWeak(etag), reply.data))
  {
    match TruthyEtag(reply.headers)
    case None =>
    case Some(etag) =>
      var item := CacheItem(StripWeak(etag), reply.data);
      assert Settle(store, key, Answered(reply)).1 == store[key := item];
      LengthStore(store, size, key, item);
  }

  /**
   `fetchDataFrom` (the path `rateLimit()` takes) and the `getContent` chain translate a
   response the same way whenever the cache is not consulted, i.e. for anything but a 304.
   */
  lemma FetchDataFromAgreesWithSettle<D>(store: Store<D>, key: string, response: Upstream<D>)
    requires response.Failed? ==> response.error.status != Some(NotModified)
    ensures Settle(store, key, response).0 == FetchDataFrom(response)
  {
  }

  /** After a success with a truthy etag, the next request for the key is conditional on that etag, normalised. */
  lemma RevalidatesWithStoredEtag<D>(store: Store<D>, key: string, reply: Reply<D>)
    requires TruthyEtag(reply.headers).Some?
    ensures var store' := Settle(store, key, Answered(reply)).1;
            MakeCacheHeaders(store', key) == map[IfNoneMatch := StripWeak(reply.headers[EtagHeader])]
  {
  }

  /**
   After a changed response with a new etag, a later 304 serves the new body, not the one
   stored before.
   */
  lemma ChangedThenNotModified<D>(store: Store<D>, key: string, reply: Reply<D>, e: Error)
    requires TruthyEtag(reply.headers).Some?
    requires e.status == Some(NotModified)
    ensures var store' := Settle(store, key, Answered(reply)).1;
            Settle(store', key, Failed(e)) == (Resolved(reply.data), store')
  {
  }

  /**
   A success without an etag stores nothing, so a 304 for a key that had no entry before
   fails with the dereference error rather than resolving.
   */
  lemma UntaggedThenNotModified<D>(store: Store<D>, key: string, reply: Reply<D>, e: Error)
    requires key !in store
    requires TruthyEtag(reply.headers).None?
    requires e.status == Some(NotModified)
    ensures var store' := Settle(store, key, Answered(reply)).1;
            store' == store && Settle(store', key, Failed(e)).0 == Rejected(Raw(DereferenceError))
  {
  }

  /** If the library evicts the key before a 304 is handled, the 304 surfaces as the dereference error. */
  lemma EvictedBeforeNotModified<D>(store: Store<D>, key: string, gone: set<string>, e: Error)
    requires key in gone
    requires e.status == Some(NotModified)
    ensures Settle(Evict(store, gone), key, Failed(e)) == (Rejected(Raw(DereferenceError)), Evict(store, gone))
  {
  }

  /**
   Whatever the library evicts after a changed response, a later 304 never serves the body
   stored before it: it serves the new body, or fails with the dereference error.
   */
  lemma ChangedEvictedThenNotModified<D>(store: Store<D>, key: string, reply: Reply<D>, gone: set<string>, e: Error)
    requires TruthyEtag(reply.headers).Some?
    requires e.status == Some(NotModified)
    ensures var store' := Evict(Settle(store, key, Answered(reply)).1, gone);
            var r := Settle(store', key, Failed(e)).0;
            r == Resolved(reply.data) || r == Rejected(Raw(DereferenceError))
  {
  }

  /**
   The cache is read twice: for the header when the request is built, and again when the 304
   comes back. If another call on the key succeeds with a tagged reply in between, the request
   carried the old etag but its 304 is served the other call's body.
   */
  lemma ReplacedBeforeNotModified<D>(store: Store<D>, key: string, before: CacheItem<D>, reply: Reply<D>, e: Error)
    requires TruthyEtag(reply.headers).Some?
    requires e.status == Some(NotModified)
    ensures MakeCacheHeaders(store[key := before], key) == map[IfNoneMatch := before.etag]
    ensures var replaced := Settle(store[key := before], key, Answered(reply)).1;
            Settle(replaced, key, Failed(e)).0 == Resolved(reply.data)
  {
  }

  /** The slug of the service's own test splits into owner `gobstones` and repository `demo`. */
  lemma GobstonesDemoSlug()
    ensures ParseSlug("gobstones/demo") == ("gobstones", Some("demo"))
  {
    assert "gobstones/demo" == "gobstones" + "/" + "demo";
    SlugRoundTrip("gobstones", "demo");
  }

  /** With the default path, that slug is cached under `getContent-gobstones/demo-.`. */
  lemma GobstonesDemoKey()
    ensures CacheKey("gobstones/demo", PathOrDefault(None)) == "getContent-gobstones/demo-."
  {
  }

  /** The first fetch of `gobstones/demo` in the service's own test: an unconditional request whose weak etag is stored normalised. */
  lemma GobstonesDemoFirstFetch<D>(data: D)
    ensures var first := GetContent(map[], "gobstones/demo", None,
                                    (rq: Request) => Answered(Reply(map[EtagHeader := "W/1234", "status" := "200"], data)));
            && first.request == Request("gobstones", Some("demo"), ".", map[])
            && first.outcome == Resolved(data)
            && first.store == map["getContent-gobstones/demo-." := CacheItem("1234", data)]
  {
    GobstonesDemoSlug();
    GobstonesDemoKey();
    StripWeakPrefix("1234");
    var headers := map[EtagHeader := "W/1234", "status" := "200"];
    assert TruthyEtag(headers) == Some("W/1234");
  }

  /** The second fetch of the same test: conditional on `1234`, and a 304 serves the stored body. */
  lemma GobstonesDemoNotModified<D>(data: D)
    ensures var stored: Store<D> := map["getContent-gobstones/demo-." := CacheItem("1234", data)];
            var second := GetContent(stored, "gobstones/demo", None,
                                     (rq: Request) => Failed(Error(HttpErrorName, None, Some(NotModified))));
            && second.request == Request("gobstones", Some("demo"), ".", map[IfNoneMatch := "1234"])
            && second.outcome == Resolved(data)
            && second.store == stored
  {
    GobstonesDemoSlug();
    GobstonesDemoKey();
  }
}
