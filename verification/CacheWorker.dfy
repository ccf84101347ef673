/** The service worker: a versioned cache filled at install time, stale
    caches removed at activation, a cache-first fetch handler with an
    offline shell for page loads, and the background-sync replay of stored
    form submissions.

    The Cache API is modelled as an ordered collection of named caches,
    each a map from request URL to stored response; URLs are compared as
    the strings the worker sees. The network, the install-time downloads
    and the replayed posts are parameters. */
module CacheWorker {
  import opened Text
  import opened Options

  const CacheName := "reliable-legal-v1.2"

  const StaticAssets: seq<string> := [
    "/", "/index.html", "/404.html", "/style.css", "/script.js", "/robots.txt", "/sitemap.xml"
  ]

  const ExternalAssets: seq<string> := [
    "https://fonts.googleapis.com/css2?family=Cormorant+Garamond:ital,wght@0,400;0,500;0,600;0,700;1,400&family=Inter:wght@300;400;500;600;700&display=swap"
  ]

  /** The page served when a page load finds neither cache nor network. */
  const OfflineShell := "/index.html"

  /** Cross-origin hosts whose requests are still handled. */
  const AllowedHosts: seq<string> := ["fonts.googleapis.com", "fonts.gstatic.com", "cdn.jsdelivr.net"]

  /** The Fetch standard's response types. */
  datatype ResponseType = Basic | Cors | Default | ErrorType | Opaque | OpaqueRedirect

  datatype Response = Response(status: int, kind: ResponseType, body: string)

  /** The parts of a request the worker looks at; `origin` and `hostname`
      are those of the request URL. */
  datatype Request = Request(verb: string, url: string, origin: string, hostname: string, navigate: bool)

  /** All caches, in creation order. */
  datatype Store = Store(names: seq<string>, caches: map<string, map<string, Response>>)

  /** Cache names are distinct and are exactly the map's keys. */
  predicate Valid(s: Store) {
    && (forall i, j :: 0 <= i < j < |s.names| ==> s.names[i] != s.names[j])
    && (forall n :: n in s.caches ==> n in s.names)
    && (forall n :: n in s.names ==> n in s.caches)
  }

  // ---------------------------------------------------------------------------
  // The Cache API

  /** `caches.match(key)`: the entry of the first cache, in creation order,
      that holds `key`. */
  function Match(s: Store, key: string): (r: Option<Response>)
    ensures r.Some? ==> exists i :: FirstHolder(s.names, s.caches, key, i) && r.value == s.caches[s.names[i]][key]
    ensures r.None? <==> forall n :: n in s.names && n in s.caches ==> key !in s.caches[n]
  {
    MatchIn(s.names, s.caches, key)
  }

  /** The cache at position `i` holds `key` and none before it does. */
  predicate FirstHolder(names: seq<string>, caches: map<string, map<string, Response>>, key: string, i: int) {
    && 0 <= i < |names| && names[i] in caches && key in caches[names[i]]
    && forall j :: 0 <= j < i && names[j] in caches ==> key !in caches[names[j]]
  }

  function MatchIn(names: seq<string>, caches: map<string, map<string, Response>>, key: string): (r: Option<Response>)
    ensures r.Some? ==> exists i :: FirstHolder(names, caches, key, i) && r.value == caches[names[i]][key]
    ensures r.None? <==> forall n :: n in names && n in caches ==> key !in caches[n]
    decreases |names|
  {
    if names == [] then None
    else if names[0] in caches && key in caches[names[0]] then
      assert FirstHolder(names, caches, key, 0);
      Some(caches[names[0]][key])
    else
      var r := MatchIn(names[1..], caches, key);
      assert forall n :: n in names ==> n == names[0] || n in names[1..];
      FirstHolderShift(names, caches, key, r);
      r
  }

  /** When the first cache lacks the key, the first holder among the rest
      is the first holder overall, one position later. */
  lemma FirstHolderShift(names: seq<string>, caches: map<string, map<string, Response>>, key: string, r: Option<Response>)
    requires names != [] && !(names[0] in caches && key in caches[names[0]])
    requires r.Some? ==> exists i :: FirstHolder(names[1..], caches, key, i) && r.value == caches[names[1..][i]][key]
    ensures r.Some? ==> exists i :: FirstHolder(names, caches, key, i) && r.value == caches[names[i]][key]
  {
    if r.Some? {
      var i :| FirstHolder(names[1..], caches, key, i) && r.value == caches[names[1..][i]][key];
      assert names[i + 1] == names[1..][i];
      forall j | 0 <= j < i + 1 && names[j] in caches
        ensures key !in caches[names[j]]
      {
        if j > 0 {
          assert names[j] == names[1..][j - 1];
        }
      }
      assert FirstHolder(names, caches, key, i + 1);
    }
  }

  /** `caches.open(name)`: creates the cache, last in order, if it is missing. */
  function Open(s: Store, name: string): (r: Store)
    requires Valid(s)
    ensures Valid(r) && name in r.caches
    ensures forall n :: n in s.caches ==> n in r.caches && r.caches[n] == s.caches[n]
    ensures name in s.caches ==> r == s
    ensures name !in s.caches ==> r.names == s.names + [name] && r.caches[name] == map[]
  {
    if name in s.caches then s
    else Store(s.names + [name], s.caches[name := map[]])
  }

  /** `cache.put(key, response)` on the cache called `name`. */
  function Put(s: Store, name: string, key: string, resp: Response): (r: Store)
    requires Valid(s)
    ensures Valid(r) && name in r.caches
    ensures r.caches[name] == (if name in s.caches then s.caches[name] else map[])[key := resp]
    ensures forall n :: n in s.caches && n != name ==> n in r.caches && r.caches[n] == s.caches[n]
    ensures forall n :: n in r.caches ==> n == name || n in s.caches
  {
    var o := Open(s, name);
    Store(o.names, o.caches[name := o.caches[name][key := resp]])
  }

  // ---------------------------------------------------------------------------
  // install

  /** A response `cache.addAll` accepts: an ok status (200 to 299) other
      than a partial 206, as section 5.4.4 of the Service Workers
      specification requires. */
  predicate Ok(r: Response) {
    200 <= r.status <= 299 && r.status != 206
  }

  /** No request appears twice in a batch; `cache.addAll` rejects a batch
      with duplicates with an `InvalidStateError`. */
  predicate Distinct(assets: seq<string>) {
    forall i, j :: 0 <= i < j < |assets| ==> assets[i] != assets[j]
  }

  /** Every asset downloaded with an ok response. */
  predicate AllOk(assets: seq<string>, fetched: string -> Option<Response>) {
    forall a :: a in assets ==> fetched(a).Some? && Ok(fetched(a).value)
  }

  /** The install handler: open the current cache, then `addAll` the assets,
      which stores all of them or, if any download fails or is not ok or
      an asset is listed twice, none; the failure is caught, so installing always completes.
      `fetched(a)` is the download of asset `a` (`None` for a network
      error). */
  function Install(s: Store, assets: seq<string>, fetched: string -> Option<Response>): (r: Store)
    requires Valid(s)
    ensures Valid(r) && CacheName in r.caches
    ensures AllOk(assets, fetched) && Distinct(assets) ==>
              forall a :: a in assets ==> a in r.caches[CacheName] && r.caches[CacheName][a] == fetched(a).value
    ensures !(AllOk(assets, fetched) && Distinct(assets)) ==> r == Open(s, CacheName)
    ensures forall n :: n in s.caches && n != CacheName ==> n in r.caches && r.caches[n] == s.caches[n]
    ensures forall n, k :: n in r.caches && k in r.caches[n] && (n != CacheName || k !in assets) ==>
              n in s.caches && k in s.caches[n] && r.caches[n][k] == s.caches[n][k]
  {
    var o := Open(s, CacheName);
    if AllOk(assets, fetched) && Distinct(assets) then
      var added := map a | a in assets && fetched(a).Some? :: fetched(a).value;
      Store(o.names, o.caches[CacheName := o.caches[CacheName] + added])
    else o
  }

  /** The site's install: the static assets and the web font. */
  function InstallSite(s: Store, fetched: string -> Option<Response>): (r: Store)
    requires Valid(s)
    ensures Valid(r) && CacheName in r.caches
    ensures AllOk(StaticAssets + ExternalAssets, fetched) ==>
              OfflineShell in r.caches[CacheName] && r.caches[CacheName][OfflineShell] == fetched(OfflineShell).value
  {
    assert OfflineShell in StaticAssets + ExternalAssets by {
      assert (StaticAssets + ExternalAssets)[1] == OfflineShell;
    }
    SiteAssetsDistinct();
    Install(s, StaticAssets + ExternalAssets, fetched)
  }

  /** The site lists no asset twice, so `addAll` does not reject it for
      that reason. */
  lemma SiteAssetsDistinct()
    ensures Distinct(StaticAssets + ExternalAssets)
  {
    var a := StaticAssets + ExternalAssets;
    assert |a| == 8;
    assert |a[0]| == 1 && |a[1]| == 11 && |a[2]| == 9 && |a[3]| == 10;
    assert |a[4]| == 10 && |a[5]| == 11 && |a[6]| == 12 && |a[7]| > 12;
    assert a[1][1] != a[5][1] && a[3][2] != a[4][2];
  }

  // ---------------------------------------------------------------------------
  // activate

  /** The cache names kept at activation, in order. */
  function KeepCurrent(names: seq<string>): (r: seq<string>)
    ensures forall n :: n in r <==> n in names && n == CacheName
    ensures |r| <= 1 || exists i, j :: 0 <= i < j < |names| && names[i] == names[j]
  {
    if names == [] then []
    else if names[0] == CacheName then
      var rest := KeepCurrent(names[1..]);
      if rest != [] then
        assert rest[0] in names[1..];
        KeepOne(names);
        [CacheName] + rest
      else [CacheName]
    else KeepCurrent(names[1..])
  }

  lemma KeepOne(names: seq<string>)
    requires |names| >= 1 && names[0] == CacheName && CacheName in names[1..]
    ensures exists i, j :: 0 <= i < j < |names| && names[i] == names[j]
  {
    var j :| 0 <= j < |names[1..]| && names[1..][j] == CacheName;
    assert names[0] == names[j + 1];
  }

  /** The activate handler: every cache other than the current one is
      deleted. */
  function Activate(s: Store): (r: Store)
    requires Valid(s)
    ensures Valid(r)
    ensures forall n :: n in r.caches <==> n == CacheName && n in s.caches
    ensures CacheName in s.caches ==> r.caches[CacheName] == s.caches[CacheName]
    ensures |r.names| <= 1
  {
    var names := KeepCurrent(s.names);
    Store(names, map n | n in s.caches && n == CacheName :: s.caches[n])
  }

  /** Activating twice is activating once. */
  lemma ActivateIdempotent(s: Store)
    requires Valid(s)
    ensures Activate(Activate(s)) == Activate(s)
  {
    var r := Activate(s);
    if r.names != [] {
      assert r.names[0] in r.names;
      assert r.names == [CacheName];
      assert KeepCurrent(r.names[1..]) == [];
    }
  }

  // ---------------------------------------------------------------------------
  // fetch

  /** What the fetch handler does with a request. */
  datatype Outcome =
    | PassThrough            // not intercepted: the browser handles it
    | Respond(response: Option<Response>)   // `respondWith` this (`None`: undefined)
    | Fail                   // the network error is rethrown

  /** The handler's result: its outcome, the caches afterwards, and how many
      network fetches it made. */
  datatype Handled = Handled(outcome: Outcome, store: Store, networkCalls: nat)

  /** `hostname.includes(h)` for one of the allowed hosts. */
  predicate AllowedHost(hostname: string) {
    exists k :: 0 <= k < |AllowedHosts| && Includes(hostname, AllowedHosts[k])
  }

  /** Because the host test is a substring test, a host name that merely
      contains an allowed host, such as a subdomain of some other domain,
      is admitted too. */
  lemma LookalikeHostAdmitted(req: Request, siteOrigin: string)
    requires req.verb == "GET" && req.hostname == "fonts.gstatic.com.example.net"
    ensures Admitted(req, siteOrigin)
  {
    var h := req.hostname;
    assert h[0..|AllowedHosts[1]|] == AllowedHosts[1];
    assert OccursAt(h, AllowedHosts[1], 0);
  }

  /** A GET request to the site itself or to an allowed host. */
  predicate Admitted(req: Request, siteOrigin: string) {
    req.verb == "GET" && (req.origin == siteOrigin || AllowedHost(req.hostname))
  }

  /** Whether a network response is written to the cache. */
  predicate Cacheable(r: Response) {
    r.status == 200 && r.kind == Basic
  }

  /** The fetch handler. `siteOrigin` is the worker's own origin and `net`
      what a network fetch of the request would produce (`None` for a
      network error); it is only consulted on a miss. */
  function Fetch(s: Store, req: Request, siteOrigin: string, net: Option<Response>): (h: Handled)
    requires Valid(s)
    ensures Valid(h.store)
    ensures h.outcome.PassThrough? <==> !Admitted(req, siteOrigin)
    ensures h.networkCalls == if Admitted(req, siteOrigin) && Match(s, req.url).None? then 1 else 0
    ensures h.store != s ==> Admitted(req, siteOrigin) && net.Some? && Cacheable(net.value)
  {
    if !Admitted(req, siteOrigin) then Handled(PassThrough, s, 0)
    else
      match Match(s, req.url)
      case Some(cached) => Handled(Respond(Some(cached)), s, 0)
      case None =>
        match net
        case Some(resp) =>
          if Cacheable(resp) then Handled(Respond(Some(resp)), Put(s, CacheName, req.url, resp), 1)
          else Handled(Respond(Some(resp)), s, 1)
        case None =>
          if req.navigate then Handled(Respond(Match(s, OfflineShell)), s, 1)
          else Handled(Fail, s, 1)
  }

  /** Requests the handler does not intercept, including every non-GET
      request, are neither answered from nor written to any cache. */
  lemma NotAdmittedUntouched(s: Store, req: Request, siteOrigin: string, net: Option<Response>)
    requires Valid(s) && !Admitted(req, siteOrigin)
    ensures Fetch(s, req, siteOrigin, net) == Handled(PassThrough, s, 0)
  {
  }

  /** A request some cache holds is answered from it without the network. */
  lemma CacheHit(s: Store, req: Request, siteOrigin: string, net: Option<Response>)
    requires Valid(s) && Admitted(req, siteOrigin) && Match(s, req.url).Some?
    ensures Fetch(s, req, siteOrigin, net) == Handled(Respond(Match(s, req.url)), s, 0)
  {
  }

  /** On a miss the network's response is returned as it came; it is
      stored under the request's URL in the current cache, and nowhere
      else, exactly when it has status 200 and type basic. */
  lemma MissPath(s: Store, req: Request, siteOrigin: string, resp: Response)
    requires Valid(s) && Admitted(req, siteOrigin) && Match(s, req.url).None?
    ensures var h := Fetch(s, req, siteOrigin, Some(resp));
            && h.outcome == Respond(Some(resp))
            && (Cacheable(resp) ==> h.store == Put(s, CacheName, req.url, resp))
            && (!Cacheable(resp) ==> h.store == s)
  {
  }

  /** A miss whose network fetch fails: a page load gets the cached offline
      shell (or nothing, if it is not cached); anything else fails. */
  lemma NetworkFailure(s: Store, req: Request, siteOrigin: string)
    requires Valid(s) && Admitted(req, siteOrigin) && Match(s, req.url).None?
    ensures var h := Fetch(s, req, siteOrigin, None);
            && h.store == s
            && (req.navigate ==> h.outcome == Respond(Match(s, OfflineShell)))
            && (!req.navigate ==> h.outcome == Fail)
  {
  }

  /** After a miss whose response was stored, the same request is answered
      from the cache with that response and no network fetch, whatever the
      network would now say. */
  lemma SecondFetchHits(s: Store, req: Request, siteOrigin: string, resp: Response, later: Option<Response>)
    requires Valid(s) && Admitted(req, siteOrigin) && Match(s, req.url).None? && Cacheable(resp)
    ensures var s1 := Fetch(s, req, siteOrigin, Some(resp)).store;
            Fetch(s1, req, siteOrigin, later) == Handled(Respond(Some(resp)), s1, 0)
  {
    var s1 := Put(s, CacheName, req.url, resp);
    PutThenMatch(s, req.url, resp);
  }

  /** Storing a response under a key no cache holds makes it the key's
      match. */
  lemma PutThenMatch(s: Store, key: string, resp: Response)
    requires Valid(s) && Match(s, key).None?
    ensures Match(Put(s, CacheName, key, resp), key) == Some(resp)
  {
    var r := Put(s, CacheName, key, resp);
    MatchUnique(r.names, r.caches, key, CacheName);
  }

  /** When exactly one cache holds the key, the lookup finds it there,
      wherever that cache stands in the order. */
  lemma {:induction false} MatchUnique(names: seq<string>, caches: map<string, map<string, Response>>, key: string, name: string)
    requires name in names && name in caches && key in caches[name]
    requires forall n :: n in names && n in caches && key in caches[n] ==> n == name
    ensures MatchIn(names, caches, key) == Some(caches[name][key])
    decreases |names|
  {
    if names[0] != name {
      assert name in names[1..];
      MatchUnique(names[1..], caches, key, name);
    }
  }

  /** Once the site has installed with every download ok and activated, a
      page load that misses the cache with the network down gets the
      installed index page. */
  lemma OfflineShellAfterInstall(s: Store, fetched: string -> Option<Response>, req: Request, siteOrigin: string)
    requires Valid(s) && AllOk(StaticAssets + ExternalAssets, fetched)
    requires Admitted(req, siteOrigin) && req.navigate
    requires Match(Activate(InstallSite(s, fetched)), req.url).None?
    ensures Fetch(Activate(InstallSite(s, fetched)), req, siteOrigin, None).outcome
            == Respond(Some(fetched(OfflineShell).value))
  {
    var a := Activate(InstallSite(s, fetched));
    SoleCacheMatch(a, OfflineShell);
  }

  /** With the current cache the only one, matching is looking it up. */
  lemma SoleCacheMatch(s: Store, key: string)
    requires Valid(s) && CacheName in s.caches && key in s.caches[CacheName]
    requires forall n :: n in s.caches ==> n == CacheName
    ensures Match(s, key) == Some(s.caches[CacheName][key])
  {
    assert CacheName in s.names;
    MatchUnique(s.names, s.caches, key, CacheName);
  }

  // ---------------------------------------------------------------------------
  // Background sync

  /** A stored form submission. */
  datatype Submission = Submission(id: int)

  /** What re-posting a submission produced. */
  datatype PostResult = PostThrew | PostResponded(ok: bool)

  /** One observable step of the replay. */
  datatype ReplayEffect = Posted(id: int) | Removed(id: int) | Notified(id: int)

  /** The replay's result: its effects in order and the submissions left
      stored. */
  datatype Replayed = Replayed(effects: seq<ReplayEffect>, remaining: seq<Submission>)

  predicate Delivered(p: PostResult) {
    p.PostResponded? && p.ok
  }

  /** The effects of replaying one submission. */
  function ReplayOne(sub: Submission, p: PostResult): (e: seq<ReplayEffect>)
  {
    if Delivered(p) then [Posted(sub.id), Removed(sub.id), Notified(sub.id)] else [Posted(sub.id)]
  }

  /** The replay loop over the stored submissions, in stored order; `post(k)`
      is what re-posting submission `k` produced. A post that throws is
      caught and the loop goes on. */
  function ReplayFrom(queue: seq<Submission>, post: nat -> PostResult, k: nat): (r: Replayed)
    requires k <= |queue|
    ensures |r.remaining| <= |queue| - k
    decreases |queue| - k
  {
    if k == |queue| then Replayed([], [])
    else
      var rest := ReplayFrom(queue, post, k + 1);
      Replayed(ReplayOne(queue[k], post(k)) + rest.effects,
               (if Delivered(post(k)) then [] else [queue[k]]) + rest.remaining)
  }

  /** `handleOfflineFormSubmission` over a given queue. */
  method Replay(queue: seq<Submission>, post: nat -> PostResult) returns (r: Replayed)
    ensures r == ReplayFrom(queue, post, 0)
    ensures |r.remaining| <= |queue|
  {
    var effects: seq<ReplayEffect> := [];
    var remaining: seq<Submission> := [];
    var k := 0;
    while k < |queue|
      invariant 0 <= k <= |queue|
      invariant var tail := ReplayFrom(queue, post, k);
                ReplayFrom(queue, post, 0) == Replayed(effects + tail.effects, remaining + tail.remaining)
    {
      var tail := ReplayFrom(queue, post, k + 1);
      var one := ReplayOne(queue[k], post(k));
      var kept := if Delivered(post(k)) then [] else [queue[k]];
      assert effects + (one + tail.effects) == (effects + one) + tail.effects;
      assert remaining + (kept + tail.remaining) == (remaining + kept) + tail.remaining;
      effects := effects + one;
      remaining := remaining + kept;
      k := k + 1;
    }
    assert effects + [] == effects && remaining + [] == remaining;
    r := Replayed(effects, remaining);
  }

  /** The submissions left are those whose post was not delivered, in
      their stored order. */
  function Undelivered(queue: seq<Submission>, post: nat -> PostResult, k: nat): (left: seq<Submission>)
    requires k <= |queue|
    decreases |queue| - k
  {
    if k == |queue| then []
    else if Delivered(post(k)) then Undelivered(queue, post, k + 1)
    else [queue[k]] + Undelivered(queue, post, k + 1)
  }

  /** The submissions left are exactly the undelivered ones, in their
      stored order. */
  lemma {:induction false} ReplayKeepsUndelivered(queue: seq<Submission>, post: nat -> PostResult, k: nat)
    requires k <= |queue|
    ensures ReplayFrom(queue, post, k).remaining == Undelivered(queue, post, k)
    decreases |queue| - k
  {
    if k < |queue| {
      ReplayKeepsUndelivered(queue, post, k + 1);
    }
  }

  /** Every submission is posted, whatever happened to the ones before,
      and there are as many notifications as removals, one per delivered
      post. */
  lemma ReplayCounts(queue: seq<Submission>, post: nat -> PostResult, k: nat)
    requires k <= |queue|
    ensures var r := ReplayFrom(queue, post, k);
            && |IdsOf(r.effects, PostKind)| == |queue| - k
            && |IdsOf(r.effects, RemoveKind)| == |IdsOf(r.effects, NotifyKind)| == |queue| - k - |r.remaining|
  {
    ReplayOrder(queue, post, k);
    ReplayKeepsUndelivered(queue, post, k);
    StoredIdsLength(queue, k);
    DeliveredSplit(queue, post, k);
  }

  lemma {:induction false} StoredIdsLength(queue: seq<Submission>, k: nat)
    requires k <= |queue|
    ensures |StoredIds(queue, k)| == |queue| - k
    decreases |queue| - k
  {
    if k < |queue| {
      StoredIdsLength(queue, k + 1);
    }
  }

  /** Each submission from `k` on is either delivered or left. */
  lemma {:induction false} DeliveredSplit(queue: seq<Submission>, post: nat -> PostResult, k: nat)
    requires k <= |queue|
    ensures |DeliveredIds(queue, post, k)| + |Undelivered(queue, post, k)| == |queue| - k
    decreases |queue| - k
  {
    if k < |queue| {
      DeliveredSplit(queue, post, k + 1);
    }
  }

  /** The three kinds of replay effect. */
  datatype EffectKind = PostKind | RemoveKind | NotifyKind

  function KindOf(x: ReplayEffect): EffectKind {
    match x
    case Posted(_) => PostKind
    case Removed(_) => RemoveKind
    case Notified(_) => NotifyKind
  }

  /** The ids of the effects of kind `kind`, in effect order. */
  function IdsOf(e: seq<ReplayEffect>, kind: EffectKind): seq<int> {
    if e == [] then [] else (if KindOf(e[0]) == kind then [e[0].id] else []) + IdsOf(e[1..], kind)
  }

  /** The ids of the stored submissions from `k` on, in stored order. */
  function StoredIds(queue: seq<Submission>, k: nat): seq<int>
    requires k <= |queue|
    decreases |queue| - k
  {
    if k == |queue| then [] else [queue[k].id] + StoredIds(queue, k + 1)
  }

  /** The ids of the submissions from `k` on whose post was delivered, in
      stored order. */
  function DeliveredIds(queue: seq<Submission>, post: nat -> PostResult, k: nat): seq<int>
    requires k <= |queue|
    decreases |queue| - k
  {
    if k == |queue| then []
    else if Delivered(post(k)) then [queue[k].id] + DeliveredIds(queue, post, k + 1)
    else DeliveredIds(queue, post, k + 1)
  }

  lemma {:induction false} IdsAppend(a: seq<ReplayEffect>, b: seq<ReplayEffect>, kind: EffectKind)
    ensures IdsOf(a + b, kind) == IdsOf(a, kind) + IdsOf(b, kind)
    decreases |a|
  {
    if a == [] {
      assert a + b == b;
    } else {
      var h := if KindOf(a[0]) == kind then [a[0].id] else [];
      assert (a + b)[0] == a[0];
      assert (a + b)[1..] == a[1..] + b;
      IdsAppend(a[1..], b, kind);
      assert IdsOf(a + b, kind) == h + (IdsOf(a[1..], kind) + IdsOf(b, kind));
      assert h + (IdsOf(a[1..], kind) + IdsOf(b, kind)) == (h + IdsOf(a[1..], kind)) + IdsOf(b, kind);
    }
  }

  /** Replaying one submission posts its id, and removes and notifies its
      id exactly when the post was delivered. */
  lemma OneIds(sub: Submission, p: PostResult)
    ensures IdsOf(ReplayOne(sub, p), PostKind) == [sub.id]
    ensures IdsOf(ReplayOne(sub, p), RemoveKind) == IdsOf(ReplayOne(sub, p), NotifyKind)
            == if Delivered(p) then [sub.id] else []
  {
    var e := ReplayOne(sub, p);
    if Delivered(p) {
      var n := [Notified(sub.id)];
      assert n[1..] == [] && KindOf(n[0]) == NotifyKind;
      assert IdsOf(n, PostKind) == [];
      assert IdsOf(n, RemoveKind) == [] + IdsOf(n[1..], RemoveKind);
      assert IdsOf(n, NotifyKind) == [sub.id] + [] == [sub.id];
      var rn := [Removed(sub.id)] + n;
      assert rn[1..] == n;
      assert IdsOf(rn, PostKind) == [] && IdsOf(rn, NotifyKind) == [sub.id];
      assert IdsOf(rn, RemoveKind) == [sub.id] + [] == [sub.id];
      assert e == [Posted(sub.id)] + rn && e[1..] == rn;
      assert IdsOf(e, PostKind) == [sub.id] + [];
    } else {
      assert e[1..] == [];
      assert IdsOf(e, PostKind) == [sub.id] + [];
    }
  }

  /** The replay posts every stored submission in stored order, and removes
      and notifies exactly the delivered ones, in stored order too. */
  lemma {:induction false} ReplayOrder(queue: seq<Submission>, post: nat -> PostResult, k: nat)
    requires k <= |queue|
    ensures IdsOf(ReplayFrom(queue, post, k).effects, PostKind) == StoredIds(queue, k)
    ensures IdsOf(ReplayFrom(queue, post, k).effects, RemoveKind) == DeliveredIds(queue, post, k)
    ensures IdsOf(ReplayFrom(queue, post, k).effects, NotifyKind) == DeliveredIds(queue, post, k)
    decreases |queue| - k
  {
    if k < |queue| {
      ReplayOrder(queue, post, k + 1);
      OneIds(queue[k], post(k));
      var one := ReplayOne(queue[k], post(k));
      var rest := ReplayFrom(queue, post, k + 1).effects;
      IdsAppend(one, rest, PostKind);
      IdsAppend(one, rest, RemoveKind);
      IdsAppend(one, rest, NotifyKind);
    }
  }

  /** Every removal is immediately followed by its notification. */
  predicate NotifiedAfterRemoval(e: seq<ReplayEffect>) {
    forall i :: 0 <= i < |e| && e[i].Removed? ==> i + 1 < |e| && e[i + 1] == Notified(e[i].id)
  }

  /** The replay notifies each removal right after it. */
  lemma {:induction false} ReplayNotifiesAfterRemove(queue: seq<Submission>, post: nat -> PostResult, k: nat)
    requires k <= |queue|
    ensures NotifiedAfterRemoval(ReplayFrom(queue, post, k).effects)
    decreases |queue| - k
  {
    if k < |queue| {
      ReplayNotifiesAfterRemove(queue, post, k + 1);
      var rest := ReplayFrom(queue, post, k + 1).effects;
      var one := ReplayOne(queue[k], post(k));
      var e := one + rest;
      forall i | 0 <= i < |e| && e[i].Removed?
        ensures i + 1 < |e| && e[i + 1] == Notified(e[i].id)
      {
        if i >= |one| {
          var j := i - |one|;
          assert rest[j].Removed?;
        }
      }
    }
  }

  /** The sync handler runs the replay only for its own tag. */
  method Sync(tag: string, queue: seq<Submission>, post: nat -> PostResult) returns (r: Replayed)
    ensures tag == "form-submission" ==> r == ReplayFrom(queue, post, 0)
    ensures tag != "form-submission" ==> r == Replayed([], queue)
  {
    if tag == "form-submission" {
      r := Replay(queue, post);
    } else {
      r := Replayed([], queue);
    }
  }

  /** Two submissions A and B are stored; in a first sync A's post fails
      and B's succeeds, in a second sync A's succeeds: after the first, A
      is left and B was notified; after the second, nothing is left and A
      was notified. */
  lemma ReplayScenario(a: Submission, b: Submission)
    ensures var first := ReplayFrom([a, b], FirstSync, 0);
            && first.remaining == [a]
            && first.effects == [Posted(a.id), Posted(b.id), Removed(b.id), Notified(b.id)]
            && var second := ReplayFrom(first.remaining, SecondSync, 0);
               && second.remaining == []
               && second.effects == [Posted(a.id), Removed(a.id), Notified(a.id)]
  {
    assert ReplayFrom([a, b], FirstSync, 2) == Replayed([], []);
    var last := ReplayFrom([a, b], FirstSync, 1);
    assert last == Replayed([Posted(b.id), Removed(b.id), Notified(b.id)], []);
    assert ReplayFrom([a], SecondSync, 1) == Replayed([], []);
  }

  /** The first sync of the scenario: the first post throws, the rest are
      accepted. */
  function FirstSync(i: nat): PostResult {
    if i == 0 then PostThrew else PostResponded(true)
  }

  /** The second sync of the scenario: every post is accepted. */
  function SecondSync(i: nat): PostResult {
    PostResponded(true)
  }
}
