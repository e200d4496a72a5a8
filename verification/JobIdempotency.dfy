/** Idempotent job submission: a bounded first-in-first-out key cache and the check / submit / store protocol over
    it. */
module JobIdempotency {
  import opened Basics

  /** A job kind with its raw parameters, passed through verbatim. */
  datatype Request = Request(kind: string, params: string)

  type Hash = string -> string

  /** What the request fingerprint hashes: kind, a NUL, params. */
  function Preimage(req: Request): string {
    req.kind + "\0" + req.params
  }

  function Fingerprint(hash: Hash, req: Request): string {
    hash(Preimage(req))
  }

  ghost predicate CollisionFree(hash: Hash) {
    forall a, b :: hash(a) == hash(b) ==> a == b
  }

  predicate NulFree(s: string) {
    '\0' !in s
  }

  /** The fingerprint tells requests apart: parameters, being JSON, hold no NUL, so the last NUL ends the kind. */
  lemma PreimageInjective(r: Request, q: Request)
    requires NulFree(r.params) && NulFree(q.params) && Preimage(r) == Preimage(q)
    ensures r == q
  {
    var s, t := Preimage(r), Preimage(q);
    assert s[|r.kind|] == '\0' && t[|q.kind|] == '\0';
    assert forall i :: |r.kind| < i < |s| ==> s[i] == r.params[i - |r.kind| - 1];
    assert forall i :: |q.kind| < i < |t| ==> t[i] == q.params[i - |q.kind| - 1];
    assert |r.kind| == |q.kind|;
    assert r.kind == s[..|r.kind|] && q.kind == t[..|q.kind|];
    assert r.params == s[|r.kind| + 1..] && q.params == t[|q.kind| + 1..];
  }

  /** The place of the last NUL. */
  function LastNul(s: string): (n: nat)
    requires !NulFree(s)
    ensures n < |s| && s[n] == '\0' && NulFree(s[n + 1..])
  {
    var m := |s| - 1;
    if s[m] == '\0' then m
    else
      assert s == s[..m] + [s[m]];
      var n := LastNul(s[..m]);
      assert s[n + 1..] == s[..m][n + 1..] + [s[m]];
      n
  }

  /** Cutting a preimage at its last NUL gives a request with the same preimage and NUL-free parameters; so exactly the
      requests with NUL-free parameters share their preimage with no other such request. */
  lemma PreimageUniqueExactly(r: Request)
    ensures NulFree(r.params) <==> forall q: Request :: NulFree(q.params) && Preimage(q) == Preimage(r) ==> q == r
  {
    var s := Preimage(r);
    assert s[|r.kind|] == '\0';
    var n := LastNul(s);
    var q := Request(s[..n], s[n + 1..]);
    assert Preimage(q) == s;
    if NulFree(r.params) {
      forall p: Request | NulFree(p.params) && Preimage(p) == s ensures p == r {
        PreimageInjective(p, r);
      }
    }
  }

  /** For example, with a NUL in the parameters these two requests share a fingerprint. */
  lemma PreimageCollision()
    ensures Preimage(Request("a", "b\0c")) == Preimage(Request("a\0b", "c"))
  {
    assert Preimage(Request("a", "b\0c")) == "a\0b\0c";
    assert Preimage(Request("a\0b", "c")) == "a\0b\0c";
  }

  // ----- The key cache -----

  datatype Entry = Entry(jobId: string, hash: string)

  datatype Cache = Cache(byKey: map<string, Entry>, order: seq<string>)

  const EMPTY := Cache(map[], [])

  datatype Verdict = Miss | Hit(id: string) | Conflict

  function Check(c: Cache, key: string, hash: string): Verdict {
    if key !in c.byKey then Miss
    else if c.byKey[key].hash != hash then Conflict
    else Hit(c.byKey[key].jobId)
  }

  /** Recording a key: a new key joins the order and, past the capacity, the oldest key leaves. */
  function Store(c: Cache, cap: int, key: string, e: Entry): Cache {
    if key in c.byKey then Cache(c.byKey[key := e], c.order)
    else
      var order := c.order + [key];
      if |order| > cap then Cache((c.byKey - {order[0]})[key := e], order[1..])
      else Cache(c.byKey[key := e], order)
  }

  class JobIdempotencyCache {
    const cap: int
    const hash: Hash
    var byKey: map<string, Entry>
    var order: seq<string>

    function State(): Cache
      reads this
    {
      Cache(byKey, order)
    }

    constructor (cap: int, hash: Hash)
      ensures this.cap == cap && this.hash == hash && State() == EMPTY
    {
      this.cap, this.hash := cap, hash;
      byKey, order := map[], [];
    }

    method Lookup(key: string, req: Request) returns (v: Verdict)
      ensures v == Check(State(), key, Fingerprint(hash, req))
    {
      var h := Fingerprint(hash, req);
      if key !in byKey {
        return Miss;
      }
      if byKey[key].hash != h {
        return Conflict;
      }
      v := Hit(byKey[key].jobId);
    }

    method Record(key: string, req: Request, jobId: string)
      modifies this
      ensures State() == Store(old(State()), cap, key, Entry(jobId, Fingerprint(hash, req)))
    {
      var h := Fingerprint(hash, req);
      if key !in byKey {
        order := order + [key];
        if |order| > cap {
          var oldest := order[0];
          order := order[1..];
          byKey := byKey - {oldest};
        }
      }
      byKey := byKey[key := Entry(jobId, h)];
    }
  }

  // ----- The order list is the tail of the insertion log -----

  function LogOf(c: Cache, log: seq<string>, key: string): seq<string> {
    if key in c.byKey then log else log + [key]
  }

  /** The last cap entries. */
  function Newest(log: seq<string>, cap: int): seq<string> {
    if cap <= 0 then [] else if |log| <= cap then log else log[|log| - cap..]
  }

  /** The order list has no duplicates and lists exactly the cached keys. */
  ghost predicate Tidy(c: Cache) {
    NoDuplicates(c.order) && forall k :: k in c.byKey <==> k in c.order
  }

  /** Tidy, and the order list is the tail of the log of insertions. */
  ghost predicate CacheOk(c: Cache, cap: int, log: seq<string>) {
    Tidy(c) && c.order == Newest(log, cap)
  }

  function Pushed(order: seq<string>, cap: int, key: string): seq<string> {
    if |order| + 1 > cap then (order + [key])[1..] else order + [key]
  }

  lemma PushedMembers(order: seq<string>, cap: int, key: string)
    requires NoDuplicates(order) && key !in order && cap >= 1
    ensures NoDuplicates(Pushed(order, cap, key)) && key in Pushed(order, cap, key)
    ensures forall k :: k in Pushed(order, cap, key) <==>
              k == key || (k in order && !(|order| + 1 > cap && k == order[0]))
  {
    var all := order + [key];
    assert forall k :: k in all <==> k in order || k == key;
    assert all == [all[0]] + all[1..];
    assert forall k :: k in all[1..] <==> k in all && k != all[0];
    assert all[|all| - 1] == key;
    assert Pushed(order, cap, key)[|Pushed(order, cap, key)| - 1] == key;
  }

  lemma StoreTidy(c: Cache, cap: int, key: string, e: Entry)
    requires cap >= 1 && Tidy(c)
    ensures var d := Store(c, cap, key, e);
            && Tidy(d) && key in d.byKey && d.byKey[key] == e
            && d.order == (if key in c.byKey then c.order else Pushed(c.order, cap, key))
  {
    if key !in c.byKey {
      PushedMembers(c.order, cap, key);
    }
  }

  lemma PushedNewest(log: seq<string>, cap: int, key: string)
    requires cap >= 1
    ensures Pushed(Newest(log, cap), cap, key) == Newest(log + [key], cap)
  {
    var left, right := Pushed(Newest(log, cap), cap, key), Newest(log + [key], cap);
    if |log| < cap {
      assert left == log + [key] == right;
    } else {
      var tail := log[|log| - cap..];
      assert Newest(log, cap) == tail;
      assert left == (tail + [key])[1..] == tail[1..] + [key];
      assert right == (log + [key])[|log| + 1 - cap..] == log[|log| + 1 - cap..] + [key];
      assert tail[1..] == log[|log| + 1 - cap..];
    }
  }

  lemma PushedPlace(order: seq<string>, cap: int, key: string, m: nat, other: string)
    requires PlaceOf(order, key, m) && |order| <= cap && m + 1 < cap
    ensures PlaceOf(Pushed(order, cap, other), key, m + 1) && |Pushed(order, cap, other)| <= cap
  {
    var all := order + [other];
    assert all[|all| - 2 - m] == key;
    if |all| > cap {
      assert all[1..][|all| - 3 - m] == key;
    }
  }

  /** Where a key stands in the order list: exactly m newer keys come after it. */
  predicate PlaceOf(order: seq<string>, key: string, m: nat) {
    m < |order| && order[|order| - 1 - m] == key
  }

  lemma StoreKeepsOrder(c: Cache, cap: int, log: seq<string>, key: string, e: Entry)
    requires cap >= 1 && CacheOk(c, cap, log)
    ensures CacheOk(Store(c, cap, key, e), cap, LogOf(c, log, key))
  {
    StoreTidy(c, cap, key, e);
    if key !in c.byKey {
      PushedNewest(log, cap, key);
    }
  }

  datatype Save = Save(key: string, entry: Entry)

  function Saves(c: Cache, cap: int, saves: seq<Save>): Cache {
    if saves == [] then c
    else
      var last := saves[|saves| - 1];
      Store(Saves(c, cap, saves[..|saves| - 1]), cap, last.key, last.entry)
  }

  /** The log of new-key insertions of a run. */
  function SaveLog(c: Cache, cap: int, saves: seq<Save>): seq<string> {
    if saves == [] then []
    else
      var init := saves[..|saves| - 1];
      LogOf(Saves(c, cap, init), SaveLog(c, cap, init), saves[|saves| - 1].key)
  }

  /** For a capacity of at least one, in every run: a key is cached exactly when it is among the last cap new-key
      insertions. Overwriting a cached key adds nothing to the log, so it does not refresh the key. */
  lemma {:induction false} CacheIsNewest(cap: int, saves: seq<Save>)
    requires cap >= 1
    ensures CacheOk(Saves(EMPTY, cap, saves), cap, SaveLog(EMPTY, cap, saves))
  {
    if saves != [] {
      var init, last := saves[..|saves| - 1], saves[|saves| - 1];
      CacheIsNewest(cap, init);
      StoreKeepsOrder(Saves(EMPTY, cap, init), cap, SaveLog(EMPTY, cap, init), last.key, last.entry);
    }
  }

  /** The bound on the capacity is exact: with none, even the first key is kept outside the order list and can never
      be evicted. */
  lemma CapacityMatters(cap: int, key: string, e: Entry)
    ensures CacheOk(Store(EMPTY, cap, key, e), cap, [key]) <==> cap >= 1
  {
    if cap < 1 {
      assert key in Store(EMPTY, cap, key, e).byKey;
      assert Store(EMPTY, cap, key, e).order == [];
    }
  }

  // ----- The submit protocol -----

  /** Which kinds the route itself turns away: those with a route of their own, and those not licensed. */
  datatype Gate = Gate(elsewhere: set<string>, unlicensed: set<string>)

  /** The runner's answer to a submission: a fresh id, or an error. */
  datatype Grant = Granted(id: string) | Denied

  datatype Response = BadRequest | PaymentRequired | Conflicting | Replayed(id: string) | Created(id: string) | Failed

  /** The cache, the jobs the runner still knows, and every id it ever issued. */
  datatype World = World(cache: Cache, jobs: map<string, Request>, issued: set<string>)

  datatype Setup = Setup(hash: Hash, cap: int, gate: Gate)

  function Submit(s: Setup, w: World, key: string, req: Request, grant: Grant): (World, Response) {
    match grant
    case Denied => (w, Failed)
    case Granted(id) =>
      var cache := if key == "" then w.cache else Store(w.cache, s.cap, key, Entry(id, Fingerprint(s.hash, req)));
      (World(cache, w.jobs[id := req], w.issued + {id}), Created(id))
  }

  function Post(s: Setup, w: World, key: string, req: Request, grant: Grant): (World, Response) {
    if req.kind == "" || req.kind in s.gate.elsewhere then (w, BadRequest)
    else if req.kind in s.gate.unlicensed then (w, PaymentRequired)
    else
      var verdict := if key == "" then Miss else Check(w.cache, key, Fingerprint(s.hash, req));
      match verdict
      case Conflict => (w, Conflicting)
      case Hit(id) => if id in w.jobs then (w, Replayed(id)) else Submit(s, w, key, req, grant)
      case Miss => Submit(s, w, key, req, grant)
  }

  class JobRunner {
    var jobs: map<string, Request>
    var issued: set<string>

    constructor ()
      ensures jobs == map[] && issued == {}
    {
      jobs, issued := map[], {};
    }

    /** The runner as its callers rely on it: a granted submission registers the job under its id. */
    method Submit(req: Request, grant: Grant) returns (ok: bool)
      modifies this
      ensures ok == grant.Granted?
      ensures grant.Denied? ==> jobs == old(jobs) && issued == old(issued)
      ensures grant.Granted? ==> jobs == old(jobs)[grant.id := req] && issued == old(issued) + {grant.id}
    {
      if grant.Denied? {
        return false;
      }
      jobs := jobs[grant.id := req];
      issued := issued + {grant.id};
      ok := true;
    }
  }

  class Server {
    const gate: Gate
    const idempotency: JobIdempotencyCache
    const runner: JobRunner

    constructor (gate: Gate, idempotency: JobIdempotencyCache, runner: JobRunner)
      ensures this.gate == gate && this.idempotency == idempotency && this.runner == runner
    {
      this.gate, this.idempotency, this.runner := gate, idempotency, runner;
    }

    function State(): World
      reads idempotency, runner
    {
      World(idempotency.State(), runner.jobs, runner.issued)
    }

    function GetSetup(): Setup {
      Setup(idempotency.hash, idempotency.cap, gate)
    }

    method HandleJobs(key: string, req: Request, grant: Grant) returns (r: Response)
      modifies idempotency, runner
      ensures (State(), r) == Post(GetSetup(), old(State()), key, req, grant)
    {
      if req.kind == "" || req.kind in gate.elsewhere {
        return BadRequest;
      }
      if req.kind in gate.unlicensed {
        return PaymentRequired;
      }
      if key != "" {
        var v := idempotency.Lookup(key, req);
        match v {
          case Conflict => return Conflicting;
          case Hit(id) =>
            if id in runner.jobs {
              return Replayed(id);
            }
          case Miss =>
        }
      }
      var ok := runner.Submit(req, grant);
      if !ok {
        return Failed;
      }
      if key != "" {
        idempotency.Record(key, req, grant.id);
      }
      r := Created(grant.id);
    }
  }

  // ----- Retries -----

  /** What can happen between two posts: another post, or the retention sweep forgetting some jobs. */
  datatype Call = PostJob(key: string, req: Request, grant: Grant) | Forget(ids: set<string>)

  /** The runner never issues an id twice. */
  predicate Lawful(w: World, call: Call) {
    call.PostJob? && call.grant.Granted? ==> call.grant.id !in w.issued
  }

  function After(s: Setup, w: World, call: Call): World {
    match call
    case PostJob(key, req, grant) => Post(s, w, key, req, grant).0
    case Forget(ids) => w.(jobs := w.jobs - ids)
  }

  /** Whether a key was newly inserted into the cache. */
  predicate Grown(w: World, next: World) {
    !(next.cache.byKey.Keys <= w.cache.byKey.Keys)
  }

  /** The worlds a run of calls passes through, counting the keys newly inserted into the cache on the way. */
  ghost predicate Serves(s: Setup, w: World, calls: seq<Call>, v: World, inserted: nat)
    decreases |calls|
  {
    if calls == [] then v == w && inserted == 0
    else
      var next := After(s, w, calls[0]);
      var n := if Grown(w, next) then 1 else 0;
      Lawful(w, calls[0]) && inserted >= n && Serves(s, next, calls[1..], v, inserted - n)
  }

  /** Any call can come next, a post as long as the runner does not issue an id again. */
  lemma ServesNext(s: Setup, w: World, call: Call)
    requires call.PostJob? && call.grant.Granted? ==> call.grant.id !in w.issued
    ensures exists n: nat :: n <= 1 && Serves(s, w, [call], After(s, w, call), n)
  {
    var next := After(s, w, call);
    var n := if Grown(w, next) then 1 else 0;
    assert [call][1..] == [];
    assert Serves(s, w, [call], next, n);
  }

  /** The entry of key was inserted with exactly m newer keys after it, and still names job id unless that job is
      gone for good. */
  ghost predicate Bound(s: Setup, w: World, key: string, req: Request, id: string, m: nat) {
    && Tidy(w.cache) && |w.cache.order| <= s.cap
    && PlaceOf(w.cache.order, key, m)
    && id in w.issued
    && (id in w.jobs ==> w.cache.byKey[key] == Entry(id, Fingerprint(s.hash, req)))
  }

  lemma StoreKeepsPlace(c: Cache, cap: int, key: string, m: nat, other: string, e: Entry)
    requires Tidy(c) && |c.order| <= cap && PlaceOf(c.order, key, m) && key != other
    requires other !in c.byKey ==> m + 1 < cap
    ensures var d := Store(c, cap, other, e);
            && Tidy(d) && |d.order| <= cap && PlaceOf(d.order, key, if other in c.byKey then m else m + 1)
            && key in d.byKey && d.byKey[key] == c.byKey[key]
            && (other in c.byKey <==> d.byKey.Keys <= c.byKey.Keys)
  {
    StoreTidy(c, cap, other, e);
    assert key in c.order;
    if other !in c.byKey {
      PushedPlace(c.order, cap, key, m, other);
      assert key in Pushed(c.order, cap, other);
      assert other in Store(c, cap, other, e).byKey;
    }
  }

  lemma PostKeepsBound(s: Setup, w: World, key: string, req: Request, id: string, m: nat, call: Call)
    requires Bound(s, w, key, req, id, m) && call.PostJob? && Lawful(w, call)
    requires Grown(w, After(s, w, call)) ==> m + 1 < s.cap
    ensures Bound(s, After(s, w, call), key, req, id, if Grown(w, After(s, w, call)) then m + 1 else m)
  {
    var (v, r) := Post(s, w, call.key, call.req, call.grant);
    assert key in w.cache.order;
    if r.Created? && call.key != "" {
      var e := Entry(call.grant.id, Fingerprint(s.hash, call.req));
      if call.key == key {
        assert v.cache.order == w.cache.order && v.cache.byKey.Keys == w.cache.byKey.Keys;
      } else {
        assert call.key !in w.cache.byKey ==> call.key in v.cache.byKey;
        StoreKeepsPlace(w.cache, s.cap, key, m, call.key, e);
      }
    }
  }

  lemma {:induction false} ServesKeepsBound(s: Setup, w: World, calls: seq<Call>, v: World, inserted: nat,
                                            key: string, req: Request, id: string, m: nat)
    requires Bound(s, w, key, req, id, m) && Serves(s, w, calls, v, inserted) && m + inserted < s.cap
    ensures Bound(s, v, key, req, id, m + inserted)
    decreases |calls|
  {
    if calls != [] {
      var next := After(s, w, calls[0]);
      var n := if Grown(w, next) then 1 else 0;
      if calls[0].PostJob? {
        PostKeepsBound(s, w, key, req, id, m, calls[0]);
      }
      ServesKeepsBound(s, next, calls[1..], v, inserted - n, key, req, id, m + n);
    }
  }

  predicate Admitted(s: Setup, req: Request) {
    req.kind != "" && req.kind !in s.gate.elsewhere && req.kind !in s.gate.unlicensed
  }

  /** The world after a post that created a job under a key. */
  lemma CreatedWorld(s: Setup, w: World, key: string, req: Request, grant: Grant, v: World, id: string)
    requires Post(s, w, key, req, grant) == (v, Created(id)) && key != ""
    ensures grant == Granted(id) && Admitted(s, req)
    ensures v == World(Store(w.cache, s.cap, key, Entry(id, Fingerprint(s.hash, req))), w.jobs[id := req], w.issued + {id})
  {
  }

  /** A bound key whose job is known answers every admitted post. */
  lemma BoundAnswers(s: Setup, w: World, key: string, req: Request, id: string, m: nat, other: Request, grant: Grant)
    requires Bound(s, w, key, req, id, m) && id in w.jobs && key != "" && Admitted(s, other)
    ensures Post(s, w, key, other, grant) ==
            (w, if Fingerprint(s.hash, other) == Fingerprint(s.hash, req) then Replayed(id) else Conflicting)
  {
    assert key in w.cache.order;
  }

  lemma BoundRetry(s: Setup, w: World, key: string, req: Request, id: string, m: nat, other: Request, grant: Grant)
    requires Bound(s, w, key, req, id, m) && id in w.jobs && key != "" && Admitted(s, req)
    requires CollisionFree(s.hash) && NulFree(req.params) && NulFree(other.params)
    ensures Post(s, w, key, req, grant) == (w, Replayed(id))
    ensures other != req ==> Post(s, w, key, other, grant).0 == w &&
                             Post(s, w, key, other, grant).1 in {BadRequest, PaymentRequired, Conflicting}
  {
    BoundAnswers(s, w, key, req, id, m, req, grant);
    if Admitted(s, other) {
      BoundAnswers(s, w, key, req, id, m, other, grant);
      if Fingerprint(s.hash, other) == Fingerprint(s.hash, req) {
        PreimageInjective(req, other);
      }
    }
  }

  /** A post that creates a job leaves its key cached, wherever the key stands in the order. */
  lemma CreatedIsBound(s: Setup, w: World, log: seq<string>, key: string, req: Request, grant: Grant, v: World,
                       id: string, m: nat)
    requires s.cap >= 1 && CacheOk(w.cache, s.cap, log) && key != ""
    requires Post(s, w, key, req, grant) == (v, Created(id)) && PlaceOf(v.cache.order, key, m)
    ensures Bound(s, v, key, req, id, m)
  {
    CreatedWorld(s, w, key, req, grant, v, id);
    StoreKeepsOrder(w.cache, s.cap, log, key, Entry(id, Fingerprint(s.hash, req)));
    StoreTidy(w.cache, s.cap, key, Entry(id, Fingerprint(s.hash, req)));
  }

  /** A new key stands last; a key that was cached already keeps its place. */
  lemma CreatedPlace(s: Setup, w: World, log: seq<string>, key: string, req: Request, grant: Grant, v: World, id: string)
    requires s.cap >= 1 && CacheOk(w.cache, s.cap, log) && key != ""
    requires Post(s, w, key, req, grant) == (v, Created(id))
    ensures if key in w.cache.byKey then v.cache.order == w.cache.order else PlaceOf(v.cache.order, key, 0)
  {
    CreatedWorld(s, w, key, req, grant, v, id);
    StoreTidy(w.cache, s.cap, key, Entry(id, Fingerprint(s.hash, req)));
  }

  lemma CreatedStaysBound(s: Setup, w: World, log: seq<string>, key: string, req: Request, grant: Grant, first: World,
                          id: string, m: nat, calls: seq<Call>, v: World, inserted: nat)
    requires s.cap >= 1 && CacheOk(w.cache, s.cap, log) && key != ""
    requires Post(s, w, key, req, grant) == (first, Created(id)) && PlaceOf(first.cache.order, key, m)
    requires Serves(s, first, calls, v, inserted) && m + inserted < s.cap
    ensures Bound(s, v, key, req, id, m + inserted) && Admitted(s, req)
  {
    CreatedIsBound(s, w, log, key, req, grant, first, id, m);
    ServesKeepsBound(s, first, calls, v, inserted, key, req, id, m);
    CreatedWorld(s, w, key, req, grant, first, id);
  }

  /** At most one submission per key and body. After a post created job id and left m newer keys behind its own, and
      after any further calls that insert fewer than cap - m new keys, a retry with the same key and body answers with
      that job and changes nothing while the runner still knows the job; a retry with another body conflicts and
      changes nothing. */
  lemma RetryReplays(s: Setup, w: World, log: seq<string>, key: string, req: Request, grant: Grant, first: World,
                     id: string, m: nat, calls: seq<Call>, v: World, inserted: nat, other: Request, again: Grant)
    requires s.cap >= 1 && CacheOk(w.cache, s.cap, log) && key != ""
    requires CollisionFree(s.hash) && NulFree(req.params) && NulFree(other.params)
    requires Post(s, w, key, req, grant) == (first, Created(id)) && PlaceOf(first.cache.order, key, m)
    requires Serves(s, first, calls, v, inserted) && m + inserted < s.cap && id in v.jobs
    ensures Post(s, v, key, req, again) == (v, Replayed(id))
    ensures other != req ==> Post(s, v, key, other, again).0 == v &&
                             Post(s, v, key, other, again).1 in {BadRequest, PaymentRequired, Conflicting}
  {
    CreatedStaysBound(s, w, log, key, req, grant, first, id, m, calls, v, inserted);
    BoundRetry(s, v, key, req, id, m + inserted, other, again);
  }
}
