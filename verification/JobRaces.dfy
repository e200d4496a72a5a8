/** Job submission under real interleavings: a post checks the cache, asks the runner for the job it found, submits and
    stores in separately locked steps, and any number of posts take their steps in any order. */
module JobRaces {
  import opened JobIdempotency

  type Tid = nat

  /** Where a post in flight stands, by what it does next: look up the job its key named, submit, or store the job it
      created. A post that is not listed has not begun or has answered. */
  datatype Pc =
    | Looking(key: string, req: Request, id: string)
    | Submitting(key: string, req: Request)
    | Storing(key: string, req: Request, id: string)

  datatype State = State(w: World, pcs: map<Tid, Pc>)

  const START := State(World(JobIdempotency.EMPTY, map[], {}), map[])

  datatype Action =
    | Begin(t: Tid, key: string, req: Request)
    | Look(t: Tid)
    | Submit(t: Tid, grant: Grant)
    | Bind(t: Tid)
    | Forget(ids: set<string>)

  predicate Enabled(st: State, a: Action) {
    match a
    case Begin(t, _, _) => t !in st.pcs
    case Look(t) => t in st.pcs && st.pcs[t].Looking?
    case Submit(t, grant) => t in st.pcs && st.pcs[t].Submitting? && (grant.Granted? ==> grant.id !in st.w.issued)
    case Bind(t) => t in st.pcs && st.pcs[t].Storing?
    case Forget(_) => true
  }

  function Verdicts(s: Setup, w: World, key: string, req: Request): Verdict {
    if key == "" then Miss else Check(w.cache, key, Fingerprint(s.hash, req))
  }

  function Next(s: Setup, st: State, a: Action): State
    requires Enabled(st, a)
  {
    match a
    case Begin(t, key, req) =>
      if !Admitted(s, req) then st
      else (match Verdicts(s, st.w, key, req)
            case Conflict => st
            case Hit(id) => st.(pcs := st.pcs[t := Looking(key, req, id)])
            case Miss => st.(pcs := st.pcs[t := Submitting(key, req)]))
    case Look(t) =>
      var pc := st.pcs[t];
      st.(pcs := if pc.id in st.w.jobs then st.pcs - {t} else st.pcs[t := Submitting(pc.key, pc.req)])
    case Submit(t, grant) =>
      var pc := st.pcs[t];
      if grant.Denied? then st.(pcs := st.pcs - {t})
      else
        State(st.w.(jobs := st.w.jobs[grant.id := pc.req], issued := st.w.issued + {grant.id}),
              if pc.key == "" then st.pcs - {t} else st.pcs[t := Storing(pc.key, pc.req, grant.id)])
    case Bind(t) =>
      var pc := st.pcs[t];
      var entry := Entry(pc.id, Fingerprint(s.hash, pc.req));
      State(st.w.(cache := Store(st.w.cache, s.cap, pc.key, entry)), st.pcs - {t})
    case Forget(ids) => st.(w := st.w.(jobs := st.w.jobs - ids))
  }

  /** What a step answers the post it belongs to, if that step ends it. */
  datatype Reply = Pending | Replied(response: Response)

  function Answer(s: Setup, st: State, a: Action): Reply
    requires Enabled(st, a)
  {
    match a
    case Begin(t, key, req) =>
      if req.kind == "" || req.kind in s.gate.elsewhere then Replied(BadRequest)
      else if req.kind in s.gate.unlicensed then Replied(PaymentRequired)
      else if Verdicts(s, st.w, key, req).Conflict? then Replied(Conflicting) else Pending
    case Look(t) => if st.pcs[t].id in st.w.jobs then Replied(Replayed(st.pcs[t].id)) else Pending
    case Submit(t, grant) =>
      if grant.Denied? then Replied(Failed) else if st.pcs[t].key == "" then Replied(Created(grant.id)) else Pending
    case Bind(t) => Replied(Created(st.pcs[t].id))
    case Forget(_) => Pending
  }

  // ----- A post whose steps nothing comes between -----

  function FromSubmit(s: Setup, st: State, t: Tid, grant: Grant): (State, Reply)
    requires Enabled(st, Submit(t, grant))
  {
    var next := Next(s, st, Submit(t, grant));
    if Answer(s, st, Submit(t, grant)).Pending? then (Next(s, next, Bind(t)), Answer(s, next, Bind(t)))
    else (next, Answer(s, st, Submit(t, grant)))
  }

  function FromLook(s: Setup, st: State, t: Tid, grant: Grant): (State, Reply)
    requires Enabled(st, Look(t)) && (grant.Granted? ==> grant.id !in st.w.issued)
  {
    if Answer(s, st, Look(t)).Pending? then FromSubmit(s, Next(s, st, Look(t)), t, grant)
    else (Next(s, st, Look(t)), Answer(s, st, Look(t)))
  }

  function Alone(s: Setup, st: State, t: Tid, key: string, req: Request, grant: Grant): (State, Reply)
    requires t !in st.pcs && (grant.Granted? ==> grant.id !in st.w.issued)
  {
    var a := Begin(t, key, req);
    var next := Next(s, st, a);
    if Answer(s, st, a).Replied? then (next, Answer(s, st, a))
    else if next.pcs[t].Looking? then FromLook(s, next, t, grant) else FromSubmit(s, next, t, grant)
  }

  lemma FromSubmitIsSubmit(s: Setup, st: State, t: Tid, grant: Grant)
    requires Enabled(st, Submit(t, grant))
    ensures var pc := st.pcs[t];
            var (w, r) := JobIdempotency.Submit(s, st.w, pc.key, pc.req, grant);
            FromSubmit(s, st, t, grant) == (State(w, st.pcs - {t}), Replied(r))
  {
    var next := Next(s, st, Submit(t, grant));
    if Answer(s, st, Submit(t, grant)).Pending? {
      assert next.pcs - {t} == st.pcs - {t};
    }
  }

  /** The handler as one call is the uninterrupted sequence of its steps, with the same answer. */
  lemma AloneIsPost(s: Setup, st: State, t: Tid, key: string, req: Request, grant: Grant)
    requires t !in st.pcs && (grant.Granted? ==> grant.id !in st.w.issued)
    ensures var (w, r) := Post(s, st.w, key, req, grant);
            Alone(s, st, t, key, req, grant) == (State(w, st.pcs), Replied(r))
  {
    var next := Next(s, st, Begin(t, key, req));
    if Answer(s, st, Begin(t, key, req)).Pending? {
      assert next.pcs - {t} == st.pcs && next.w == st.w;
      if next.pcs[t].Looking? {
        var after := Next(s, next, Look(t));
        assert after.pcs - {t} == st.pcs;
        if Answer(s, next, Look(t)).Pending? {
          FromSubmitIsSubmit(s, after, t, grant);
        }
      } else {
        FromSubmitIsSubmit(s, next, t, grant);
      }
    }
  }

  // ----- Behaviours -----

  datatype Behavior = Behavior(states: seq<State>, actions: seq<Action>)

  ghost predicate StepAt(s: Setup, b: Behavior, i: nat)
    requires |b.states| == |b.actions| + 1 && i < |b.actions|
  {
    Enabled(b.states[i], b.actions[i]) && b.states[i + 1] == Next(s, b.states[i], b.actions[i])
  }

  ghost predicate Behaves(s: Setup, b: Behavior) {
    && |b.states| == |b.actions| + 1
    && b.states[0] == START
    && forall i: nat :: i < |b.actions| ==> StepAt(s, b, i)
  }

  /** What the posts have stored before step n, in order. */
  function SavesOf(s: Setup, b: Behavior, n: nat): seq<Save>
    requires |b.states| == |b.actions| + 1 && n <= |b.actions|
  {
    if n == 0 then []
    else
      var before, a, pcs := SavesOf(s, b, n - 1), b.actions[n - 1], b.states[n - 1].pcs;
      if a.Bind? && a.t in pcs && pcs[a.t].Storing? then before + [SaveOf(s, pcs[a.t])] else before
  }

  function SaveOf(s: Setup, pc: Pc): Save
    requires pc.Storing?
  {
    Save(pc.key, Entry(pc.id, Fingerprint(s.hash, pc.req)))
  }

  lemma {:induction false} CacheIsSaves(s: Setup, b: Behavior, n: nat)
    requires Behaves(s, b) && n <= |b.actions|
    ensures b.states[n].w.cache == Saves(EMPTY, s.cap, SavesOf(s, b, n))
  {
    if n > 0 {
      CacheIsSaves(s, b, n - 1);
      assert StepAt(s, b, n - 1);
      var before := SavesOf(s, b, n - 1);
      if b.actions[n - 1].Bind? {
        var more := SavesOf(s, b, n);
        assert more[..|more| - 1] == before;
      }
    }
  }

  /** Save i is the last one under its key. */
  predicate Latest(saves: seq<Save>, key: string, i: nat) {
    i < |saves| && saves[i].key == key && forall j :: i < j < |saves| ==> saves[j].key != key
  }

  /** Storing one key adds nothing under another. */
  lemma StoreElsewhere(c: Cache, cap: int, key: string, e: Entry, other: string)
    requires other != key && other in Store(c, cap, key, e).byKey
    ensures other in c.byKey && Store(c, cap, key, e).byKey[other] == c.byKey[other]
  {
  }

  /** What the cache holds under a key is what was last stored under it. */
  lemma {:induction false} CachedIsLatest(cap: int, saves: seq<Save>, key: string) returns (i: nat)
    requires key in Saves(EMPTY, cap, saves).byKey
    ensures Latest(saves, key, i) && Saves(EMPTY, cap, saves).byKey[key] == saves[i].entry
  {
    var n := |saves| - 1;
    var init, last := saves[..n], saves[n];
    if last.key == key {
      i := n;
    } else {
      StoreElsewhere(Saves(EMPTY, cap, init), cap, last.key, last.entry, key);
      i := CachedIsLatest(cap, init, key);
    }
  }

  function Matching(e: Entry, hash: string): Verdict {
    if e.hash == hash then Hit(e.jobId) else Conflict
  }

  /** Which posts find a job, in every interleaving. A post that checks in state n misses exactly when its key is not
      among the last cap keys newly inserted before; otherwise it finds the job last stored under its key if the body
      is the same, and conflicts if it is not. */
  lemma CheckExactly(s: Setup, b: Behavior, n: nat, key: string, req: Request)
    requires s.cap >= 1 && Behaves(s, b) && n <= |b.actions|
    ensures var saves := SavesOf(s, b, n);
            var verdict := Check(b.states[n].w.cache, key, Fingerprint(s.hash, req));
            if key !in Newest(SaveLog(EMPTY, s.cap, saves), s.cap) then verdict == Miss
            else exists i: nat :: Latest(saves, key, i) && verdict == Matching(saves[i].entry, Fingerprint(s.hash, req))
  {
    var saves := SavesOf(s, b, n);
    CacheIsSaves(s, b, n);
    CacheIsNewest(s.cap, saves);
    if key in Saves(EMPTY, s.cap, saves).byKey {
      var _ := CachedIsLatest(s.cap, saves, key);
    }
  }

  // ----- Where a post in flight comes from -----

  /** Post t began at step k, and in state n it is still the same post. */
  ghost predicate BeganAt(s: Setup, b: Behavior, k: nat, n: nat, t: Tid)
    requires |b.states| == |b.actions| + 1 && n <= |b.actions|
  {
    && k < n && t in b.states[n].pcs
    && b.actions[k] == Begin(t, b.states[n].pcs[t].key, b.states[n].pcs[t].req)
    && Admitted(s, b.states[n].pcs[t].req)
  }

  /** A post looks up the job its own check found. */
  lemma {:induction false} LookingStems(s: Setup, b: Behavior, n: nat, t: Tid) returns (k: nat)
    requires Behaves(s, b) && n <= |b.actions| && t in b.states[n].pcs && b.states[n].pcs[t].Looking?
    ensures BeganAt(s, b, k, n, t)
    ensures var pc := b.states[n].pcs[t]; Verdicts(s, b.states[k].w, pc.key, pc.req) == Hit(pc.id)
  {
    assert StepAt(s, b, n - 1);
    if b.actions[n - 1].Begin? && b.actions[n - 1].t == t {
      k := n - 1;
    } else {
      assert t in b.states[n - 1].pcs && b.states[n - 1].pcs[t] == b.states[n].pcs[t];
      k := LookingStems(s, b, n - 1, t);
    }
  }

  /** A post stores the job its own submission created. */
  lemma {:induction false} StoringStems(s: Setup, b: Behavior, n: nat, t: Tid) returns (k: nat)
    requires Behaves(s, b) && n <= |b.actions| && t in b.states[n].pcs && b.states[n].pcs[t].Storing?
    ensures var pc := b.states[n].pcs[t];
            k < n && b.actions[k] == Submit(t, Granted(pc.id)) && t in b.states[k].pcs &&
            b.states[k].pcs[t] == Submitting(pc.key, pc.req)
  {
    assert StepAt(s, b, n - 1);
    if b.actions[n - 1].Submit? && b.actions[n - 1].t == t {
      k := n - 1;
    } else {
      assert t in b.states[n - 1].pcs && b.states[n - 1].pcs[t] == b.states[n].pcs[t];
      k := StoringStems(s, b, n - 1, t);
    }
  }

  /** At step g post t found that the job its check had named is no longer known. */
  ghost predicate FoundGone(s: Setup, b: Behavior, k: nat, g: nat, n: nat, t: Tid)
    requires |b.states| == |b.actions| + 1 && n <= |b.actions|
  {
    && k < g < n && b.actions[g] == Look(t) && t in b.states[n].pcs
    && var pc := b.states[n].pcs[t];
       var v := Verdicts(s, b.states[k].w, pc.key, pc.req);
       v.Hit? && v.id !in b.states[g].w.jobs
  }

  /** A post submits because its own check missed, or because the job it found was no longer known. */
  lemma {:induction false} SubmittingStems(s: Setup, b: Behavior, n: nat, t: Tid) returns (k: nat, g: nat)
    requires Behaves(s, b) && n <= |b.actions| && t in b.states[n].pcs && b.states[n].pcs[t].Submitting?
    ensures BeganAt(s, b, k, n, t)
    ensures var pc := b.states[n].pcs[t];
            Verdicts(s, b.states[k].w, pc.key, pc.req) == Miss || FoundGone(s, b, k, g, n, t)
  {
    assert StepAt(s, b, n - 1);
    var a := b.actions[n - 1];
    if a.Begin? && a.t == t {
      k, g := n - 1, 0;
    } else if a.Look? && a.t == t {
      k := LookingStems(s, b, n - 1, t);
      g := n - 1;
    } else {
      assert t in b.states[n - 1].pcs && b.states[n - 1].pcs[t] == b.states[n].pcs[t];
      k, g := SubmittingStems(s, b, n - 1, t);
    }
  }

  /** Every stored entry was stored by a post. */
  lemma {:induction false} SaveStems(s: Setup, b: Behavior, n: nat, i: nat) returns (j: nat)
    requires Behaves(s, b) && n <= |b.actions| && i < |SavesOf(s, b, n)|
    ensures j < n && b.actions[j].Bind? && b.actions[j].t in b.states[j].pcs && b.states[j].pcs[b.actions[j].t].Storing?
    ensures SavesOf(s, b, n)[i] == SaveOf(s, b.states[j].pcs[b.actions[j].t])
  {
    if i < |SavesOf(s, b, n - 1)| {
      j := SaveStems(s, b, n - 1, i);
    } else {
      j := n - 1;
    }
  }

  // ----- What a replay returns, and when a key creates again -----

  /** An issued id keeps its request for as long as the job is known. */
  lemma {:induction false} JobKeepsRequest(s: Setup, b: Behavior, k: nat, n: nat, u: Tid, id: string)
    requires Behaves(s, b) && k < n <= |b.actions| && b.actions[k] == Submit(u, Granted(id)) && u in b.states[k].pcs
    ensures id in b.states[n].w.issued
    ensures id in b.states[n].w.jobs ==> b.states[n].w.jobs[id] == b.states[k].pcs[u].req
  {
    assert StepAt(s, b, n - 1);
    if k < n - 1 {
      JobKeepsRequest(s, b, k, n - 1, u, id);
    }
  }

  ghost predicate AllNulFree(b: Behavior) {
    forall i :: 0 <= i < |b.actions| && b.actions[i].Begin? ==> NulFree(b.actions[i].req.params)
  }

  /** A post that stores has the NUL-free parameters it began with. */
  lemma StoringNulFree(s: Setup, b: Behavior, j: nat, u: Tid) returns (k: nat)
    requires Behaves(s, b) && AllNulFree(b) && j <= |b.actions| && u in b.states[j].pcs && b.states[j].pcs[u].Storing?
    ensures var pc := b.states[j].pcs[u];
            && k < j && b.actions[k] == Submit(u, Granted(pc.id)) && u in b.states[k].pcs
            && b.states[k].pcs[u] == Submitting(pc.key, pc.req) && NulFree(pc.req.params)
  {
    k := StoringStems(s, b, j, u);
    var m, _ := SubmittingStems(s, b, k, u);
  }

  /** Replays are sound in every interleaving: the job a post is answered with was submitted by a post with the same key
      and the same body, and it is a job for that body. */
  lemma ReplayedWasCreated(s: Setup, b: Behavior, n: nat, id: string) returns (k: nat, u: Tid)
    requires s.cap >= 1 && CollisionFree(s.hash) && Behaves(s, b) && AllNulFree(b)
    requires n < |b.actions| && Enabled(b.states[n], b.actions[n])
    requires Answer(s, b.states[n], b.actions[n]) == Replied(Replayed(id))
    ensures var pc := b.states[n].pcs[b.actions[n].t];
            && k < n && b.actions[k] == Submit(u, Granted(id)) && u in b.states[k].pcs
            && b.states[k].pcs[u] == Submitting(pc.key, pc.req)
            && id in b.states[n].w.jobs && b.states[n].w.jobs[id] == pc.req
  {
    var t := b.actions[n].t;
    var pc := b.states[n].pcs[t];
    var m := LookingStems(s, b, n, t);
    var saves := SavesOf(s, b, m);
    CacheIsSaves(s, b, m);
    var i := CachedIsLatest(s.cap, saves, pc.key);
    var j := SaveStems(s, b, m, i);
    u := b.actions[j].t;
    k := StoringNulFree(s, b, j, u);
    PreimageInjective(pc.req, b.states[j].pcs[u].req);
    JobKeepsRequest(s, b, k, n, u, id);
  }

  /** When a key creates again, in every interleaving: a post that submits although some post had stored the key before
      its check did so because the key had been evicted by then, or because the job last stored under the key was for
      the same body and no longer known when it looked. */
  lemma CreatesAgainOnlyIf(s: Setup, b: Behavior, n: nat, t: Tid) returns (k: nat, g: nat)
    requires s.cap >= 1 && Behaves(s, b) && n <= |b.actions|
    requires t in b.states[n].pcs && b.states[n].pcs[t].Submitting? && b.states[n].pcs[t].key != ""
    ensures BeganAt(s, b, k, n, t)
    ensures var key, saves := b.states[n].pcs[t].key, SavesOf(s, b, k);
            forall i: nat :: Latest(saves, key, i) ==>
              || key !in Newest(SaveLog(EMPTY, s.cap, saves), s.cap)
              || (&& k < g < n && b.actions[g] == Look(t) && saves[i].entry.jobId !in b.states[g].w.jobs
                  && saves[i].entry.hash == Fingerprint(s.hash, b.states[n].pcs[t].req))
  {
    k, g := SubmittingStems(s, b, n, t);
    var pc, saves := b.states[n].pcs[t], SavesOf(s, b, k);
    forall i: nat | Latest(saves, pc.key, i)
      ensures || pc.key !in Newest(SaveLog(EMPTY, s.cap, saves), s.cap)
              || (&& k < g < n && b.actions[g] == Look(t) && saves[i].entry.jobId !in b.states[g].w.jobs
                  && saves[i].entry.hash == Fingerprint(s.hash, pc.req))
    {
      CheckExactly(s, b, k, pc.key, pc.req);
    }
  }

  // ----- Simultaneous posts -----

  function Then(s: Setup, b: Behavior, a: Action): Behavior
    requires b.states != [] && Enabled(b.states[|b.states| - 1], a)
  {
    Behavior(b.states + [Next(s, b.states[|b.states| - 1], a)], b.actions + [a])
  }

  function Last(b: Behavior): State
    requires b.states != []
  {
    b.states[|b.states| - 1]
  }

  lemma ThenBehaves(s: Setup, b: Behavior, a: Action)
    requires Behaves(s, b) && Enabled(Last(b), a)
    ensures Behaves(s, Then(s, b, a)) && Last(Then(s, b, a)) == Next(s, Last(b), a)
  {
    var c := Then(s, b, a);
    forall i: nat | i < |c.actions| ensures StepAt(s, c, i) {
      if i < |b.actions| {
        assert StepAt(s, b, i);
      }
    }
  }

  /** Two posts that both check before either stores: one key and one body end with two jobs. */
  lemma SimultaneousPostsBothCreate(s: Setup, key: string, req: Request, x: string, y: string) returns (b: Behavior)
    requires Admitted(s, req) && key != "" && x != y
    ensures Behaves(s, b) && Last(b).pcs == map[] && Last(b).w.jobs == map[x := req, y := req]
    ensures b.actions == [Begin(1, key, req), Begin(2, key, req), Submit(1, Granted(x)), Bind(1), Submit(2, Granted(y)), Bind(2)]
  {
    b := Behavior([START], []);
    ThenBehaves(s, b, Begin(1, key, req));
    b := Then(s, b, Begin(1, key, req));
    assert Last(b) == State(START.w, map[1 := Submitting(key, req)]);
    ThenBehaves(s, b, Begin(2, key, req));
    b := Then(s, b, Begin(2, key, req));
    assert Last(b) == State(START.w, map[1 := Submitting(key, req), 2 := Submitting(key, req)]);
    ThenBehaves(s, b, Submit(1, Granted(x)));
    b := Then(s, b, Submit(1, Granted(x)));
    assert Last(b).w == World(EMPTY, map[x := req], {x});
    assert Last(b).pcs == map[1 := Storing(key, req, x), 2 := Submitting(key, req)];
    ThenBehaves(s, b, Bind(1));
    b := Then(s, b, Bind(1));
    assert Last(b).w.jobs == map[x := req] && Last(b).w.issued == {x};
    assert Last(b).pcs == map[2 := Submitting(key, req)];
    ThenBehaves(s, b, Submit(2, Granted(y)));
    b := Then(s, b, Submit(2, Granted(y)));
    assert Last(b).w.jobs == map[x := req, y := req];
    assert Last(b).pcs == map[2 := Storing(key, req, y)];
    ThenBehaves(s, b, Bind(2));
    b := Then(s, b, Bind(2));
  }
}
