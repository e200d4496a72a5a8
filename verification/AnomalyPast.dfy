/** What a stored row shows under real interleavings: always one past moment of its key, the one its last store call was
    based on. So engine and store agree exactly when the key has not changed since that moment. */
module AnomalyPast {
  import opened AnomalyModel
  import opened AnomalyEngine
  import opened AnomalyStore
  import opened AnomalyCoordinator
  import opened AnomalyAgreement
  import opened AnomalyConcurrency

  /** The last step before j at which call t read its records. */
  function LastRead(b: Behavior, j: nat, t: Tid): nat
    requires j <= |b.actions|
  {
    if j == 0 then 0 else if b.actions[j - 1] == Read(t) then j - 1 else LastRead(b, j - 1, t)
  }

  predicate ClearsFor(a: Action, t: Tid) {
    (a.ClearIdle? || a.ClearSubject?) && a.t == t
  }

  /** The last step before j at which call t cleared instances. */
  function LastClear(b: Behavior, j: nat, t: Tid): nat
    requires j <= |b.actions|
  {
    if j == 0 then 0 else if ClearsFor(b.actions[j - 1], t) then j - 1 else LastClear(b, j - 1, t)
  }

  /** The step is a store call about k that succeeds. */
  predicate Touches(s: State, a: Action, k: Key) {
    || (a.Write? && a.up && a.t in s.pcs && s.pcs[a.t].Writing? && k in s.pcs[a.t].batch)
    || (a.Settle? && a.up && a.t in s.pcs && s.pcs[a.t].Resolving? && k in s.pcs[a.t].clears)
  }

  /** The moment the row of k is based on in state n: when the last successful store call about k had read its records,
      or had cleared its instances. */
  function Basis(b: Behavior, n: nat, k: Key): nat
    requires |b.states| == |b.actions| + 1 && n <= |b.actions|
  {
    if n == 0 then 0
    else if Touches(b.states[n - 1], b.actions[n - 1], k) then
      var t := b.actions[n - 1].t;
      if b.actions[n - 1].Write? then LastRead(b, n - 1, t) else LastClear(b, n - 1, t) + 1
    else Basis(b, n - 1, k)
  }

  lemma {:induction false} LastReadFor(cfg: Config, b: Behavior, j: nat, t: Tid)
    requires Behaves(cfg, b) && j < |b.states| && t in b.states[j].pcs && b.states[j].pcs[t].Writing?
    ensures ReadFor(b, LastRead(b, j, t), j, t)
  {
    assert StepAt(cfg, b, j - 1);
    if b.actions[j - 1] != Read(t) {
      OnlyReadsStartWrites(cfg, b.states[j - 1], b.actions[j - 1], t);
      LastReadFor(cfg, b, j - 1, t);
    }
  }

  predicate Clearing(pc: Pc) {
    pc.Dropping? || pc.Resolving?
  }

  lemma OnlyClearsStartClearing(cfg: Config, s: State, a: Action, t: Tid)
    requires Enabled(s, a) && t in Next(cfg, s, a).pcs && Clearing(Next(cfg, s, a).pcs[t])
    ensures if ClearsFor(a, t) then Next(cfg, s, a).pcs[t].clears == Removed(s, a)
            else t in s.pcs && Clearing(s.pcs[t]) && s.pcs[t].clears == Next(cfg, s, a).pcs[t].clears
  {
  }

  /** A call in flight resolves exactly what its own clear removed. */
  lemma {:induction false} LastClearFor(cfg: Config, b: Behavior, j: nat, t: Tid)
    requires Behaves(cfg, b) && j < |b.states| && t in b.states[j].pcs && Clearing(b.states[j].pcs[t])
    ensures var c := LastClear(b, j, t);
            c < j && ClearsFor(b.actions[c], t) && b.states[j].pcs[t].clears == Removed(b.states[c], b.actions[c])
  {
    assert StepAt(cfg, b, j - 1);
    OnlyClearsStartClearing(cfg, b.states[j - 1], b.actions[j - 1], t);
    if !ClearsFor(b.actions[j - 1], t) {
      LastClearFor(cfg, b, j - 1, t);
    }
  }

  lemma RemovedIsGone(cfg: Config, s: State, a: Action, k: Key)
    requires Enabled(s, a) && k in Removed(s, a)
    ensures k !in Next(cfg, s, a).active
  {
  }

  /** The slot of k shows the live set at k: open exactly when k is live, and then with its projection. */
  predicate ShowsAt(cfg: Config, slot: Slot, active: Active, k: Key) {
    if k in active then slot == Holds(Row(RecordFor(cfg, active[k]), Open))
    else !(slot.Holds? && slot.row.resolution == Open)
  }

  lemma UntouchedRow(cfg: Config, s: State, a: Action, k: Key)
    requires GoodConfig(cfg) && StateOk(cfg, s) && Enabled(s, a) && Encodable(k) && !Touches(s, a, k)
    ensures SlotOf(Next(cfg, s, a).rows, k) == SlotOf(s.rows, k)
  {
    match a
    case Write(t, _) =>
      assert PcOk(cfg, s.pcs[t]);
      BatchAt(cfg, s.rows, s.pcs[t].batch, s.pcs[t].order, k);
    case Settle(t, _) =>
      assert PcOk(cfg, s.pcs[t]);
      MarkAt(s.rows, s.pcs[t].clears, s.pcs[t].at, k);
    case _ =>
  }

  lemma WrittenRow(cfg: Config, b: Behavior, n: nat, k: Key)
    requires GoodConfig(cfg) && Behaves(cfg, b) && n < |b.actions| && Encodable(k)
    requires Touches(b.states[n], b.actions[n], k) && b.actions[n].Write?
    ensures var e := Basis(b, n + 1, k); e <= n && ShowsAt(cfg, SlotOf(b.states[n + 1].rows, k), b.states[e].active, k)
  {
    var s, t := b.states[n], b.actions[n].t;
    assert StepAt(cfg, b, n);
    BehaviorOk(cfg, b, n);
    LastReadFor(cfg, b, n, t);
    assert PcOk(cfg, s.pcs[t]);
    BatchAt(cfg, s.rows, s.pcs[t].batch, s.pcs[t].order, k);
    assert k in Elems(s.pcs[t].order);
  }

  lemma ResolvedRow(cfg: Config, b: Behavior, n: nat, k: Key)
    requires GoodConfig(cfg) && Behaves(cfg, b) && n < |b.actions| && Encodable(k)
    requires Touches(b.states[n], b.actions[n], k) && b.actions[n].Settle?
    ensures var e := Basis(b, n + 1, k); e <= n && ShowsAt(cfg, SlotOf(b.states[n + 1].rows, k), b.states[e].active, k)
  {
    var s, t := b.states[n], b.actions[n].t;
    assert StepAt(cfg, b, n);
    BehaviorOk(cfg, b, n);
    LastClearFor(cfg, b, n, t);
    var c := LastClear(b, n, t);
    assert StepAt(cfg, b, c);
    RemovedIsGone(cfg, b.states[c], b.actions[c], k);
    assert PcOk(cfg, s.pcs[t]);
    MarkAt(s.rows, s.pcs[t].clears, s.pcs[t].at, k);
  }

  /** In every interleaving, whichever store calls fail, the row of every key shows the live set of one past moment: the
      one its last successful store call was based on. */
  lemma {:induction false} RowShowsBasis(cfg: Config, b: Behavior, n: nat, k: Key)
    requires GoodConfig(cfg) && Behaves(cfg, b) && n < |b.states| && Encodable(k)
    ensures Basis(b, n, k) <= n && ShowsAt(cfg, SlotOf(b.states[n].rows, k), b.states[Basis(b, n, k)].active, k)
  {
    if n > 0 {
      var s, a := b.states[n - 1], b.actions[n - 1];
      assert StepAt(cfg, b, n - 1);
      if !Touches(s, a, k) {
        BehaviorOk(cfg, b, n - 1);
        RowShowsBasis(cfg, b, n - 1, k);
        UntouchedRow(cfg, s, a, k);
      } else if a.Write? {
        WrittenRow(cfg, b, n - 1, k);
      } else {
        ResolvedRow(cfg, b, n - 1, k);
      }
    }
  }

  predicate RowIs(cfg: Config, s: State, k: Key, t: Tracked) {
    SlotOf(s.rows, k) == Holds(Row(RecordFor(cfg, t), Open))
  }

  /** Engine and store agree at k: it is live exactly when its row is open, and its row is current unless it is dirty. */
  predicate AgreesAt(cfg: Config, s: State, k: Key) {
    && (k in s.active <==> IsOpen(s.rows, k))
    && (k in s.active && k !in s.dirty ==> RowIs(cfg, s, k, s.active[k]))
  }

  /** The key is as it was: live or not as before, and with the same record unless it is dirty. */
  predicate Unchanged(cfg: Config, was: Active, s: State, k: Key) {
    && (k in s.active <==> k in was)
    && (k in s.active && k in was && k !in s.dirty ==> RecordFor(cfg, s.active[k]) == RecordFor(cfg, was[k]))
  }

  /** Exactly when they agree: in every state of every interleaving, with any store failures, engine and store agree at a
      key if and only if the key is as it was at the moment its row is based on. */
  lemma AgreesExactly(cfg: Config, b: Behavior, n: nat, k: Key)
    requires GoodConfig(cfg) && Behaves(cfg, b) && n < |b.states| && Encodable(k)
    ensures Basis(b, n, k) <= n
    ensures AgreesAt(cfg, b.states[n], k) <==> Unchanged(cfg, b.states[Basis(b, n, k)].active, b.states[n], k)
  {
    RowShowsBasis(cfg, b, n, k);
  }
}
