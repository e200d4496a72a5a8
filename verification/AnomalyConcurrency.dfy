/** The coordinator under real interleavings: each call is split at its lock boundaries, and any number of calls in
    flight take their steps in any order. */
module AnomalyConcurrency {
  import opened AnomalyModel
  import opened AnomalyEngine
  import opened AnomalyStore
  import opened AnomalyCoordinator
  import opened AnomalyAgreement

  type Tid = nat

  /** Where a call in flight stands, by what it does next. A call that is not listed has not begun or has returned.
      A write holds the instances it read; the records it writes are their projections. */
  datatype Pc =
    | Marking(key: Key)
    | Reading(keys: seq<Key>)
    | Writing(order: seq<Key>, batch: Active)
    | Dropping(clears: set<Key>, at: Time)
    | Resolving(clears: set<Key>, at: Time)

  datatype State = State(active: Active, dirty: set<Key>, rows: Rows, pcs: map<Tid, Pc>)

  const START := State(map[], {}, map[], map[])

  /** One atomic step of one call. The first four begin a call: they run under the engine's lock, or for Drain under
      the coordinator's. */
  datatype Action =
    | Sight(t: Tid, d: Detection, at: Time)
    | ClearIdle(t: Tid, source: string, cutoff: Time)
    | ClearSubject(t: Tid, subject: SubjectRef, at: Time)
    | Drain(t: Tid, order: seq<Key>)
    | Mark(t: Tid)
    | Read(t: Tid)
    | Write(t: Tid, up: bool)
    | Drop(t: Tid)
    | Settle(t: Tid, up: bool)

  predicate Enabled(s: State, a: Action) {
    match a
    case Sight(t, _, _) => t !in s.pcs
    case ClearIdle(t, _, _) => t !in s.pcs
    case ClearSubject(t, _, _) => t !in s.pcs
    case Drain(t, order) => t !in s.pcs && Enumerates(order, s.dirty)
    case Mark(t) => t in s.pcs && s.pcs[t].Marking?
    case Read(t) => t in s.pcs && s.pcs[t].Reading?
    case Write(t, _) => t in s.pcs && s.pcs[t].Writing?
    case Drop(t) => t in s.pcs && s.pcs[t].Dropping?
    case Settle(t, _) => t in s.pcs && s.pcs[t].Resolving?
  }

  function Pick(active: Active, keys: seq<Key>): Active {
    map k | k in active && k in keys :: active[k]
  }

  /** The keys whose instances an action removes from the live set. */
  function Removed(s: State, a: Action): set<Key> {
    match a
    case ClearIdle(_, source, cutoff) => Idle(s.active, source, cutoff)
    case ClearSubject(_, subject, _) => AboutSubject(s.active, subject)
    case _ => {}
  }

  function Clear(s: State, t: Tid, keys: set<Key>, at: Time): State {
    if keys == {} then s else s.(active := s.active - keys, pcs := s.pcs[t := Dropping(keys, at)])
  }

  function Next(cfg: Config, s: State, a: Action): State
    requires Enabled(s, a)
  {
    match a
    case Sight(t, d, at) =>
      if !Accepted(cfg, d) then s
      else
        var pc := if Material(cfg, s.active, d) then Reading([KeyOf(d)]) else Marking(KeyOf(d));
        s.(active := Fold(cfg, s.active, d, at), pcs := s.pcs[t := pc])
    case ClearIdle(t, _, cutoff) => Clear(s, t, Removed(s, a), cutoff)
    case ClearSubject(t, _, at) => Clear(s, t, Removed(s, a), at)
    case Drain(t, order) => s.(dirty := {}, pcs := s.pcs[t := Reading(order)])
    case Mark(t) => s.(dirty := s.dirty + {s.pcs[t].key}, pcs := s.pcs - {t})
    case Read(t) => var keys := s.pcs[t].keys; s.(pcs := s.pcs[t := Writing(keys, Pick(s.active, keys))])
    case Write(t, up) =>
      var pc := s.pcs[t];
      s.(rows := if up then PutAll(s.rows, RecordsFor(cfg, pc.batch, pc.order)) else s.rows, pcs := s.pcs - {t})
    case Drop(t) => var pc := s.pcs[t]; s.(dirty := s.dirty - pc.clears, pcs := s.pcs[t := Resolving(pc.clears, pc.at)])
    case Settle(t, up) =>
      var pc := s.pcs[t];
      s.(rows := if up then MarkAll(s.rows, Ids(pc.clears), pc.at) else s.rows, pcs := s.pcs - {t})
  }

  /** A behaviour: the states passed through and the actions between them, from the empty state. */
  datatype Behavior = Behavior(states: seq<State>, actions: seq<Action>)

  ghost predicate StepAt(cfg: Config, b: Behavior, i: nat)
    requires |b.states| == |b.actions| + 1 && i < |b.actions|
  {
    Enabled(b.states[i], b.actions[i]) && b.states[i + 1] == Next(cfg, b.states[i], b.actions[i])
  }

  predicate KindFreeAction(a: Action) {
    a.Sight? ==> PipeFree(a.d.subject.kind)
  }

  ghost predicate Behaves(cfg: Config, b: Behavior) {
    && |b.states| == |b.actions| + 1
    && b.states[0] == START
    && (forall i: nat :: i < |b.actions| ==> StepAt(cfg, b, i) && KindFreeAction(b.actions[i]))
  }

  // ----- Well-formedness along every behaviour -----

  ghost predicate PcOk(cfg: Config, pc: Pc) {
    match pc
    case Writing(order, batch) => LiveOk(cfg, batch) && batch.Keys <= Elems(order)
    case Dropping(clears, _) => forall k :: k in clears ==> Encodable(k)
    case Resolving(clears, _) => forall k :: k in clears ==> Encodable(k)
    case _ => true
  }

  ghost predicate StateOk(cfg: Config, s: State) {
    LiveOk(cfg, s.active) && forall t :: t in s.pcs ==> PcOk(cfg, s.pcs[t])
  }

  lemma NextOk(cfg: Config, s: State, a: Action)
    requires GoodConfig(cfg) && StateOk(cfg, s) && Enabled(s, a) && KindFreeAction(a)
    ensures StateOk(cfg, Next(cfg, s, a))
  {
    match a
    case Sight(_, d, at) =>
      FoldLiveOk(cfg, s.active, d, at);
    case Read(t) =>
      assert PcOk(cfg, Writing(s.pcs[t].keys, Pick(s.active, s.pcs[t].keys)));
    case Drop(t) =>
      assert PcOk(cfg, s.pcs[t]);
    case _ =>
  }

  lemma {:induction false} BehaviorOk(cfg: Config, b: Behavior, n: nat)
    requires GoodConfig(cfg) && Behaves(cfg, b) && n < |b.states|
    ensures StateOk(cfg, b.states[n])
  {
    if n > 0 {
      BehaviorOk(cfg, b, n - 1);
      assert StepAt(cfg, b, n - 1);
      NextOk(cfg, b.states[n - 1], b.actions[n - 1]);
    }
  }

  // ----- What a write writes -----

  /** Action i is the read whose instances call t still holds in state j. */
  ghost predicate ReadFor(b: Behavior, i: nat, j: nat, t: Tid)
    requires |b.states| == |b.actions| + 1 && j < |b.states|
  {
    && i < j && b.actions[i] == Read(t)
    && t in b.states[i].pcs && b.states[i].pcs[t].Reading?
    && t in b.states[j].pcs
    && b.states[j].pcs[t] == Writing(b.states[i].pcs[t].keys, Pick(b.states[i].active, b.states[i].pcs[t].keys))
  }

  lemma OnlyReadsStartWrites(cfg: Config, s: State, a: Action, t: Tid)
    requires Enabled(s, a) && t in Next(cfg, s, a).pcs && Next(cfg, s, a).pcs[t].Writing?
    ensures a == Read(t) || (t in s.pcs && Next(cfg, s, a).pcs[t] == s.pcs[t])
  {
  }

  /** Every write in flight, of a flush or of a write-through, holds exactly what its own read saw live: the named
      keys' instances in the state the read acted on. */
  lemma {:induction false} WritesWereLive(cfg: Config, b: Behavior, j: nat, t: Tid) returns (i: nat)
    requires Behaves(cfg, b) && j < |b.states| && t in b.states[j].pcs && b.states[j].pcs[t].Writing?
    ensures ReadFor(b, i, j, t)
  {
    assert StepAt(cfg, b, j - 1);
    if b.actions[j - 1] == Read(t) {
      i := j - 1;
    } else {
      OnlyReadsStartWrites(cfg, b.states[j - 1], b.actions[j - 1], t);
      i := WritesWereLive(cfg, b, j - 1, t);
    }
  }

  /** No resurrection. While a key stays gone, a write whose read came after the clear leaves the key's row exactly as
      it is, even if a racing recurrence put the key back into the dirty set. */
  lemma LateReadKeepsRow(cfg: Config, b: Behavior, k: Key, gone: nat, i: nat, j: nat, t: Tid)
    requires GoodConfig(cfg) && Behaves(cfg, b) && Encodable(k)
    requires gone <= i && j < |b.actions| && b.actions[j].Write? && b.actions[j].t == t && ReadFor(b, i, j, t)
    requires forall m :: gone <= m <= j ==> k !in b.states[m].active
    ensures SlotOf(b.states[j + 1].rows, k) == SlotOf(b.states[j].rows, k)
  {
    assert StepAt(cfg, b, j);
    BehaviorOk(cfg, b, j);
    var pc := b.states[j].pcs[t];
    assert PcOk(cfg, pc);
    BatchAt(cfg, b.states[j].rows, pc.batch, pc.order, k);
  }

  lemma OnlyWritesOpenRows(cfg: Config, s: State, a: Action, k: Key)
    requires GoodConfig(cfg) && StateOk(cfg, s) && Enabled(s, a) && Encodable(k)
    requires !IsOpen(s.rows, k) && IsOpen(Next(cfg, s, a).rows, k)
    ensures a.Write? && k in s.pcs[a.t].batch
  {
    match a
    case Write(t, _) =>
      assert PcOk(cfg, s.pcs[t]);
      BatchAt(cfg, s.rows, s.pcs[t].batch, s.pcs[t].order, k);
    case Settle(t, _) =>
      assert PcOk(cfg, s.pcs[t]);
      MarkAt(s.rows, s.pcs[t].clears, s.pcs[t].at, k);
    case _ =>
  }

  /** The only exception. If a row that was not open while its key was gone is open again later, with the key gone
      throughout, then some write in between was already past its read when the key was cleared. */
  lemma {:induction false} ReopenedOnlyByEarlyRead(cfg: Config, b: Behavior, k: Key, gone: nat, m: nat, n: nat)
    returns (i: nat, j: nat)
    requires GoodConfig(cfg) && Behaves(cfg, b) && Encodable(k) && gone <= m <= n < |b.states|
    requires forall x :: gone <= x <= n ==> k !in b.states[x].active
    requires !IsOpen(b.states[m].rows, k) && IsOpen(b.states[n].rows, k)
    ensures i < gone && m <= j < n && b.actions[j].Write? && ReadFor(b, i, j, b.actions[j].t)
    ensures k in b.states[i].active
  {
    assert StepAt(cfg, b, n - 1);
    BehaviorOk(cfg, b, n - 1);
    if IsOpen(b.states[n - 1].rows, k) {
      i, j := ReopenedOnlyByEarlyRead(cfg, b, k, gone, m, n - 1);
    } else {
      OnlyWritesOpenRows(cfg, b.states[n - 1], b.actions[n - 1], k);
      j := n - 1;
      i := WritesWereLive(cfg, b, j, b.actions[j].t);
    }
  }
}
