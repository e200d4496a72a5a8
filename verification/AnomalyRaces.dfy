/** How interleavings let the store drift from the engine: only through three kinds of overlap between calls about one
    key. Without them every quiet moment is a moment of agreement; with any of them it need not be. */
module AnomalyRaces {
  import opened AnomalyModel
  import opened AnomalyEngine
  import opened AnomalyStore
  import opened AnomalyCoordinator
  import opened AnomalyAgreement
  import opened AnomalyConcurrency
  import opened AnomalyPast

  predicate Writes(pc: Pc, k: Key) {
    pc.Writing? && k in pc.batch
  }

  predicate Clears(pc: Pc, k: Key) {
    (pc.Dropping? || pc.Resolving?) && k in pc.clears
  }

  /** A call that will lead to a later read of k's instance. */
  predicate Promises(pc: Pc, k: Key) {
    (pc.Marking? && pc.key == k) || (pc.Reading? && k in pc.keys)
  }

  ghost predicate WritePending(s: State, k: Key) {
    exists t :: t in s.pcs && Writes(s.pcs[t], k)
  }

  ghost predicate ReadPending(s: State, k: Key) {
    exists t :: t in s.pcs && s.pcs[t].Reading? && k in s.pcs[t].keys
  }

  ghost predicate ClearPending(s: State, k: Key) {
    exists t :: t in s.pcs && Clears(s.pcs[t], k)
  }

  ghost predicate Due(s: State, k: Key) {
    k in s.dirty || exists t :: t in s.pcs && Promises(s.pcs[t], k)
  }

  /** The overlaps that matter: clearing k while a write of it is in flight, creating k while its resolution is in
      flight, and reading k for a write while another write of it is in flight. */
  ghost predicate Race(cfg: Config, s: State, a: Action, k: Key)
    requires Enabled(s, a)
  {
    || (k in Removed(s, a) && WritePending(s, k))
    || (a.Sight? && Accepted(cfg, a.d) && KeyOf(a.d) == k && k !in s.active && ClearPending(s, k))
    || (a.Read? && k in s.pcs[a.t].keys && k in s.active && WritePending(s, k))
  }

  /** They are overlaps indeed: a step is none of them for k unless another call is about to write k or to resolve it. */
  lemma RaceNeedsAnother(cfg: Config, s: State, a: Action, k: Key)
    requires Enabled(s, a) && Race(cfg, s, a, k)
    ensures exists t :: t in s.pcs && t != a.t && (Writes(s.pcs[t], k) || Clears(s.pcs[t], k))
  {
    if WritePending(s, k) {
      var t :| t in s.pcs && Writes(s.pcs[t], k);
    }
    if ClearPending(s, k) {
      var t :| t in s.pcs && Clears(s.pcs[t], k);
    }
  }

  // ----- The invariant at one key -----

  /** At most one write of k is in flight, and none when k is not live. */
  ghost predicate OneWriter(s: State, k: Key) {
    && (forall t, u :: t in s.pcs && u in s.pcs && Writes(s.pcs[t], k) && Writes(s.pcs[u], k) ==> t == u)
    && (k !in s.active ==> !WritePending(s, k))
  }

  /** While k is live nothing is about to resolve it; while it is not, an open row is about to be resolved. */
  ghost predicate ClearsAreLast(s: State, k: Key) {
    && (k in s.active ==> !ClearPending(s, k))
    && (k !in s.active && IsOpen(s.rows, k) ==> ClearPending(s, k))
  }

  /** Unless k is due, what is being written is current, and so is the row if nothing is being written. */
  ghost predicate Converges(cfg: Config, s: State, k: Key) {
    k in s.active && !Due(s, k) ==>
      && (forall t :: t in s.pcs && Writes(s.pcs[t], k) ==> s.pcs[t].batch[k] == s.active[k])
      && (RowIs(cfg, s, k, s.active[k]) || WritePending(s, k))
  }

  /** While k is live its row is open or on its way to be. */
  ghost predicate Opens(s: State, k: Key) {
    k in s.active ==> IsOpen(s.rows, k) || WritePending(s, k) || ReadPending(s, k)
  }

  ghost predicate Orderly(cfg: Config, s: State, k: Key) {
    OneWriter(s, k) && ClearsAreLast(s, k) && Converges(cfg, s, k) && Opens(s, k)
  }

  lemma SightOrderly(cfg: Config, s: State, a: Action, k: Key)
    requires a.Sight? && Enabled(s, a) && Encodable(k) && !Race(cfg, s, a, k) && Orderly(cfg, s, k)
    ensures Orderly(cfg, Next(cfg, s, a), k)
  {
    if Accepted(cfg, a.d) {
      var n := Next(cfg, s, a);
      assert !Writes(n.pcs[a.t], k) && !Clears(n.pcs[a.t], k);
      assert forall t :: t in n.pcs && t != a.t ==> t in s.pcs && n.pcs[t] == s.pcs[t];
      assert KeyOf(a.d) == k ==> Promises(n.pcs[a.t], k);
      KeptPending(s, n, a.t, k);
    }
  }

  /** What the calls other than t have in flight is not affected by a step of t. */
  lemma KeptPending(s: State, n: State, t: Tid, k: Key)
    requires forall u :: u != t ==> (u in n.pcs <==> u in s.pcs) && (u in s.pcs ==> n.pcs[u] == s.pcs[u])
    ensures t !in s.pcs || !Writes(s.pcs[t], k) ==> (WritePending(s, k) ==> WritePending(n, k))
    ensures t !in n.pcs || !Writes(n.pcs[t], k) ==> (WritePending(n, k) ==> WritePending(s, k))
    ensures t !in s.pcs || !Clears(s.pcs[t], k) ==> (ClearPending(s, k) ==> ClearPending(n, k))
    ensures t !in n.pcs || !Clears(n.pcs[t], k) ==> (ClearPending(n, k) ==> ClearPending(s, k))
    ensures t !in s.pcs || !(s.pcs[t].Reading? && k in s.pcs[t].keys) ==> (ReadPending(s, k) ==> ReadPending(n, k))
    ensures (t !in s.pcs || !Promises(s.pcs[t], k)) && s.dirty <= n.dirty ==> (Due(s, k) ==> Due(n, k))
  {
    if WritePending(s, k) {
      var u :| u in s.pcs && Writes(s.pcs[u], k);
      assert u != t ==> u in n.pcs && Writes(n.pcs[u], k);
    }
    if ReadPending(s, k) {
      var u :| u in s.pcs && s.pcs[u].Reading? && k in s.pcs[u].keys;
      assert u != t ==> u in n.pcs && n.pcs[u].Reading? && k in n.pcs[u].keys;
    }
    if ClearPending(s, k) {
      var u :| u in s.pcs && Clears(s.pcs[u], k);
      assert u != t ==> u in n.pcs && Clears(n.pcs[u], k);
    }
    if Due(s, k) && k !in s.dirty {
      var u :| u in s.pcs && Promises(s.pcs[u], k);
      assert u != t ==> u in n.pcs && Promises(n.pcs[u], k);
    }
  }

  lemma ClearOrderly(cfg: Config, s: State, a: Action, k: Key)
    requires (a.ClearIdle? || a.ClearSubject?) && Enabled(s, a) && Encodable(k)
    requires !Race(cfg, s, a, k) && Orderly(cfg, s, k)
    ensures Orderly(cfg, Next(cfg, s, a), k)
  {
    var n := Next(cfg, s, a);
    var keys := Removed(s, a);
    if keys != {} {
      assert n.pcs[a.t].Dropping? && n.pcs[a.t].clears == keys;
      assert k in keys ==> Clears(n.pcs[a.t], k);
      KeptPending(s, n, a.t, k);
    }
  }

  lemma DrainOrderly(cfg: Config, s: State, a: Action, k: Key)
    requires a.Drain? && Enabled(s, a) && Encodable(k) && Orderly(cfg, s, k)
    ensures Orderly(cfg, Next(cfg, s, a), k)
  {
    var n := Next(cfg, s, a);
    assert n.pcs[a.t] == Reading(a.order);
    assert k in s.dirty ==> k in Elems(a.order);
    assert k in s.dirty ==> Promises(n.pcs[a.t], k);
    KeptPending(s.(dirty := {}), n, a.t, k);
    KeptPending(s, n, a.t, k);
  }

  lemma MarkOrderly(cfg: Config, s: State, a: Action, k: Key)
    requires a.Mark? && Enabled(s, a) && Encodable(k) && Orderly(cfg, s, k)
    ensures Orderly(cfg, Next(cfg, s, a), k)
  {
    KeptPending(s, Next(cfg, s, a), a.t, k);
  }

  lemma ReadOrderly(cfg: Config, s: State, a: Action, k: Key)
    requires a.Read? && Enabled(s, a) && Encodable(k) && !Race(cfg, s, a, k) && Orderly(cfg, s, k)
    ensures Orderly(cfg, Next(cfg, s, a), k)
  {
    var n := Next(cfg, s, a);
    assert n.pcs[a.t] == Writing(s.pcs[a.t].keys, Pick(s.active, s.pcs[a.t].keys));
    assert Promises(s.pcs[a.t], k) && k in s.active ==> Writes(n.pcs[a.t], k);
    KeptPending(s, n, a.t, k);
  }

  lemma WriteOrderly(cfg: Config, s: State, a: Action, k: Key)
    requires GoodConfig(cfg) && StateOk(cfg, s)
    requires a.Write? && a.up && Enabled(s, a) && Encodable(k) && Orderly(cfg, s, k)
    ensures Orderly(cfg, Next(cfg, s, a), k)
  {
    var n, pc := Next(cfg, s, a), s.pcs[a.t];
    assert PcOk(cfg, pc);
    BatchAt(cfg, s.rows, pc.batch, pc.order, k);
    assert k in pc.batch ==> k in pc.order;
    assert SlotOf(n.rows, k) == if k in pc.batch then Holds(Row(RecordFor(cfg, pc.batch[k]), Open)) else SlotOf(s.rows, k);
    KeptPending(s, n, a.t, k);
  }

  lemma DropOrderly(cfg: Config, s: State, a: Action, k: Key)
    requires a.Drop? && Enabled(s, a) && Encodable(k) && Orderly(cfg, s, k)
    ensures Orderly(cfg, Next(cfg, s, a), k)
  {
    var n := Next(cfg, s, a);
    assert Clears(s.pcs[a.t], k) <==> Clears(n.pcs[a.t], k);
    KeptPending(s, n, a.t, k);
    if ClearPending(s, k) && Clears(s.pcs[a.t], k) {
      assert a.t in n.pcs && Clears(n.pcs[a.t], k);
    }
    KeptPending(s.(dirty := n.dirty), n, a.t, k);
    if k in s.active {
      assert k !in s.pcs[a.t].clears;
      assert Due(s, k) ==> Due(s.(dirty := n.dirty), k);
    }
  }

  lemma SettleOrderly(cfg: Config, s: State, a: Action, k: Key)
    requires GoodConfig(cfg) && StateOk(cfg, s)
    requires a.Settle? && a.up && Enabled(s, a) && Encodable(k) && Orderly(cfg, s, k)
    ensures Orderly(cfg, Next(cfg, s, a), k)
  {
    var n, pc := Next(cfg, s, a), s.pcs[a.t];
    assert PcOk(cfg, pc);
    MarkAt(s.rows, pc.clears, pc.at, k);
    assert k !in pc.clears ==> !Clears(pc, k);
    KeptPending(s, n, a.t, k);
  }

  predicate Succeeds(a: Action) {
    (a.Write? || a.Settle?) ==> a.up
  }

  lemma NextOrderly(cfg: Config, s: State, a: Action, k: Key)
    requires GoodConfig(cfg) && StateOk(cfg, s) && Enabled(s, a) && Encodable(k) && Succeeds(a)
    requires Orderly(cfg, s, k) && !Race(cfg, s, a, k)
    ensures Orderly(cfg, Next(cfg, s, a), k)
  {
    match a
    case Sight(_, _, _) => SightOrderly(cfg, s, a, k);
    case ClearIdle(_, _, _) => ClearOrderly(cfg, s, a, k);
    case ClearSubject(_, _, _) => ClearOrderly(cfg, s, a, k);
    case Drain(_, _) => DrainOrderly(cfg, s, a, k);
    case Mark(_) => MarkOrderly(cfg, s, a, k);
    case Read(_) => ReadOrderly(cfg, s, a, k);
    case Write(_, _) => WriteOrderly(cfg, s, a, k);
    case Drop(_) => DropOrderly(cfg, s, a, k);
    case Settle(_, _) => SettleOrderly(cfg, s, a, k);
  }

  /** The first n steps succeed at the store and are none of the three overlaps for k. */
  ghost predicate RaceFree(cfg: Config, b: Behavior, n: nat, k: Key)
    requires Behaves(cfg, b) && n < |b.states|
  {
    forall i: nat :: i < n ==> StepAt(cfg, b, i) && Succeeds(b.actions[i]) && !Race(cfg, b.states[i], b.actions[i], k)
  }

  lemma {:induction false} BehaviorOrderly(cfg: Config, b: Behavior, n: nat, k: Key)
    requires GoodConfig(cfg) && Behaves(cfg, b) && n < |b.states| && Encodable(k)
    requires RaceFree(cfg, b, n, k)
    ensures Orderly(cfg, b.states[n], k)
  {
    if n > 0 {
      BehaviorOrderly(cfg, b, n - 1, k);
      BehaviorOk(cfg, b, n - 1);
      assert StepAt(cfg, b, n - 1);
      NextOrderly(cfg, b.states[n - 1], b.actions[n - 1], k);
    }
  }

  lemma OrderlyQuiet(cfg: Config, s: State, k: Key)
    requires Orderly(cfg, s, k) && s.pcs == map[]
    ensures AgreesAt(cfg, s, k)
  {
  }

  /** Agreement at quiet moments, key by key. In every interleaving without a store error, whenever no call is in
      flight, a key that met none of the three overlaps is live exactly when its row is open, and its row is its
      current projection unless the key is dirty. */
  lemma QuietAgreement(cfg: Config, b: Behavior, n: nat, k: Key)
    requires GoodConfig(cfg) && Behaves(cfg, b) && n < |b.states| && Encodable(k)
    requires RaceFree(cfg, b, n, k) && b.states[n].pcs == map[]
    ensures AgreesAt(cfg, b.states[n], k)
  {
    BehaviorOrderly(cfg, b, n, k);
    OrderlyQuiet(cfg, b.states[n], k);
  }

  // ----- Each overlap does break it -----

  function Last(b: Behavior): State
    requires b.states != []
  {
    b.states[|b.states| - 1]
  }

  function Then(cfg: Config, b: Behavior, a: Action): Behavior
    requires b.states != [] && Enabled(Last(b), a)
  {
    Behavior(b.states + [Next(cfg, Last(b), a)], b.actions + [a])
  }

  lemma ThenBehaves(cfg: Config, b: Behavior, a: Action)
    requires Behaves(cfg, b) && Enabled(Last(b), a) && KindFreeAction(a)
    ensures Behaves(cfg, Then(cfg, b, a)) && Last(Then(cfg, b, a)) == Next(cfg, Last(b), a)
  {
    var c := Then(cfg, b, a);
    forall i: nat | i < |c.actions| ensures StepAt(cfg, c, i) && KindFreeAction(c.actions[i]) {
      assert i < |b.actions| ==> StepAt(cfg, b, i);
    }
  }

  /** A first sighting of d whose write-through has read but not yet written. */
  lemma SightedAndRead(cfg: Config, d: Detection, at: Time) returns (b: Behavior)
    requires Accepted(cfg, d) && PipeFree(d.subject.kind)
    ensures var k, t := KeyOf(d), Fresh(cfg, d, at);
            Behaves(cfg, b) && Last(b) == State(map[k := t], {}, map[], map[1 := Writing([k], map[k := t])])
  {
    var k, t := KeyOf(d), Fresh(cfg, d, at);
    b := Behavior([START], []);
    ThenBehaves(cfg, b, Sight(1, d, at));
    b := Then(cfg, b, Sight(1, d, at));
    assert Last(b) == State(map[k := t], {}, map[], map[1 := Reading([k])]);
    ThenBehaves(cfg, b, Read(1));
    b := Then(cfg, b, Read(1));
    assert Pick(map[k := t], [k]) == map[k := t];
  }

  lemma PutOne(rows: Rows, r: Record)
    ensures PutAll(rows, [r]) == Put(rows, r)
  {
    assert [r][..0] == [];
  }

  lemma ClearsItsSubject(active: Active, d: Detection)
    requires active.Keys == {KeyOf(d)}
    ensures AboutSubject(active, d.subject) == {KeyOf(d)} && active - {KeyOf(d)} == map[]
  {
  }

  /** Overlap one: the subject recovers between the read and the write of a write-through. At the end no call is in
      flight, nothing is live and nothing is dirty, yet the row is open; no flush will ever resolve it. */
  lemma OvertakenWrite(cfg: Config, d: Detection, at: Time) returns (b: Behavior)
    requires GoodConfig(cfg) && Accepted(cfg, d) && PipeFree(d.subject.kind)
    ensures Behaves(cfg, b)
    ensures Last(b).pcs == map[] && Last(b).active == map[] && Last(b).dirty == {}
    ensures IsOpen(Last(b).rows, KeyOf(d))
  {
    var k, t := KeyOf(d), Fresh(cfg, d, at);
    b := SightedAndRead(cfg, d, at);
    ClearsItsSubject(Last(b).active, d);
    var w := Writing([k], map[k := t]);
    ThenBehaves(cfg, b, ClearSubject(2, d.subject, at));
    b := Then(cfg, b, ClearSubject(2, d.subject, at));
    assert Last(b) == State(map[], {}, map[], map[1 := w, 2 := Dropping({k}, at)]);
    ThenBehaves(cfg, b, Drop(2));
    b := Then(cfg, b, Drop(2));
    assert Last(b) == State(map[], {}, map[], map[1 := w, 2 := Resolving({k}, at)]);
    ThenBehaves(cfg, b, Settle(2, true));
    b := Then(cfg, b, Settle(2, true));
    assert Last(b) == State(map[], {}, map[], map[1 := w]);
    ThenBehaves(cfg, b, Write(1, true));
    b := Then(cfg, b, Write(1, true));
    RecordsOfOne(cfg, map[k := t], k);
    PutOne(map[], RecordFor(cfg, t));
    RecordForKey(cfg, t);
  }

  /** A first sighting of d, written through. */
  lemma SightedAndWritten(cfg: Config, d: Detection, at: Time) returns (b: Behavior)
    requires GoodConfig(cfg) && Accepted(cfg, d) && PipeFree(d.subject.kind)
    ensures var k, t := KeyOf(d), Fresh(cfg, d, at);
            Behaves(cfg, b) && Last(b) == State(map[k := t], {}, map[IdOf(k) := Row(RecordFor(cfg, t), Open)], map[])
  {
    var k, t := KeyOf(d), Fresh(cfg, d, at);
    b := SightedAndRead(cfg, d, at);
    ThenBehaves(cfg, b, Write(1, true));
    b := Then(cfg, b, Write(1, true));
    RecordsOfOne(cfg, map[k := t], k);
    PutOne(map[], RecordFor(cfg, t));
    RecordForKey(cfg, t);
  }

  /** The middle of overlap two: the subject recovers, and before the recovery has reached the store it is sighted
      again and that sighting is written through. */
  lemma SightedAgain(cfg: Config, d: Detection, at: Time) returns (b: Behavior)
    requires GoodConfig(cfg) && Accepted(cfg, d) && PipeFree(d.subject.kind)
    ensures var k, t := KeyOf(d), Fresh(cfg, d, at);
            Behaves(cfg, b) && Last(b) == State(map[k := t], {}, map[IdOf(k) := Row(RecordFor(cfg, t), Open)],
                                                map[2 := Dropping({k}, at)])
  {
    var k, t := KeyOf(d), Fresh(cfg, d, at);
    var rows := map[IdOf(k) := Row(RecordFor(cfg, t), Open)];
    b := SightedAndWritten(cfg, d, at);
    ClearsItsSubject(Last(b).active, d);
    ThenBehaves(cfg, b, ClearSubject(2, d.subject, at));
    b := Then(cfg, b, ClearSubject(2, d.subject, at));
    assert Last(b) == State(map[], {}, rows, map[2 := Dropping({k}, at)]);
    ThenBehaves(cfg, b, Sight(1, d, at));
    b := Then(cfg, b, Sight(1, d, at));
    assert Last(b) == State(map[k := t], {}, rows, map[2 := Dropping({k}, at), 1 := Reading([k])]);
    ThenBehaves(cfg, b, Read(1));
    b := Then(cfg, b, Read(1));
    assert Pick(map[k := t], [k]) == map[k := t];
    assert Last(b) == State(map[k := t], {}, rows, map[2 := Dropping({k}, at), 1 := Writing([k], map[k := t])]);
    ThenBehaves(cfg, b, Write(1, true));
    b := Then(cfg, b, Write(1, true));
    RecordsOfOne(cfg, map[k := t], k);
    PutOne(rows, RecordFor(cfg, t));
    RecordForKey(cfg, t);
    assert Last(b).pcs == map[2 := Dropping({k}, at)];
  }

  /** Overlap two: the late resolution hits the new instance's row. At the end no call is in flight, the key is live
      and clean, yet its row is resolved, so a restart would forget it. */
  lemma OvertakenResolution(cfg: Config, d: Detection, at: Time) returns (b: Behavior)
    requires GoodConfig(cfg) && Accepted(cfg, d) && PipeFree(d.subject.kind)
    ensures Behaves(cfg, b)
    ensures Last(b).pcs == map[] && KeyOf(d) in Last(b).active && Last(b).dirty == {}
    ensures !IsOpen(Last(b).rows, KeyOf(d))
  {
    var k := KeyOf(d);
    b := SightedAgain(cfg, d, at);
    ThenBehaves(cfg, b, Drop(2));
    b := Then(cfg, b, Drop(2));
    assert Last(b).pcs == map[2 := Resolving({k}, at)];
    ThenBehaves(cfg, b, Settle(2, true));
    assert k in {k} && IdOf(k) in Ids({k});
    b := Then(cfg, b, Settle(2, true));
  }

  /** The middle of overlap three: a recurrence is flushed while the first write-through is still in flight. */
  lemma FlushedMeanwhile(cfg: Config, d: Detection, at: Time) returns (b: Behavior)
    requires GoodConfig(cfg) && Accepted(cfg, d) && PipeFree(d.subject.kind) && cfg.escalateAfter != 2
    ensures var k, t, u := KeyOf(d), Fresh(cfg, d, at), Absorb(cfg, Fresh(cfg, d, at), d, at);
            Behaves(cfg, b) && Last(b).active == map[k := u] && Last(b).dirty == {} &&
            Last(b).pcs == map[1 := Writing([k], map[k := t]), 2 := Writing([k], map[k := u])]
  {
    var k, t := KeyOf(d), Fresh(cfg, d, at);
    var u := Absorb(cfg, t, d, at);
    var w := Writing([k], map[k := t]);
    b := SightedAndRead(cfg, d, at);
    ThenBehaves(cfg, b, Sight(2, d, at));
    b := Then(cfg, b, Sight(2, d, at));
    assert Last(b) == State(map[k := u], {}, map[], map[1 := w, 2 := Marking(k)]);
    ThenBehaves(cfg, b, Mark(2));
    b := Then(cfg, b, Mark(2));
    assert Last(b) == State(map[k := u], {k}, map[], map[1 := w]);
    ThenBehaves(cfg, b, Drain(2, [k]));
    b := Then(cfg, b, Drain(2, [k]));
    assert Last(b) == State(map[k := u], {}, map[], map[1 := w, 2 := Reading([k])]);
    ThenBehaves(cfg, b, Read(2));
    b := Then(cfg, b, Read(2));
    assert Pick(map[k := u], [k]) == map[k := u];
  }

  /** Overlap three: the older write lands last. At the end no call is in flight, the key is live and clean, yet its
      row still counts one sighting where the engine counts two. */
  lemma StaleWrite(cfg: Config, d: Detection, at: Time) returns (b: Behavior)
    requires GoodConfig(cfg) && Accepted(cfg, d) && PipeFree(d.subject.kind) && cfg.escalateAfter != 2
    ensures Behaves(cfg, b)
    ensures Last(b).pcs == map[] && KeyOf(d) in Last(b).active && Last(b).dirty == {}
    ensures Last(b).active[KeyOf(d)].count == 2
    ensures SlotOf(Last(b).rows, KeyOf(d)) == Holds(Row(RecordFor(cfg, Fresh(cfg, d, at)), Open))
  {
    var k, t, u := KeyOf(d), Fresh(cfg, d, at), Absorb(cfg, Fresh(cfg, d, at), d, at);
    b := FlushedMeanwhile(cfg, d, at);
    ThenBehaves(cfg, b, Write(2, true));
    b := Then(cfg, b, Write(2, true));
    assert Last(b).pcs == map[1 := Writing([k], map[k := t])];
    ThenBehaves(cfg, b, Write(1, true));
    RecordsOfOne(cfg, map[k := t], k);
    PutOne(Last(b).rows, RecordFor(cfg, t));
    RecordForKey(cfg, t);
    b := Then(cfg, b, Write(1, true));
  }
}
