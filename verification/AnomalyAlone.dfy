/** The interleaved steps against the calls they come from: a call whose steps nothing comes between is the one-step call
    of the coordinator. */
module AnomalyAlone {
  import opened AnomalyModel
  import opened AnomalyEngine
  import opened AnomalyStore
  import opened AnomalyCoordinator
  import opened AnomalyConcurrency

  /** The step that begins a call. */
  function Begin(op: Op, t: Tid): Action
    requires !op.Restart?
  {
    match op
    case Observe(d, at, _) => Sight(t, d, at)
    case Flush(order, _) => Drain(t, order)
    case Prune(source, cutoff, _) => ClearIdle(t, source, cutoff)
    case Resolve(subject, at, _) => ClearSubject(t, subject, at)
  }

  /** The next step of a call in flight. */
  function Following(pc: Pc, t: Tid, up: bool): Action {
    match pc
    case Marking(_) => Mark(t)
    case Reading(_) => Read(t)
    case Writing(_, _) => Write(t, up)
    case Dropping(_, _) => Drop(t)
    case Resolving(_, _) => Settle(t, up)
  }

  function StepsLeft(s: State, t: Tid): nat {
    if t !in s.pcs then 0 else if s.pcs[t].Reading? || s.pcs[t].Dropping? then 2 else 1
  }

  /** The rest of a call, step after step. */
  function Finish(cfg: Config, s: State, t: Tid, up: bool): State
    decreases StepsLeft(s, t)
  {
    if t !in s.pcs then s else Finish(cfg, Next(cfg, s, Following(s.pcs[t], t, up)), t, up)
  }

  function Alone(cfg: Config, s: State, op: Op, t: Tid): State
    requires !op.Restart? && Enabled(s, Begin(op, t))
  {
    Finish(cfg, Next(cfg, s, Begin(op, t)), t, op.up)
  }

  /** The coordinator's state while the calls in pcs are in flight. */
  function During(s: System, pcs: map<Tid, Pc>): State {
    State(s.active, s.dirty, s.rows, pcs)
  }

  lemma {:induction false} RecordsAgree(cfg: Config, a: Active, b: Active, order: seq<Key>)
    requires forall k :: k in order ==> (k in a <==> k in b) && (k in a ==> a[k] == b[k])
    ensures RecordsFor(cfg, a, order) == RecordsFor(cfg, b, order)
  {
    if order != [] {
      RecordsAgree(cfg, a, b, order[..|order| - 1]);
    }
  }

  /** Reading some keys and writing what was read. */
  lemma ReadAndWrite(cfg: Config, s: State, t: Tid, up: bool)
    requires t in s.pcs && s.pcs[t].Reading?
    ensures Finish(cfg, s, t, up) ==
            State(s.active, s.dirty, if up then PutAll(s.rows, RecordsFor(cfg, s.active, s.pcs[t].keys)) else s.rows,
                  s.pcs - {t})
  {
    var keys := s.pcs[t].keys;
    var read := Next(cfg, s, Read(t));
    assert read.pcs[t] == Writing(keys, Pick(s.active, keys));
    RecordsAgree(cfg, Pick(s.active, keys), s.active, keys);
    assert Finish(cfg, read, t, up) == Next(cfg, read, Write(t, up));
    assert read.pcs - {t} == s.pcs - {t};
  }

  /** Dropping the marks of some keys and resolving their rows. */
  lemma DropAndSettle(cfg: Config, s: State, t: Tid, up: bool)
    requires t in s.pcs && s.pcs[t].Dropping?
    ensures var keys, at := s.pcs[t].clears, s.pcs[t].at;
            Finish(cfg, s, t, up) ==
            State(s.active, s.dirty - keys, if up then MarkAll(s.rows, Ids(keys), at) else s.rows, s.pcs - {t})
  {
    var dropped := Next(cfg, s, Drop(t));
    assert Finish(cfg, dropped, t, up) == Next(cfg, dropped, Settle(t, up));
    assert dropped.pcs - {t} == s.pcs - {t};
  }

  lemma ObserveAlone(cfg: Config, s: System, pcs: map<Tid, Pc>, t: Tid, d: Detection, at: Time, up: bool)
    requires t !in pcs
    ensures Alone(cfg, During(s, pcs), Op.Observe(d, at, up), t) == During(Step(cfg, s, Op.Observe(d, at, up)), pcs)
  {
    if Accepted(cfg, d) {
      var begun := Next(cfg, During(s, pcs), Sight(t, d, at));
      assert begun.pcs - {t} == pcs;
      if Material(cfg, s.active, d) {
        ReadAndWrite(cfg, begun, t, up);
      } else {
        assert Finish(cfg, begun, t, up) == Next(cfg, begun, Mark(t));
      }
    }
  }

  lemma FlushAlone(cfg: Config, s: System, pcs: map<Tid, Pc>, t: Tid, order: seq<Key>, up: bool)
    requires t !in pcs && Enumerates(order, s.dirty)
    ensures Alone(cfg, During(s, pcs), Op.Flush(order, up), t) == During(Step(cfg, s, Op.Flush(order, up)), pcs)
  {
    var begun := Next(cfg, During(s, pcs), Drain(t, order));
    assert begun.pcs - {t} == pcs;
    ReadAndWrite(cfg, begun, t, up);
  }

  lemma ClearAlone(cfg: Config, s: System, pcs: map<Tid, Pc>, t: Tid, keys: set<Key>, at: Time, up: bool)
    requires t !in pcs
    ensures Finish(cfg, Clear(During(s, pcs), t, keys, at), t, up) == During(ClearStep(s, keys, at, up), pcs)
  {
    var begun := Clear(During(s, pcs), t, keys, at);
    if keys == {} {
      assert Ids(keys) == {} && MarkAll(s.rows, {}, at) == s.rows;
      assert s.active - keys == s.active;
    } else {
      assert begun.pcs - {t} == pcs;
      DropAndSettle(cfg, begun, t, up);
    }
  }

  /** Each call but a restart: its steps, taken with nothing in between, end in the state of the one-step call, with the
      other calls in flight where they were. */
  lemma AloneIsStep(cfg: Config, s: System, pcs: map<Tid, Pc>, t: Tid, op: Op)
    requires t !in pcs && !op.Restart? && Possible(s, op)
    ensures Alone(cfg, During(s, pcs), op, t) == During(Step(cfg, s, op), pcs)
  {
    match op
    case Observe(d, at, up) => ObserveAlone(cfg, s, pcs, t, d, at, up);
    case Flush(order, up) => FlushAlone(cfg, s, pcs, t, order, up);
    case Prune(source, cutoff, up) => ClearAlone(cfg, s, pcs, t, Idle(s.active, source, cutoff), cutoff, up);
    case Resolve(subject, at, up) => ClearAlone(cfg, s, pcs, t, AboutSubject(s.active, subject), at, up);
  }
}
