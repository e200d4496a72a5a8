/** The persistence port the coordinator writes through: rows keyed by record id, each open or resolved. */
module AnomalyStore {
  import opened Basics
  import opened AnomalyModel
  import opened AnomalyEngine

  datatype Resolution = Open | ResolvedAt(at: Time)

  datatype Row = Row(rec: Record, resolution: Resolution)

  type Rows = map<string, Row>

  /** A write of one record replaces its row and clears any prior resolution: the instance is live again. */
  function Put(rows: Rows, r: Record): Rows {
    rows[r.id := Row(r, Open)]
  }

  function PutAll(rows: Rows, recs: seq<Record>): Rows {
    if recs == [] then rows
    else Put(PutAll(rows, recs[..|recs| - 1]), recs[|recs| - 1])
  }

  function MarkRow(row: Row, at: Time): Row {
    if row.resolution == Open then row.(resolution := ResolvedAt(at)) else row
  }

  /** Resolution of some ids; unknown and already resolved ids are left alone. */
  function MarkAll(rows: Rows, ids: set<string>, at: Time): Rows {
    map id | id in rows :: if id in ids then MarkRow(rows[id], at) else rows[id]
  }

  function OpenIds(rows: Rows): set<string> {
    set id | id in rows && rows[id].resolution == Open
  }

  function RecordsAt(rows: Rows, order: seq<string>): seq<Record>
    requires Elems(order) <= rows.Keys
  {
    seq(|order|, i requires 0 <= i < |order| => assert order[i] in Elems(order); rows[order[i]].rec)
  }

  /** A sequence that lists a set, each member once: some iteration order over it. */
  predicate Enumerates<T(==)>(order: seq<T>, all: set<T>) {
    Elems(order) == all && NoDuplicates(order)
  }

  /** The rows read when the store is asked for its open records. */
  ghost predicate LoadedFrom(rows: Rows, recs: seq<Record>) {
    exists order :: Enumerates(order, OpenIds(rows)) && recs == RecordsAt(rows, order)
  }

  datatype LoadResult = Loaded(records: seq<Record>) | LoadFailed

  /** An in-memory store with the port's contract. The parameter up of each call says whether it succeeds; a call
      that fails changes nothing. */
  class Store {
    var rows: Rows

    constructor ()
      ensures rows == map[]
    {
      rows := map[];
    }

    method Upsert(recs: seq<Record>, up: bool) returns (ok: bool)
      modifies this
      ensures ok == up
      ensures rows == if up then PutAll(old(rows), recs) else old(rows)
    {
      if !up {
        return false;
      }
      assert recs[..|recs|] == recs;
      for i := 0 to |recs|
        invariant rows == PutAll(old(rows), recs[..i])
      {
        assert recs[..i + 1][..i] == recs[..i];
        rows := rows[recs[i].id := Row(recs[i], Open)];
      }
      ok := true;
    }

    method MarkResolved(ids: seq<string>, at: Time, up: bool) returns (ok: bool)
      modifies this
      ensures ok == up
      ensures rows == if up then MarkAll(old(rows), Elems(ids), at) else old(rows)
    {
      if !up {
        return false;
      }
      for i := 0 to |ids|
        invariant rows == MarkAll(old(rows), Elems(ids[..i]), at)
      {
        assert ids[..i + 1] == ids[..i] + [ids[i]];
        ElemsAppend(ids[..i], ids[i]);
        if ids[i] in rows && rows[ids[i]].resolution == Open {
          rows := rows[ids[i] := rows[ids[i]].(resolution := ResolvedAt(at))];
        }
      }
      assert ids[..|ids|] == ids;
      ok := true;
    }

    method LoadActive(up: bool) returns (r: LoadResult)
      ensures r.Loaded? == up
      ensures r.Loaded? ==> LoadedFrom(rows, r.records)
    {
      if !up {
        return LoadFailed;
      }
      var order: seq<string>, todo := [], OpenIds(rows);
      while todo != {}
        invariant todo <= OpenIds(rows)
        invariant Enumerates(order, OpenIds(rows) - todo)
        decreases todo
      {
        var id :| id in todo;
        ElemsAppend(order, id);
        EnumeratesAppend(order, OpenIds(rows) - todo, id);
        assert OpenIds(rows) - (todo - {id}) == OpenIds(rows) - todo + {id};
        order, todo := order + [id], todo - {id};
      }
      assert OpenIds(rows) - todo == OpenIds(rows);
      r := Loaded(RecordsAt(rows, order));
    }
  }

  lemma EnumeratesAppend<T>(order: seq<T>, all: set<T>, x: T)
    requires Enumerates(order, all) && x !in all
    ensures Enumerates(order + [x], all + {x})
  {
    ElemsAppend(order, x);
    assert forall i :: 0 <= i < |order| ==> order[i] in Elems(order);
  }
}
