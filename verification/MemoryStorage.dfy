/** The in-memory backend (crates/ussl-storage/src/memory.rs): the running total
  * agrees with the map it summarises. */
module MemoryStorage {
  import opened Basics

  /** Serialized metadata and data. */
  datatype Entry = Entry(meta: string, data: string)

  function Size(e: Entry): nat {
    |e.meta| + |e.data|
  }

  ghost function TotalOf(m: map<string, Entry>): nat {
    if m == map[] then 0 else
    var k :| k in m;
    Size(m[k]) + TotalOf(m - {k})
  }

  /** The total does not depend on the order of summation. */
  lemma {:induction false} TotalWithout(m: map<string, Entry>, k: string)
    requires k in m
    ensures TotalOf(m) == Size(m[k]) + TotalOf(m - {k})
    decreases |m|
  {
    var j :| j in m && TotalOf(m) == Size(m[j]) + TotalOf(m - {j});
    if j != k {
      TotalWithout(m - {j}, k);
      TotalWithout(m - {k}, j);
      assert m - {j} - {k} == m - {k} - {j};
    }
  }

  lemma TotalWith(m: map<string, Entry>, k: string, e: Entry)
    ensures TotalOf(m[k := e]) == TotalOf(m - {k}) + Size(e)
  {
    TotalWithout(m[k := e], k);
    assert m[k := e] - {k} == m - {k};
  }

  class Storage {
    var data: map<string, Entry>
    var totalSize: nat

    ghost predicate Valid()
      reads this
    {
      totalSize == TotalOf(data)
    }

    constructor ()
      ensures Valid() && data == map[]
    {
      data := map[];
      totalSize := 0;
    }

    method Store(id: string, e: Entry)
      requires Valid()
      modifies this
      ensures Valid() && data == old(data)[id := e]
    {
      TotalWith(data, id, e);
      if id in data {
        TotalWithout(data, id);
        totalSize := totalSize - Size(data[id]);
      } else {
        assert data - {id} == data;
      }
      totalSize := totalSize + Size(e);
      data := data[id := e];
    }

    method Delete(id: string) returns (found: bool)
      requires Valid()
      modifies this
      ensures Valid() && data == old(data) - {id} && (found <==> id in old(data))
    {
      found := id in data;
      if found {
        TotalWithout(data, id);
        totalSize := totalSize - Size(data[id]);
        data := data - {id};
      } else {
        assert data - {id} == data;
      }
    }

    method Stats() returns (count: nat, bytes: nat)
      requires Valid()
      ensures count == |data| && bytes == TotalOf(data)
    {
      count, bytes := |data|, totalSize;
    }
  }

  // ---------- runs ----------

  datatype Call = StoreCall(id: string, e: Entry) | DeleteCall(id: string)

  function LastStored(calls: seq<Call>, id: string): Option<Entry> {
    if calls == [] then None else
    match calls[|calls| - 1]
    case StoreCall(i, e) => if i == id then Some(e) else LastStored(calls[..|calls| - 1], id)
    case DeleteCall(i) => if i == id then None else LastStored(calls[..|calls| - 1], id)
  }

  /** After any run of calls the storage holds, for every id, what was last
    * stored and not deleted since, and its statistics are those of that map. */
  method Replay(calls: seq<Call>) returns (s: Storage, count: nat, bytes: nat)
    ensures fresh(s) && s.Valid()
    ensures forall id ::
              (id in s.data <==> LastStored(calls, id).Some?) &&
              (id in s.data ==> LastStored(calls, id) == Some(s.data[id]))
    ensures count == |s.data| && bytes == TotalOf(s.data)
  {
    s := new Storage();
    var i := 0;
    while i < |calls|
      invariant i <= |calls| && fresh(s) && s.Valid()
      invariant forall id ::
        (id in s.data <==> LastStored(calls[..i], id).Some?) &&
        (id in s.data ==> LastStored(calls[..i], id) == Some(s.data[id]))
    {
      assert calls[..i + 1][..i] == calls[..i];
      match calls[i] {
        case StoreCall(id, e) => s.Store(id, e);
        case DeleteCall(id) => var _ := s.Delete(id);
      }
      i := i + 1;
    }
    assert calls[..i] == calls;
    count, bytes := s.Stats();
  }
}
