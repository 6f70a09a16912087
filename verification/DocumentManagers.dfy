/** The document manager as an object (crates/ussl-core/src/manager.rs): a map of
  * shared documents and a map of presence lists, changed in place. */
module DocumentManagers {
  import opened Basics
  import opened Documents
  import opened Managers
  import Strategies
  import Values

  class DocumentManager {
    var documents: map<string, Document>
    var presence: map<string, seq<Presence>>

    /** No two ids share a document. */
    ghost predicate Valid()
      reads this
    {
      forall i, j :: i in documents && j in documents && i != j ==> documents[i] != documents[j]
    }

    ghost function Docs(): map<string, Doc>
      reads this, documents.Values
    {
      map id | id in documents :: documents[id].Abs()
    }

    ghost function Abs(): Manager
      reads this, documents.Values
    {
      Manager(Docs(), presence)
    }

    constructor ()
      ensures Valid() && Abs() == Manager(map[], map[])
    {
      documents, presence := map[], map[];
    }

    method CreateDocument(id: string, strategy: Strategy, ttl: Option<U64>, now: U64) returns (r: Outcome<()>)
      requires Valid()
      modifies this
      ensures forall d :: d in documents.Values ==> d in old(documents.Values) || fresh(d)
      ensures Valid() && (Abs(), r) == Create(old(Abs()), id, strategy, ttl, now)
    {
      if id in documents {
        return Failed(Exists);
      }
      var doc := new Document(id, strategy, ttl, now);
      documents := documents[id := doc];
      assert Docs() == old(Docs())[id := NewDoc(id, strategy, ttl, now)];
      r := Done(());
    }

    method GetOrCreateDocument(id: string, strategy: Strategy, now: U64) returns (doc: Document)
      requires Valid()
      modifies this
      ensures forall d :: d in documents.Values ==> d in old(documents.Values) || fresh(d)
      ensures Valid() && Abs() == GetOrCreate(old(Abs()), id, strategy, now)
      ensures id in documents && documents[id] == doc
    {
      if id !in documents {
        doc := new Document(id, strategy, None, now);
        documents := documents[id := doc];
        assert Docs() == old(Docs())[id := NewDoc(id, strategy, None, now)];
      }
      doc := documents[id];
    }

    method DeleteDocument(id: string) returns (r: Outcome<()>)
      requires Valid()
      modifies this
      ensures forall d :: d in documents.Values ==> d in old(documents.Values) || fresh(d)
      ensures Valid() && (Abs(), r) == Remove(old(Abs()), id)
    {
      if id !in documents {
        return Failed(NotFound);
      }
      documents := documents - {id};
      assert Docs() == old(Docs()) - {id};
      r := Done(());
    }

    method ExpireDocument(id: string, ttl: Option<U64>) returns (r: Outcome<()>)
      requires Valid()
      modifies documents.Values
      ensures Valid() && (Abs(), r) == SetExpire(old(Abs()), id, ttl)
    {
      if id !in documents {
        return Failed(NotFound);
      }
      documents[id].SetTtl(ttl);
      assert Docs() == old(Docs())[id := documents[id].Abs()];
      r := Done(());
    }

    method SetClientPresence(client: string, id: string, data: Values.Value)
      modifies this`presence
      ensures Abs() == SetPresence(old(Abs()), client, id, data)
    {
      if id !in presence {
        presence := presence[id := []];
      }
      presence := presence[id := Others(presence[id], client)];
      presence := presence[id := presence[id] + [Presence(client, data)]];
      assert presence == SetPresence(old(Abs()), client, id, data).presence;
    }

    method RemoveClientPresence(client: string)
      modifies this`presence
      ensures Abs() == RemovePresence(old(Abs()), client)
    {
      var todo := presence.Keys;
      while todo != {}
        invariant todo <= presence.Keys == old(presence.Keys)
        invariant forall id :: id in presence ==>
          presence[id] == if id in todo then old(presence)[id] else Others(old(presence)[id], client)
        decreases |todo|
      {
        var id :| id in todo;
        presence := presence[id := Others(presence[id], client)];
        todo := todo - {id};
      }
      assert presence == RemovePresence(old(Abs()), client).presence;
    }

    /** First the expired ids are listed, then each is removed with its presence. */
    method CollectGarbage(now: U64) returns (count: nat)
      requires Valid()
      modifies this
      ensures forall d :: d in documents.Values ==> d in old(documents.Values) || fresh(d)
      ensures Valid() && (Abs(), count) == Gc(old(Abs()), now)
    {
      hide IsExpired, SetOf, Expired;
      var toRemove := ListExpired(now);
      count := |toRemove|;
      var i := 0;
      NothingRemoved(documents, toRemove);
      NothingRemoved(presence, toRemove);
      while i < |toRemove|
        invariant i <= |toRemove|
        invariant documents == old(documents) - SetOf(toRemove[..i])
        invariant presence == old(presence) - SetOf(toRemove[..i])
      {
        OneMoreRemoved(old(documents), toRemove, i);
        OneMoreRemoved(old(presence), toRemove, i);
        documents := documents - {toRemove[i]};
        presence := presence - {toRemove[i]};
        i := i + 1;
      }
      assert toRemove[..i] == toRemove;
      assert Docs() == old(Docs()) - SetOf(toRemove);
    }

    method ListExpired(now: U64) returns (ids: seq<string>)
      requires Valid()
      ensures SetOf(ids) == Expired(Abs(), now) && |ids| == |Expired(Abs(), now)|
    {
      ids := [];
      var todo := documents.Keys;
      while todo != {}
        invariant todo <= documents.Keys
        invariant forall id :: id in ids <==> id in Expired(Abs(), now) && id !in todo
        invariant forall i, j :: 0 <= i < j < |ids| ==> ids[i] != ids[j]
        decreases |todo|
      {
        var id :| id in todo;
        if IsExpired(documents[id].meta, now) {
          ids := ids + [id];
        }
        todo := todo - {id};
      }
      SizeOfDistinct(ids, Expired(Abs(), now));
    }

    method ListMatching(pattern: Option<string>) returns (ids: seq<string>)
      requires Valid()
      ensures SetOf(ids) == Listed(Abs(), pattern) && |ids| == |Listed(Abs(), pattern)|
    {
      ids := [];
      var todo := documents.Keys;
      while todo != {}
        invariant todo <= documents.Keys
        invariant forall id :: id in ids <==> id in Listed(Abs(), pattern) && id !in todo
        invariant forall i, j :: 0 <= i < j < |ids| ==> ids[i] != ids[j]
        decreases |todo|
      {
        var id :| id in todo;
        if pattern.None? || Matches(id, pattern.value) {
          ids := ids + [id];
        }
        todo := todo - {id};
      }
      SizeOfDistinct(ids, Listed(Abs(), pattern));
    }

    /** The documents are visited in no particular order. */
    method TakeBackup(now: U64) returns (entries: seq<Entry>)
      requires Valid()
      ensures IsBackup(Abs(), entries, now)
    {
      entries := [];
      var todo := documents.Keys;
      while todo != {}
        invariant todo <= documents.Keys
        invariant forall i :: 0 <= i < |entries| ==>
          var id := entries[i].id;
          id in documents && id !in todo && !IsExpired(documents[id].meta, now) &&
              entries[i] == EntryOf(id, documents[id].Abs(), now)
        invariant forall id :: id in documents && id !in todo && !IsExpired(documents[id].meta, now) ==>
          exists i :: 0 <= i < |entries| && entries[i].id == id
        invariant forall i, j :: 0 <= i < j < |entries| ==> entries[i].id != entries[j].id
        decreases |todo|
      {
        var id :| id in todo;
        if !IsExpired(documents[id].meta, now) {
          ghost var before := entries;
          entries := entries + [EntryOf(id, documents[id].Abs(), now)];
          assert entries[|before|].id == id;
          assert forall i :: 0 <= i < |before| ==> entries[i] == before[i];
        }
        todo := todo - {id};
      }
    }

    method RestoreEntry(e: Entry, now: U64) returns (r: Outcome<Document>)
      ensures match RestoreOne(e, now)
              case Done(d) => r.Done? && fresh(r.value) && r.value.Abs() == d
              case Failed(x) => r == Failed(x)
              case Hangs => false
    {
      if !ValidId(e.id) {
        return Failed(InvalidId);
      }
      var strategy := Strategies.ParseStrategy(e.strategy);
      if strategy.None? {
        return Failed(InvalidStrategy);
      }
      var doc := new Document(e.id, strategy.value, RestoredTtl(e.ttlRemaining), now);
      var applied := doc.ApplyEncoded(e.state, now);
      if applied.Failed? {
        return Failed(RestoreError);
      }
      r := Done(doc);
    }

    method RestoreBackup(entries: seq<Entry>, now: U64) returns (r: Outcome<nat>)
      requires Valid()
      modifies this
      ensures forall d :: d in documents.Values ==> d in old(documents.Values) || fresh(d)
      ensures Valid() && (Abs(), r) == Restore(old(Abs()), entries, now)
    {
      hide RestoreOne;
      ghost var m0 := Abs();
      var restored := 0;
      while restored < |entries|
        invariant restored <= |entries| && Valid()
        invariant forall d :: d in documents.Values ==> d in old(documents.Values) || fresh(d)
        invariant var (m, o) := Restore(Abs(), entries[restored..], now);
                  Restore(m0, entries, now) == (m, if o.Done? then Done(o.value + restored) else o)
      {
        var e := entries[restored];
        assert entries[restored..][0] == e && entries[restored..][1..] == entries[restored + 1..];
        var doc := RestoreEntry(e, now);
        if doc.Failed? {
          return Failed(doc.error);
        }
        InsertDocument(e.id, doc.value);
        restored := restored + 1;
      }
      r := Done(restored);
    }

    /** `documents.insert`, of a document the manager does not hold yet. */
    method InsertDocument(id: string, doc: Document)
      requires Valid() && doc !in documents.Values
      modifies this`documents
      ensures Valid() && documents == old(documents)[id := doc]
      ensures Abs() == old(Abs()).(docs := old(Abs()).docs[id := doc.Abs()])
    {
      documents := documents[id := doc];
      assert Docs() == old(Docs())[id := doc.Abs()];
    }
  }

  function SetOf(ids: seq<string>): set<string> {
    set id | id in ids
  }

  lemma NothingRemoved<V>(m: map<string, V>, ids: seq<string>)
    ensures m - SetOf(ids[..0]) == m
  {
    assert SetOf(ids[..0]) == {};
  }

  lemma OneMoreRemoved<V>(m: map<string, V>, ids: seq<string>, i: nat)
    requires i < |ids|
    ensures m - SetOf(ids[..i]) - {ids[i]} == m - SetOf(ids[..i + 1])
  {
    assert ids[..i + 1] == ids[..i] + [ids[i]];
    assert SetOf(ids[..i + 1]) == SetOf(ids[..i]) + {ids[i]};
  }

  lemma {:induction false} SizeOfDistinct(ids: seq<string>, s: set<string>)
    requires forall i, j :: 0 <= i < j < |ids| ==> ids[i] != ids[j]
    requires forall id :: id in ids <==> id in s
    ensures |ids| == |s|
    decreases |ids|
  {
    if ids == [] {
      assert s == {};
    } else {
      var rest := ids[1..];
      SizeOfDistinct(rest, s - {ids[0]});
    }
  }
}
