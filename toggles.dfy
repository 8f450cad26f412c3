/** The toggle engine behind likes and subscriptions: a collection of
    relation records, each found by its scope (the actor and the target).
    Toggling a scope deletes the record found for it, or creates one when
    there is none. The rule "at most one record per scope" is kept by this
    find-then-act logic only, so it is an invariant of the collection. */
module Toggles {
  import opened Common

  /** A relation record: its document id and the scope it is found by. */
  datatype Record<K> = Record(id: Id, key: K)

  /** What a toggle did. */
  datatype Outcome = Removed | Added

  function Keys<K(==)>(rs: set<Record<K>>): set<K> {
    set r | r in rs :: r.key
  }

  function Ids<K(==)>(rs: set<Record<K>>): set<Id> {
    set r | r in rs :: r.id
  }

  /** At most one record per scope, and no two records share an id. */
  predicate Unique<K(==)>(rs: set<Record<K>>) {
    forall a, b :: a in rs && b in rs && (a.key == b.key || a.id == b.id) ==> a == b
  }

  /** The collection after toggling scope `k`, where `newId` is the id a
      created record gets. */
  function Toggled<K(==)>(rs: set<Record<K>>, k: K, newId: Id): set<Record<K>> {
    if k in Keys(rs) then set r | r in rs && r.key != k else rs + {Record(newId, k)}
  }

  /** A toggle flips the presence of its scope and no other. */
  lemma ToggleFlipsScope<K>(rs: set<Record<K>>, k: K, newId: Id)
    ensures Keys(Toggled(rs, k, newId)) == if k in Keys(rs) then Keys(rs) - {k} else Keys(rs) + {k}
  {
    var t := Toggled(rs, k, newId);
    if k in Keys(rs) {
      forall x | x in Keys(rs) - {k} ensures x in Keys(t) {
        var r :| r in rs && r.key == x;
        assert r in t;
      }
    } else {
      assert Record(newId, k) in t;
    }
  }

  /** Records of every other scope are neither created nor deleted. */
  lemma ToggleKeepsOtherScopes<K>(rs: set<Record<K>>, k: K, newId: Id, r: Record<K>)
    requires r.key != k
    ensures r in Toggled(rs, k, newId) <==> r in rs
  {
  }

  /** Deleting when the scope is present removes exactly one record, and
      creating when it is absent adds exactly one. */
  lemma ToggleChangesOneRecord<K>(rs: set<Record<K>>, k: K, newId: Id)
    requires Unique(rs) && newId !in Ids(rs)
    ensures k in Keys(rs) ==> exists found :: found in rs && found.key == k && Toggled(rs, k, newId) == rs - {found}
    ensures k !in Keys(rs) ==> Toggled(rs, k, newId) == rs + {Record(newId, k)} && Record(newId, k) !in rs
  {
    if k in Keys(rs) {
      var found :| found in rs && found.key == k;
      assert Toggled(rs, k, newId) == rs - {found};
    }
  }

  /** The invariant survives a toggle whose new id is fresh. */
  lemma TogglePreservesUnique<K>(rs: set<Record<K>>, k: K, newId: Id)
    requires Unique(rs) && newId !in Ids(rs)
    ensures Unique(Toggled(rs, k, newId))
  {
    if k !in Keys(rs) {
      var t := Toggled(rs, k, newId);
      forall a, b | a in t && b in t && (a.key == b.key || a.id == b.id) ensures a == b {
        if a in rs {
          assert a.key in Keys(rs) && a.id in Ids(rs);
        }
        if b in rs {
          assert b.key in Keys(rs) && b.id in Ids(rs);
        }
      }
    }
  }

  /** Toggling the same scope twice restores which scopes are present; when
      the scope was absent, the collection itself comes back. (When it was
      present, the record created again has a new id.) */
  lemma {:induction false} ToggleTwice<K>(rs: set<Record<K>>, k: K, id1: Id, id2: Id)
    requires Unique(rs) && id1 !in Ids(rs)
    ensures Keys(Toggled(Toggled(rs, k, id1), k, id2)) == Keys(rs)
    ensures k !in Keys(rs) ==> Toggled(Toggled(rs, k, id1), k, id2) == rs
  {
    var once := Toggled(rs, k, id1);
    ToggleFlipsScope(rs, k, id1);
    ToggleFlipsScope(once, k, id2);
    if k !in Keys(rs) {
      ToggleChangesOneRecord(rs, k, id1);
      assert k in Keys(once);
      var twice := Toggled(once, k, id2);
      assert twice == set r | r in once && r.key != k;
      forall r | r in rs ensures r in twice {
        assert r.key in Keys(rs);
      }
    }
  }

  /** A collection of relation records (the Like or the Subscription
      collection), kept free of duplicate scopes. */
  class RelationStore<K(==)> {
    var records: set<Record<K>>

    predicate Valid()
      reads this
    {
      Unique(records)
    }

    constructor ()
      ensures Valid() && records == {}
    {
      records := {};
    }

    /** `findOne` on the scope, then `findByIdAndDelete` of the record found
        or `create` of a new record with id `newId`. */
    method Toggle(k: K, newId: Id) returns (o: Outcome)
      requires Valid() && newId !in Ids(records)
      modifies this
      ensures Valid()
      ensures o == if k in Keys(old(records)) then Removed else Added
      ensures records == Toggled(old(records), k, newId)
    {
      TogglePreservesUnique(records, k, newId);
      if exists r :: r in records && r.key == k {
        var found :| found in records && found.key == k;
        ghost var before := records;
        records := set r | r in records && r.id != found.id;
        assert records == Toggled(before, k, newId) by {
          forall r | r in before ensures (r.id != found.id) == (r.key != k) {
          }
        }
        o := Removed;
      } else {
        records := records + {Record(newId, k)};
        o := Added;
      }
    }
  }
}
