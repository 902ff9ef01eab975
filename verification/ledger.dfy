/** The ledger store: the in-memory list of transactions, the add and delete
    handlers that change it, and the saved copy that every change refreshes. */
module LedgerStore {
  import opened Records

  /** The records of `ts` whose id differs from `id`, in their original
      order: the delete handler's `filter`. */
  function WithoutId(ts: seq<Transaction>, id: int): (r: seq<Transaction>)
    ensures |r| <= |ts|
    ensures forall t :: t in r <==> t in ts && t.id != id
  {
    if ts == [] then []
    else if ts[0].id != id then [ts[0]] + WithoutId(ts[1..], id)
    else WithoutId(ts[1..], id)
  }

  /** The records of `ts` whose id is `id`: what a delete removes. */
  function WithId(ts: seq<Transaction>, id: int): (r: seq<Transaction>)
    ensures forall t :: t in r <==> t in ts && t.id == id
  {
    if ts == [] then []
    else if ts[0].id == id then [ts[0]] + WithId(ts[1..], id)
    else WithId(ts[1..], id)
  }

  /** The ids of a non-empty ledger: the head's and the tail's. */
  lemma IdsTail(ts: seq<Transaction>)
    requires ts != []
    ensures Ids(ts) == {ts[0].id} + Ids(ts[1..])
  {
    forall x | x in Ids(ts[1..]) ensures x in Ids(ts) {
      var i :| 0 <= i < |ts[1..]| && ts[1..][i].id == x;
      assert ts[i + 1].id == x;
    }
    forall x | x in Ids(ts) ensures x in {ts[0].id} + Ids(ts[1..]) {
      var i :| 0 <= i < |ts| && ts[i].id == x;
      if i > 0 {
        assert ts[1..][i - 1].id == x;
      }
    }
  }

  /** Deleting an id that no record has changes nothing. */
  lemma {:induction false} WithoutAbsentId(ts: seq<Transaction>, id: int)
    requires id !in Ids(ts)
    ensures WithoutId(ts, id) == ts
  {
    if ts != [] {
      IdsTail(ts);
      WithoutAbsentId(ts[1..], id);
    }
  }

  /** An id that no record has selects nothing. */
  lemma {:induction false} WithAbsentId(ts: seq<Transaction>, id: int)
    requires id !in Ids(ts)
    ensures WithId(ts, id) == []
  {
    if ts != [] {
      IdsTail(ts);
      WithAbsentId(ts[1..], id);
    }
  }

  /** The filter keeps relative order: filtering a concatenation is the
      concatenation of the filtered parts. */
  lemma {:induction false} WithoutIdAppend(a: seq<Transaction>, b: seq<Transaction>, id: int)
    ensures WithoutId(a + b, id) == WithoutId(a, id) + WithoutId(b, id)
  {
    if a != [] {
      assert (a + b)[0] == a[0];
      assert (a + b)[1..] == a[1..] + b;
      WithoutIdAppend(a[1..], b, id);
    } else {
      assert a + b == b;
    }
  }

  /** Every record lands in exactly one of the two parts, as often as it
      occurs in the ledger, so their lengths add up to the ledger's. */
  lemma {:induction false} SplitById(ts: seq<Transaction>, id: int)
    ensures multiset(WithoutId(ts, id)) + multiset(WithId(ts, id)) == multiset(ts)
    ensures |WithoutId(ts, id)| + |WithId(ts, id)| == |ts|
  {
    if ts != [] {
      SplitById(ts[1..], id);
      assert ts == [ts[0]] + ts[1..];
    }
  }

  /** Ids in the filtered ledger are ids of the original. */
  lemma IdsWithoutId(ts: seq<Transaction>, id: int)
    ensures Ids(WithoutId(ts, id)) == Ids(ts) - {id}
  {
    var r := WithoutId(ts, id);
    forall x | x in Ids(r) ensures x in Ids(ts) - {id} {
      var i :| 0 <= i < |r| && r[i].id == x;
      assert r[i] in ts;
    }
    forall x | x in Ids(ts) - {id} ensures x in Ids(r) {
      var i :| 0 <= i < |ts| && ts[i].id == x;
      assert ts[i] in r;
    }
  }

  /** The tail of a ledger with unique ids has unique ids, none of them the
      head's. */
  lemma UniqueTail(ts: seq<Transaction>)
    requires UniqueIds(ts) && ts != []
    ensures UniqueIds(ts[1..])
    ensures ts[0].id !in Ids(ts[1..])
  {
    forall i, j | 0 <= i < j < |ts[1..]| ensures ts[1..][i].id != ts[1..][j].id {
      assert ts[1..][i] == ts[i + 1] && ts[1..][j] == ts[j + 1];
    }
    forall k | 0 <= k < |ts[1..]| ensures ts[1..][k].id != ts[0].id {
      assert ts[1..][k] == ts[k + 1];
    }
  }

  /** Putting a record with a new id in front keeps ids unique. */
  lemma ConsUnique(t: Transaction, rest: seq<Transaction>)
    requires UniqueIds(rest) && t.id !in Ids(rest)
    ensures UniqueIds([t] + rest)
  {
    forall i, j | 0 <= i < j < |[t] + rest| ensures ([t] + rest)[i].id != ([t] + rest)[j].id {
      assert ([t] + rest)[j] == rest[j - 1];
      if i > 0 {
        assert ([t] + rest)[i] == rest[i - 1];
      }
    }
  }

  /** Deleting keeps ids unique. */
  lemma {:induction false} DeleteKeepsUnique(ts: seq<Transaction>, id: int)
    requires UniqueIds(ts)
    ensures UniqueIds(WithoutId(ts, id))
  {
    if ts != [] {
      UniqueTail(ts);
      DeleteKeepsUnique(ts[1..], id);
      if ts[0].id != id {
        IdsWithoutId(ts[1..], id);
        ConsUnique(ts[0], WithoutId(ts[1..], id));
      }
    }
  }

  /** With unique ids, deleting a present id removes exactly one record. */
  lemma {:induction false} DeleteRemovesOne(ts: seq<Transaction>, id: int)
    requires UniqueIds(ts) && id in Ids(ts)
    ensures |WithoutId(ts, id)| == |ts| - 1
  {
    UniqueTail(ts);
    if ts[0].id == id {
      WithoutAbsentId(ts[1..], id);
    } else {
      var k :| 0 <= k < |ts| && ts[k].id == id;
      assert ts[1..][k - 1].id == id;
      DeleteRemovesOne(ts[1..], id);
    }
  }

  /** Appending a record whose id is new keeps ids unique. */
  lemma AddFreshUnique(ts: seq<Transaction>, t: Transaction)
    requires UniqueIds(ts)
    requires t.id !in Ids(ts)
    ensures UniqueIds(ts + [t])
  {
    forall i, j | 0 <= i < j < |ts + [t]| ensures (ts + [t])[i].id != (ts + [t])[j].id {
      if j == |ts| {
        assert ts[i].id in Ids(ts);
      }
    }
  }

  /** The transaction ledger. `transactions` is the module-level array;
      `saved` is the browser's stored copy of it, `None` while nothing has
      been stored. */
  class Ledger {
    var transactions: seq<Transaction>
    var saved: Option<seq<Transaction>>

    /** The stored copy, read back as the page does on load, agrees with the
        in-memory ledger. */
    ghost predicate InSync()
      reads this
    {
      (if saved.Some? then saved.value else []) == transactions
    }

    /** Page load: the stored array, or an empty ledger when nothing is
        stored. */
    constructor Load(stored: Option<seq<Transaction>>)
      ensures saved == stored
      ensures transactions == (if stored.Some? then stored.value else [])
      ensures InSync()
    {
      saved := stored;
      transactions := if stored.Some? then stored.value else [];
    }

    /** Writes the whole ledger to storage, replacing what was there. */
    method Save()
      modifies this`saved
      ensures saved == Some(transactions)
      ensures InSync()
    {
      saved := Some(transactions);
    }

    /** The submit handler: builds the record from the form values (with `id`
        standing for the creation timestamp), appends it, then saves. */
    method Add(id: int, amount: int, kind: string, category: string, date: string, notes: string)
      returns (t: Transaction)
      modifies this
      ensures t == Transaction(id, amount, kind, category, date, notes)
      ensures transactions == old(transactions) + [t]
      ensures |transactions| == |old(transactions)| + 1
      ensures transactions[|transactions| - 1] == t
      ensures forall i :: 0 <= i < |old(transactions)| ==> transactions[i] == old(transactions)[i]
      ensures saved == Some(transactions)
      ensures InSync()
      ensures UniqueIds(old(transactions)) && id !in Ids(old(transactions)) ==> UniqueIds(transactions)
    {
      t := Transaction(id, amount, kind, category, date, notes);
      if UniqueIds(transactions) && id !in Ids(transactions) {
        AddFreshUnique(transactions, t);
      }
      transactions := transactions + [t];
      Save();
    }

    /** The delete handler: keeps the records whose id is not `id`, then
        saves. */
    method Delete(id: int)
      modifies this
      ensures transactions == WithoutId(old(transactions), id)
      ensures forall t :: t in transactions ==> t.id != id
      ensures forall t :: t in old(transactions) && t.id != id ==> t in transactions
      ensures id !in Ids(old(transactions)) ==> transactions == old(transactions)
      ensures saved == Some(transactions)
      ensures InSync()
      ensures UniqueIds(old(transactions)) ==> UniqueIds(transactions)
      ensures UniqueIds(old(transactions)) && id in Ids(old(transactions)) ==>
                |transactions| == |old(transactions)| - 1
    {
      if id !in Ids(transactions) {
        WithoutAbsentId(transactions, id);
      }
      if UniqueIds(transactions) {
        DeleteKeepsUnique(transactions, id);
        if id in Ids(transactions) {
          DeleteRemovesOne(transactions, id);
        }
      }
      transactions := WithoutId(transactions, id);
      Save();
    }
  }
}
