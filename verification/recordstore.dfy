/** The hash and list pair behind the first-time-seen and ignore stores: the newest records, bounded. */
module RecordStores {
  import opened Events

  /** The records after one more: a known record changes nothing, a full list drops its oldest. */
  function Stored(list: seq<string>, size: nat, r: string): seq<string> {
    if r in list then list
    else if |list| < size || list == [] then list + [r]
    else list[1..] + [r]
  }

  function StoredAll(list: seq<string>, size: nat, records: seq<string>): seq<string>
    decreases |records|
  {
    if records == [] then list else StoredAll(Stored(list, size, records[0]), size, records[1..])
  }

  lemma {:induction false} StoredAllMore(list: seq<string>, size: nat, records: seq<string>, more: seq<string>)
    ensures StoredAll(list, size, records + more) == StoredAll(StoredAll(list, size, records), size, more)
    decreases |records|
  {
    if records == [] {
      assert records + more == more;
    } else {
      StoredAllMore(Stored(list, size, records[0]), size, records[1..], more);
      assert (records + more)[1..] == records[1..] + more;
    }
  }

  /** Storing a duplicate-free sequence that fits gives that sequence. */
  lemma {:induction false} StoredAllFits(size: nat, records: seq<string>)
    requires Distinct(records) && |records| <= size
    ensures StoredAll([], size, records) == records
  {
    if records != [] {
      var n := |records| - 1;
      StoredAllFits(size, records[..n]);
      StoredAllMore([], size, records[..n], [records[n]]);
      assert records[..n] + [records[n]] == records;
      Apart(records, n);
      assert records[n] !in records[..n];
      assert StoredAll(records[..n], size, [records[n]]) == records[..n] + [records[n]];
    }
  }

  /** A new record leaves the newest records of the list, as many as there is room for. */
  lemma StoredIsNewest(list: seq<string>, size: nat, r: string)
    requires |list| <= size && size > 0
    ensures r in list ==> Stored(list, size, r) == list
    ensures r !in list ==>
      var all := list + [r];
      Stored(list, size, r) == if |all| <= size then all else all[|all| - size..]
  {
  }

  lemma StoredKeeps(list: seq<string>, size: nat, r: string)
    requires Distinct(list) && |list| <= size && size > 0
    ensures Distinct(Stored(list, size, r)) && |Stored(list, size, r)| <= size
  {
  }

  class RecordStore {
    const size: nat
    var list: seq<string>
    var keys: set<string>

    /** The hash holds the keys of the list, and no record is there twice. */
    ghost predicate Valid()
      reads this
    {
      && 1 < size
      && |list| <= size && Distinct(list)
      && (forall r :: r in keys <==> r in list)
    }

    constructor (size: nat)
      requires 1 < size
      ensures Valid() && list == [] && this.size == size
    {
      this.size, list, keys := size, [], {};
    }

    /** FTS_Free and IG_Free: the list forgets its oldest record, and so does the hash. */
    method Forget(r: string)
      modifies this`keys
      ensures keys == old(keys) - {r}
    {
      keys := keys - {r};
    }

    /** FTS_Add and IG_Add. */
    method Add(r: string) returns (isNew: bool)
      requires Valid()
      modifies this
      ensures Valid() && list == Stored(old(list), size, r)
      ensures isNew <==> r !in old(list)
    {
      if r in keys {
        return false;
      }
      StoredKeeps(list, size, r);
      keys := keys + {r};
      list := list + [r];
      assert Distinct(list);
      if |list| > size && |list| > 1 {
        WithoutMembers(list, 0);
        assert Without(list, 0) == list[1..];
        Forget(list[0]);
        list := list[1..];
      }
      return true;
    }
  }
}
