/** The per-chat tally: a dictionary from member key to `{name, username,
    count}`.  Python dictionaries remember insertion order, and JSON
    serialisation writes and reads keys in that order, so a table is modelled
    as an association list: a new key is appended, an existing key is
    updated where it stands. */
module Tally {

  datatype Entry = Entry(name: string, username: string, count: nat)

  datatype Item = Item(key: string, entry: Entry)

  type Table = seq<Item>

  function Keys(t: Table): (ks: seq<string>)
    ensures |ks| == |t| && forall i :: 0 <= i < |t| ==> ks[i] == t[i].key
  {
    if t == [] then [] else [t[0].key] + Keys(t[1..])
  }

  /** A dictionary never holds a key twice. */
  ghost predicate UniqueKeys(t: Table) {
    forall i, j :: 0 <= i < j < |t| ==> t[i].key != t[j].key
  }

  /** The position of `key` in `t`, or `|t|` when it is absent. */
  function IndexOf(t: Table, key: string): (r: nat)
    ensures r <= |t|
    ensures r < |t| ==> t[r].key == key
    ensures forall j :: 0 <= j < r ==> t[j].key != key
  {
    if t == [] then 0
    else if t[0].key == key then 0
    else 1 + IndexOf(t[1..], key)
  }

  /** `key in t` */
  predicate Has(t: Table, key: string) {
    IndexOf(t, key) < |t|
  }

  lemma HasIff(t: Table, key: string)
    ensures Has(t, key) <==> key in Keys(t)
  {
    if key in Keys(t) {
      var i :| 0 <= i < |t| && Keys(t)[i] == key;
      assert IndexOf(t, key) <= i;
    }
  }

  /** `t[key]` */
  function Get(t: Table, key: string): Entry
    requires Has(t, key)
  {
    t[IndexOf(t, key)].entry
  }

  /** `t[key] = e`: replaces the entry in place if the key is present,
      appends a new item otherwise. */
  function Put(t: Table, key: string, e: Entry): (r: Table)
    ensures Has(r, key) && Get(r, key) == e
    ensures Has(t, key) ==> Keys(r) == Keys(t)
    ensures !Has(t, key) ==> r == t + [Item(key, e)]
    ensures forall k :: k != key ==> Has(r, k) == Has(t, k) && (Has(t, k) ==> Get(r, k) == Get(t, k))
  {
    var i := IndexOf(t, key);
    if i < |t| then
      UpdateFacts(t, i, key, e);
      t[i := Item(key, e)]
    else
      AppendFacts(t, key, e);
      t + [Item(key, e)]
  }

  lemma UpdateFacts(t: Table, i: nat, key: string, e: Entry)
    requires i == IndexOf(t, key) && i < |t|
    ensures Has(t[i := Item(key, e)], key) && Get(t[i := Item(key, e)], key) == e
    ensures Keys(t[i := Item(key, e)]) == Keys(t)
    ensures forall k :: k != key ==> Has(t[i := Item(key, e)], k) == Has(t, k) &&
                                     (Has(t, k) ==> Get(t[i := Item(key, e)], k) == Get(t, k))
  {
    var r := t[i := Item(key, e)];
    IndexOfUpdate(t, i, key, e, key);
    forall k | k != key
      ensures Has(r, k) == Has(t, k) && (Has(t, k) ==> Get(r, k) == Get(t, k))
    {
      IndexOfUpdate(t, i, key, e, k);
    }
    assert Keys(r) == Keys(t) by {
      assert forall j :: 0 <= j < |t| ==> Keys(r)[j] == Keys(t)[j];
    }
  }

  lemma AppendFacts(t: Table, key: string, e: Entry)
    requires !Has(t, key)
    ensures Has(t + [Item(key, e)], key) && Get(t + [Item(key, e)], key) == e
    ensures forall k :: k != key ==> Has(t + [Item(key, e)], k) == Has(t, k) &&
                                     (Has(t, k) ==> Get(t + [Item(key, e)], k) == Get(t, k))
  {
    var r := t + [Item(key, e)];
    IndexOfAppend(t, Item(key, e), key);
    forall k | k != key
      ensures Has(r, k) == Has(t, k) && (Has(t, k) ==> Get(r, k) == Get(t, k))
    {
      IndexOfAppend(t, Item(key, e), k);
    }
  }

  lemma {:induction false} IndexOfUpdate(t: Table, i: nat, key: string, e: Entry, k: string)
    requires i < |t| && t[i].key == key
    ensures IndexOf(t[i := Item(key, e)], k) == IndexOf(t, k)
    decreases |t|
  {
    if t[0].key != k && i > 0 {
      assert t[i := Item(key, e)][1..] == t[1..][i - 1 := Item(key, e)];
      IndexOfUpdate(t[1..], i - 1, key, e, k);
    }
  }

  lemma {:induction false} IndexOfAppend(t: Table, x: Item, k: string)
    ensures IndexOf(t + [x], k) == if Has(t, k) then IndexOf(t, k) else if x.key == k then |t| else |t| + 1
    decreases |t|
  {
    if t != [] && t[0].key != k {
      assert (t + [x])[1..] == t[1..] + [x];
      IndexOfAppend(t[1..], x, k);
    }
  }

  lemma PutUnique(t: Table, key: string, e: Entry)
    requires UniqueKeys(t)
    ensures UniqueKeys(Put(t, key, e))
  {
    var r := Put(t, key, e);
    if Has(t, key) {
      forall i, j | 0 <= i < j < |r| ensures r[i].key != r[j].key {
        assert Keys(r)[i] == Keys(t)[i] && Keys(r)[j] == Keys(t)[j];
      }
    } else {
      HasIff(t, key);
      forall i | 0 <= i < |t| ensures t[i].key != key {
        assert Keys(t)[i] == t[i].key;
      }
    }
  }

  /** The total of all counts in a table. */
  function Sum(t: Table): nat {
    if t == [] then 0 else t[0].entry.count + Sum(t[1..])
  }

  lemma {:induction false} SumAppend(t: Table, x: Item)
    ensures Sum(t + [x]) == Sum(t) + x.entry.count
    decreases |t|
  {
    if t != [] {
      assert (t + [x])[1..] == t[1..] + [x];
      SumAppend(t[1..], x);
    }
  }

  lemma {:induction false} SumUpdate(t: Table, i: nat, x: Item)
    requires i < |t|
    ensures Sum(t[i := x]) + t[i].entry.count == Sum(t) + x.entry.count
    decreases |t|
  {
    if i > 0 {
      assert t[i := x][1..] == t[1..][i - 1 := x];
      SumUpdate(t[1..], i - 1, x);
    }
  }

  /** `Put` changes the total by the difference between the new count and
      the old one (0 for an absent key). */
  lemma PutSum(t: Table, key: string, e: Entry)
    ensures Sum(Put(t, key, e)) + (if Has(t, key) then Get(t, key).count else 0) == Sum(t) + e.count
  {
    if Has(t, key) {
      SumUpdate(t, IndexOf(t, key), Item(key, e));
    } else {
      SumAppend(t, Item(key, e));
    }
  }

  /** One win for `key`: the entry is created with count 0 when absent, then
      its count is incremented (main.py:141-149).  The winner's count goes up
      by exactly one; a new entry ends at 1 with the given name and username
      and goes last; an existing one keeps its place, name and username; no
      other key is added, removed or changed. */
  function Record(t: Table, key: string, name: string, username: string): (r: Table)
    ensures Has(r, key)
    ensures Has(t, key) ==> Get(r, key) == Get(t, key).(count := Get(t, key).count + 1)
    ensures Has(t, key) ==> Keys(r) == Keys(t)
    ensures !Has(t, key) ==> Get(r, key) == Entry(name, username, 1)
    ensures !Has(t, key) ==> r == t + [Item(key, Entry(name, username, 1))]
    ensures forall k :: k != key ==> Has(r, k) == Has(t, k) && (Has(t, k) ==> Get(r, k) == Get(t, k))
  {
    var t1 := if Has(t, key) then t else Put(t, key, Entry(name, username, 0));
    assert !Has(t, key) ==> IndexOf(t1, key) == |t|;
    var e := Get(t1, key);
    Put(t1, key, e.(count := e.count + 1))
  }

  /** A win adds exactly one to the table's total. */
  lemma RecordSum(t: Table, key: string, name: string, username: string)
    ensures Sum(Record(t, key, name, username)) == Sum(t) + 1
  {
    if Has(t, key) {
      var e := Get(t, key);
      PutSum(t, key, e.(count := e.count + 1));
      assert Record(t, key, name, username) == Put(t, key, e.(count := e.count + 1));
    } else {
      var start := Entry(name, username, 0);
      var t1 := Put(t, key, start);
      PutSum(t, key, start);
      assert Get(t1, key) == start;
      PutSum(t1, key, start.(count := 1));
      assert Record(t, key, name, username) == Put(t1, key, start.(count := 1));
    }
  }

  lemma RecordUnique(t: Table, key: string, name: string, username: string)
    requires UniqueKeys(t)
    ensures UniqueKeys(Record(t, key, name, username))
  {
    var t1 := if Has(t, key) then t else Put(t, key, Entry(name, username, 0));
    if !Has(t, key) {
      PutUnique(t, key, Entry(name, username, 0));
    }
    var e := Get(t1, key);
    PutUnique(t1, key, e.(count := e.count + 1));
  }
}
