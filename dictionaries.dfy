/**
 * Dictionary<string, string> as the server uses it for request and response
 * headers: unique keys compared ordinally, and enumeration in insertion order
 * (a dictionary that is only added to, overwritten and cleared enumerates its
 * entries in the order their keys were first added).
 */
module Dictionaries {
  import opened Strings

  datatype Entry = Entry(key: string, value: string)

  predicate UniqueKeys(es: seq<Entry>) {
    forall i, j :: 0 <= i < j < |es| ==> es[i].key != es[j].key
  }

  function Keys(es: seq<Entry>): (ks: set<string>)
    ensures forall i :: 0 <= i < |es| ==> es[i].key in ks
    ensures forall k :: k in ks ==> exists i :: 0 <= i < |es| && es[i].key == k
  {
    if es == [] then {}
    else
      var ks := {es[0].key} + Keys(es[1..]);
      assert forall k :: k in Keys(es[1..]) ==> exists i :: 0 <= i < |es| && es[i].key == k by {
        forall k | k in Keys(es[1..]) ensures exists i :: 0 <= i < |es| && es[i].key == k {
          var i' :| 0 <= i' < |es[1..]| && es[1..][i'].key == k;
          assert es[i' + 1].key == k;
        }
      }
      ks
  }

  lemma {:induction false} KeysAppend(es: seq<Entry>, e: Entry)
    ensures Keys(es + [e]) == Keys(es) + {e.key}
  {
    if es != [] {
      assert (es + [e])[1..] == es[1..] + [e];
      KeysAppend(es[1..], e);
    }
  }

  /** TryGetValue: the value stored under key, if any. */
  function Find(es: seq<Entry>, key: string): (r: Option<string>)
    ensures r.Some? <==> key in Keys(es)
    ensures r.Some? ==> Entry(key, r.value) in es
    ensures UniqueKeys(es) ==> forall v :: Entry(key, v) in es ==> r == Some(v)
  {
    if es == [] then None
    else if es[0].key == key then Some(es[0].value)
    else
      Find(es[1..], key)
  }

  /** The indexer set dict[key] = value: overwrite in place, or append a new entry. */
  function Put(es: seq<Entry>, key: string, value: string): (r: seq<Entry>)
    ensures key !in Keys(es) ==> r == es + [Entry(key, value)]
    ensures key in Keys(es) ==> |r| == |es|
    ensures forall i :: 0 <= i < |es| && es[i].key != key ==> r[i] == es[i]
  {
    if es == [] then [Entry(key, value)]
    else if es[0].key == key then [Entry(key, value)] + es[1..]
    else [es[0]] + Put(es[1..], key, value)
  }

  /** After Put the key holds the new value and every other key its old one. */
  lemma {:induction false} PutFind(es: seq<Entry>, key: string, value: string, k: string)
    ensures Find(Put(es, key, value), k) == if k == key then Some(value) else Find(es, k)
  {
    if es != [] && es[0].key != key {
      PutFind(es[1..], key, value, k);
      assert Put(es, key, value)[1..] == Put(es[1..], key, value);
    }
  }

  /** Put overwrites a value in place: the key at every old position is the same. */
  lemma {:induction false} PutKeepsKeys(es: seq<Entry>, key: string, value: string)
    ensures forall i :: 0 <= i < |es| ==> Put(es, key, value)[i].key == es[i].key
  {
    if es != [] && es[0].key != key {
      PutKeepsKeys(es[1..], key, value);
      assert Put(es, key, value)[1..] == Put(es[1..], key, value);
    }
  }

  /** Two entry lists with the same key at every position have the same key set. */
  lemma {:induction false} SameKeys(a: seq<Entry>, b: seq<Entry>)
    requires |a| == |b| && forall i :: 0 <= i < |a| ==> a[i].key == b[i].key
    ensures Keys(a) == Keys(b)
  {
    if a != [] {
      SameKeys(a[1..], b[1..]);
    }
  }

  /** The indexer set keeps the keys unique and adds exactly its key. */
  lemma {:induction false} PutUnique(es: seq<Entry>, key: string, value: string)
    requires UniqueKeys(es)
    ensures UniqueKeys(Put(es, key, value))
    ensures Keys(Put(es, key, value)) == Keys(es) + {key}
  {
    var r := Put(es, key, value);
    if key !in Keys(es) {
      KeysAppend(es, Entry(key, value));
    } else {
      PutKeepsKeys(es, key, value);
      SameKeys(r, es);
    }
  }

  /** A Dictionary<string, string> object, shared by reference. */
  class Dictionary {
    var entries: seq<Entry>

    ghost predicate Valid()
      reads this
    {
      UniqueKeys(entries)
    }

    constructor ()
      ensures Valid() && entries == []
    {
      entries := [];
    }

    /** Add: ok is false where .NET throws ArgumentException for a key already present. */
    method Add(key: string, value: string) returns (ok: bool)
      requires Valid()
      modifies this
      ensures Valid()
      ensures ok <==> key !in Keys(old(entries))
      ensures entries == if ok then old(entries) + [Entry(key, value)] else old(entries)
    {
      ok := Find(entries, key).None?;
      if ok {
        entries := entries + [Entry(key, value)];
      }
    }

    /** The indexer set this[key] = value. */
    method Set(key: string, value: string)
      requires Valid()
      modifies this
      ensures Valid() && entries == Put(old(entries), key, value)
    {
      PutUnique(entries, key, value);
      entries := Put(entries, key, value);
    }

    method Clear()
      modifies this
      ensures Valid() && entries == []
    {
      entries := [];
    }

    function TryGetValue(key: string): Option<string>
      reads this
    {
      Find(entries, key)
    }
  }
}
