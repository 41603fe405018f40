/** Insertion-ordered dictionaries: the JavaScript `Map` and plain-object semantics the
    pages rely on (`get`, `set` keeping an existing key in place and appending a new
    one, `delete`). */
module Assoc {
  import opened Text

  /** No key occurs twice. */
  predicate UniqueKeys<K(==), V>(s: seq<(K, V)>) {
    forall i, j :: 0 <= i < j < |s| ==> Keys(s)[i] != Keys(s)[j]
  }

  function Keys<K, V>(s: seq<(K, V)>): (ks: seq<K>)
    ensures |ks| == |s| && forall i {:trigger ks[i]} :: 0 <= i < |s| ==> ks[i] == s[i].0
  {
    seq(|s|, i requires 0 <= i < |s| => s[i].0)
  }

  lemma KeysCons<K, V>(s: seq<(K, V)>)
    requires s != []
    ensures Keys(s) == [s[0].0] + Keys(s[1..])
  {
    var a, b := Keys(s), [s[0].0] + Keys(s[1..]);
    forall i | 0 <= i < |a| ensures a[i] == b[i] {
      if i > 0 {
        assert b[i] == Keys(s[1..])[i - 1] == s[1..][i - 1].0;
      }
    }
  }

  /** The tail of a list without repeated keys has none either, and lacks the head's key. */
  lemma UniqueTail<K, V>(s: seq<(K, V)>)
    requires s != [] && UniqueKeys(s)
    ensures UniqueKeys(s[1..]) && s[0].0 !in Keys(s[1..])
  {
    KeysCons(s);
    var ks, ts := Keys(s), Keys(s[1..]);
    forall i, j | 0 <= i < j < |s| - 1 ensures ts[i] != ts[j] {
      assert ts[i] == ks[i + 1] && ts[j] == ks[j + 1];
    }
    forall i | 0 <= i < |s| - 1 ensures ts[i] != s[0].0 {
      assert ts[i] == ks[i + 1] && ks[0] == s[0].0;
    }
  }

  /** `m.get(k)`, `None` standing for `undefined`. */
  function Lookup<K(==), V>(s: seq<(K, V)>, k: K): (r: Option<V>)
    ensures r.None? <==> k !in Keys(s)
  {
    if s == [] then None
    else
      KeysCons(s);
      if s[0].0 == k then Some(s[0].1) else Lookup(s[1..], k)
  }

  /** A present key's value is stored beside it. */
  lemma {:induction false} LookupEntry<K, V>(s: seq<(K, V)>, k: K)
    requires Lookup(s, k).Some?
    ensures (k, Lookup(s, k).value) in s
  {
    if s[0].0 != k {
      LookupEntry(s[1..], k);
    }
  }

  /** `m.set(k, v)`: replaces the value in place when `k` is present, appends otherwise. */
  function Put<K(==), V>(s: seq<(K, V)>, k: K, v: V): (r: seq<(K, V)>)
    ensures k in Keys(s) ==> Keys(r) == Keys(s)
    ensures k !in Keys(s) ==> Keys(r) == Keys(s) + [k]
    ensures k in Keys(r)
  {
    if s == [] then
      assert Keys([(k, v)])[0] == k;
      [(k, v)]
    else
      KeysCons(s);
      var r := if s[0].0 == k then [(k, v)] + s[1..] else [s[0]] + Put(s[1..], k, v);
      KeysCons(r);
      assert r[1..] == if s[0].0 == k then s[1..] else Put(s[1..], k, v);
      r
  }

  /** The entries after a `set` are the entries before plus the new one. */
  lemma {:induction false} PutEntries<K, V>(s: seq<(K, V)>, k: K, v: V)
    ensures (k, v) in Put(s, k, v)
    ensures forall e :: e in Put(s, k, v) ==> e in s || e == (k, v)
  {
    if s != [] && s[0].0 != k {
      PutEntries(s[1..], k, v);
      assert Put(s, k, v) == [s[0]] + Put(s[1..], k, v);
    }
  }

  /** `m.delete(k)` */
  function Remove<K(==,!new), V>(s: seq<(K, V)>, k: K): (r: seq<(K, V)>)
    ensures k !in Keys(r)
    ensures forall x :: x in Keys(r) <==> x in Keys(s) && x != k
    ensures |r| <= |s|
  {
    if s == [] then []
    else
      KeysCons(s);
      if s[0].0 == k then Remove(s[1..], k)
      else
        var r := [s[0]] + Remove(s[1..], k);
        KeysCons(r);
        assert r[1..] == Remove(s[1..], k);
        r
  }

  /** After `set`, the key maps to the new value and every other key to what it did. */
  lemma {:induction false} LookupPut<K, V>(s: seq<(K, V)>, k: K, v: V, x: K)
    ensures Lookup(Put(s, k, v), x) == if x == k then Some(v) else Lookup(s, x)
  {
    if s != [] && s[0].0 != k {
      LookupPut(s[1..], k, v, x);
    }
  }

  /** After `delete`, only the deleted key has gone. */
  lemma {:induction false} LookupRemove<K(!new), V>(s: seq<(K, V)>, k: K, x: K)
    ensures Lookup(Remove(s, k), x) == if x == k then None else Lookup(s, x)
  {
    if s != [] {
      LookupRemove(s[1..], k, x);
    }
  }

  /** Setting a key to the value it already has changes nothing. */
  lemma {:induction false} PutSame<K, V>(s: seq<(K, V)>, k: K)
    requires k in Keys(s)
    ensures Put(s, k, Lookup(s, k).value) == s
  {
    if s[0].0 != k {
      assert Keys(s) == [s[0].0] + Keys(s[1..]);
      PutSame(s[1..], k);
      assert Lookup(s, k) == Lookup(s[1..], k);
      assert Put(s, k, Lookup(s, k).value) == [s[0]] + s[1..];
    } else {
      assert Put(s, k, Lookup(s, k).value) == [(k, s[0].1)] + s[1..];
    }
  }

  /** A second `set` of the same key overrides the first. */
  lemma {:induction false} PutPut<K, V>(s: seq<(K, V)>, k: K, v: V, w: V)
    ensures Put(Put(s, k, v), k, w) == Put(s, k, w)
  {
    if s != [] && s[0].0 != k {
      PutPut(s[1..], k, v, w);
    }
  }

  /** A new key is appended at the end. */
  lemma {:induction false} PutAbsent<K, V>(s: seq<(K, V)>, k: K, v: V)
    requires k !in Keys(s)
    ensures Put(s, k, v) == s + [(k, v)]
  {
    if s != [] {
      assert Keys(s)[0] == s[0].0;
      assert k !in Keys(s[1..]) by {
        forall i | 0 <= i < |s| - 1 ensures Keys(s[1..])[i] != k {
          assert Keys(s[1..])[i] == s[i + 1].0 == Keys(s)[i + 1];
        }
      }
      PutAbsent(s[1..], k, v);
      assert Put(s, k, v) == [s[0]] + (s[1..] + [(k, v)]);
      assert [s[0]] + (s[1..] + [(k, v)]) == s + [(k, v)];
    }
  }

  /** Deleting a key that is not there changes nothing. */
  lemma {:induction false} RemoveAbsent<K(!new), V>(s: seq<(K, V)>, k: K)
    requires k !in Keys(s)
    ensures Remove(s, k) == s
  {
    if s != [] {
      assert Keys(s)[0] == s[0].0;
      assert k !in Keys(s[1..]) by {
        forall i | 0 <= i < |s| - 1 ensures Keys(s[1..])[i] != k {
          assert Keys(s[1..])[i] == s[i + 1].0 == Keys(s)[i + 1];
        }
      }
      RemoveAbsent(s[1..], k);
      assert Remove(s, k) == [s[0]] + s[1..];
    }
  }

  lemma {:induction false} PutUnique<K, V>(s: seq<(K, V)>, k: K, v: V)
    requires UniqueKeys(s)
    ensures UniqueKeys(Put(s, k, v))
  {
    var r := Put(s, k, v);
    var ks, rs := Keys(s), Keys(r);
    forall i, j | 0 <= i < j < |r| ensures r[i].0 != r[j].0 {
      assert rs[i] == r[i].0 && rs[j] == r[j].0;
      if j < |s| {
        assert ks[i] == s[i].0 && ks[j] == s[j].0;
      } else {
        assert ks[i] == s[i].0;
      }
    }
  }

  lemma {:induction false} RemoveUnique<K(!new), V>(s: seq<(K, V)>, k: K)
    requires UniqueKeys(s)
    ensures UniqueKeys(Remove(s, k))
  {
    if s != [] {
      UniqueTail(s);
      RemoveUnique(s[1..], k);
      if s[0].0 != k {
        var r := Remove(s, k);
        var t := Remove(s[1..], k);
        assert r == [s[0]] + t;
        KeysCons(r);
        var rs, ts := Keys(r), Keys(t);
        forall i, j | 0 <= i < j < |r| ensures rs[i] != rs[j] {
          assert rs[j] == ts[j - 1];
          if i > 0 {
            assert rs[i] == ts[i - 1];
          } else {
            assert ts[j - 1] in Keys(t);
          }
        }
      }
    }
  }
}
