/**
 * A JavaScript object used as a dictionary from property key to value. Plain
 * objects enumerate their (non-numeric) string keys in insertion order, so the
 * object is a sequence of key/value entries with distinct keys: assigning to an
 * existing key overwrites its value in place, assigning to a new key appends it,
 * and `delete` removes the entry.
 */
module Props {
  import opened Wrappers

  datatype Prop = Prop(key: string, value: string)

  /** The keys in enumeration order (`Object.keys`) */
  function Keys(m: seq<Prop>): (ks: seq<string>)
    ensures |ks| == |m|
    ensures forall i :: 0 <= i < |m| ==> ks[i] == m[i].key
  {
    if m == [] then [] else [m[0].key] + Keys(m[1..])
  }

  /** Keys are unique, as in an object */
  predicate Distinct(m: seq<Prop>) {
    forall i, j :: 0 <= i < j < |m| ==> m[i].key != m[j].key
  }

  /** A prefix of entries with unique keys has unique keys. */
  lemma DistinctPrefix(m: seq<Prop>, n: nat)
    requires Distinct(m) && n <= |m|
    ensures Distinct(m[..n])
  {
    forall i, j | 0 <= i < j < n ensures m[..n][i].key != m[..n][j].key {
      assert m[..n][i] == m[i] && m[..n][j] == m[j];
    }
  }

  /** `m[k]`, with `None` for `undefined` */
  function Get(m: seq<Prop>, k: string): Option<string> {
    if m == [] then None
    else if m[0].key == k then Some(m[0].value)
    else Get(m[1..], k)
  }

  /** `m[k] = v` */
  function Put(m: seq<Prop>, k: string, v: string): seq<Prop> {
    if m == [] then [Prop(k, v)]
    else if m[0].key == k then [Prop(k, v)] + m[1..]
    else [m[0]] + Put(m[1..], k, v)
  }

  /** `delete m[k]` */
  function Delete(m: seq<Prop>, k: string): seq<Prop> {
    if m == [] then []
    else if m[0].key == k then Delete(m[1..], k)
    else [m[0]] + Delete(m[1..], k)
  }

  /** The entries of `m` whose keys are not in `ks`, in their order */
  function Without(m: seq<Prop>, ks: seq<string>): seq<Prop> {
    if m == [] then []
    else if m[0].key in ks then Without(m[1..], ks)
    else [m[0]] + Without(m[1..], ks)
  }

  /** A lookup finds a value exactly for the keys that are present. */
  lemma {:induction false} GetPresent(m: seq<Prop>, k: string)
    ensures Get(m, k).Some? <==> k in Keys(m)
    ensures Get(m, k).Some? ==> Prop(k, Get(m, k).value) in m
  {
    if m != [] {
      GetPresent(m[1..], k);
      assert Keys(m) == [m[0].key] + Keys(m[1..]);
    }
  }

  /** In an object, an entry that is present is what a lookup returns. */
  lemma {:induction false} GetMember(m: seq<Prop>, k: string, v: string)
    requires Distinct(m) && Prop(k, v) in m
    ensures Get(m, k) == Some(v)
  {
    if m[0] != Prop(k, v) {
      assert m[0].key != k by {
        var i :| 0 <= i < |m| && m[i] == Prop(k, v);
        assert i != 0;
      }
      assert Prop(k, v) in m[1..];
      GetMember(m[1..], k, v);
    }
  }

  /**
   * Assignment: the key now maps to the new value, every other key is unaffected,
   * an existing key keeps its position and a new key goes last.
   */
  lemma {:induction false} PutSemantics(m: seq<Prop>, k: string, v: string)
    ensures Get(Put(m, k, v), k) == Some(v)
    ensures forall k' :: k' != k ==> Get(Put(m, k, v), k') == Get(m, k')
    ensures Keys(Put(m, k, v)) == if k in Keys(m) then Keys(m) else Keys(m) + [k]
  {
    if m != [] {
      assert Keys(m) == [m[0].key] + Keys(m[1..]);
      if m[0].key != k {
        PutSemantics(m[1..], k, v);
        assert Put(m, k, v) == [m[0]] + Put(m[1..], k, v);
        assert Keys(Put(m, k, v)) == [m[0].key] + Keys(Put(m[1..], k, v));
      } else {
        assert Keys(Put(m, k, v)) == [k] + Keys(m[1..]);
      }
    }
  }

  /** Assigning to a key that is present replaces its entry where it stands. */
  lemma {:induction false} PutInPlace(m: seq<Prop>, k: string, v: string, i: nat)
    requires Distinct(m) && i < |m| && m[i].key == k
    ensures Put(m, k, v) == m[i := Prop(k, v)]
    decreases |m|
  {
    if i == 0 {
      assert [Prop(k, v)] + m[1..] == m[0 := Prop(k, v)];
    } else {
      assert m[0].key != k;
      assert m[1..][i - 1] == m[i];
      PutInPlace(m[1..], k, v, i - 1);
      assert [m[0]] + m[1..][i - 1 := Prop(k, v)] == m[i := Prop(k, v)];
    }
  }

  /** Assigning a key that is not present appends one entry. */
  lemma {:induction false} PutAbsent(m: seq<Prop>, k: string, v: string)
    requires k !in Keys(m)
    ensures Put(m, k, v) == m + [Prop(k, v)]
  {
    if m != [] {
      assert Keys(m) == [m[0].key] + Keys(m[1..]);
      PutAbsent(m[1..], k, v);
      assert m == [m[0]] + m[1..];
    }
  }

  /** Every entry after an assignment is the assigned one or an entry from before. */
  lemma {:induction false} PutMembers(m: seq<Prop>, k: string, v: string)
    ensures forall p :: p in Put(m, k, v) ==> p == Prop(k, v) || p in m
  {
    if m != [] && m[0].key != k {
      PutMembers(m[1..], k, v);
    }
  }

  /** Assignment keeps the keys unique. */
  lemma PutDistinct(m: seq<Prop>, k: string, v: string)
    requires Distinct(m)
    ensures Distinct(Put(m, k, v))
  {
    PutSemantics(m, k, v);
    var r := Put(m, k, v);
    var ks := Keys(r);
    forall i, j | 0 <= i < j < |r| ensures r[i].key != r[j].key {
      assert ks[i] == r[i].key && ks[j] == r[j].key;
      if k in Keys(m) {
        assert ks == Keys(m);
        assert Keys(m)[i] == m[i].key && Keys(m)[j] == m[j].key;
      } else {
        assert ks == Keys(m) + [k];
        if j < |m| {
          assert Keys(m)[i] == m[i].key && Keys(m)[j] == m[j].key;
        } else {
          assert Keys(m)[i] == m[i].key;
          assert ks[j] == k;
        }
      }
    }
  }

  /** Deletion removes the key and leaves every other key as it was. */
  lemma {:induction false} DeleteSemantics(m: seq<Prop>, k: string)
    ensures Get(Delete(m, k), k) == None
    ensures forall k' :: k' != k ==> Get(Delete(m, k), k') == Get(m, k')
    ensures forall p :: p in Delete(m, k) <==> p in m && p.key != k
  {
    if m != [] {
      DeleteSemantics(m[1..], k);
    }
  }

  /** Filtering by a key list: exactly the entries whose keys are not listed. */
  lemma {:induction false} WithoutSemantics(m: seq<Prop>, ks: seq<string>)
    ensures forall k :: k in ks ==> Get(Without(m, ks), k) == None
    ensures forall k :: k !in ks ==> Get(Without(m, ks), k) == Get(m, k)
    ensures forall p :: p in Without(m, ks) <==> p in m && p.key !in ks
  {
    if m != [] {
      WithoutSemantics(m[1..], ks);
    }
  }

  /** Filtering distributes over concatenation, so order is preserved. */
  lemma {:induction false} WithoutAppend(a: seq<Prop>, b: seq<Prop>, ks: seq<string>)
    ensures Without(a + b, ks) == Without(a, ks) + Without(b, ks)
  {
    if a != [] {
      assert (a + b)[1..] == a[1..] + b;
      WithoutAppend(a[1..], b, ks);
    } else {
      assert a + b == b;
    }
  }

  /** Filtering out keys that are not present changes nothing. */
  lemma {:induction false} WithoutAbsent(m: seq<Prop>, ks: seq<string>)
    requires forall p :: p in m ==> p.key !in ks
    ensures Without(m, ks) == m
  {
    if m != [] {
      assert m[0] in m;
      WithoutAbsent(m[1..], ks);
      assert m == [m[0]] + m[1..];
    }
  }

  /** Deleting one key is filtering by the one-element list. */
  lemma {:induction false} DeleteIsWithout(m: seq<Prop>, k: string)
    ensures Delete(m, k) == Without(m, [k])
  {
    if m != [] {
      DeleteIsWithout(m[1..], k);
    }
  }

  /** Filtering by `ks` and then deleting `k` is filtering by `ks + [k]`. */
  lemma {:induction false} WithoutThenDelete(m: seq<Prop>, ks: seq<string>, k: string)
    ensures Delete(Without(m, ks), k) == Without(m, ks + [k])
  {
    if m != [] {
      WithoutThenDelete(m[1..], ks, k);
      assert m[0].key in ks + [k] <==> m[0].key in ks || m[0].key == k;
    }
  }

  /** Filtering keeps the keys unique. */
  lemma {:induction false} WithoutDistinct(m: seq<Prop>, ks: seq<string>)
    requires Distinct(m)
    ensures Distinct(Without(m, ks))
  {
    if m != [] {
      WithoutDistinct(m[1..], ks);
      WithoutSemantics(m[1..], ks);
      var r := Without(m, ks);
      if m[0].key !in ks {
        assert r == [m[0]] + Without(m[1..], ks);
        forall j | 0 < j < |r| ensures r[0].key != r[j].key {
          assert r[j] in Without(m[1..], ks);
          assert r[j] in m[1..];
          var i :| 0 <= i < |m[1..]| && m[1..][i] == r[j];
          assert m[i + 1] == r[j];
        }
      }
    }
  }
}
