/**
 * A parsed query as the JavaScript code holds it: a plain object whose string
 * keys keep their insertion order (an assignment to an existing key keeps its
 * place, a new key goes last, `delete` drops the key), and whose values are
 * `undefined`, `null`, a string or an array of strings.
 */
module Records {

  /** The value stored under a query key. */
  datatype QVal = Undefined | Null | Str(s: string) | Arr(items: seq<string>)

  type Entry = (string, QVal)

  /** An object with string keys, entries in insertion order. */
  type Query = seq<Entry>

  /** `Object.keys(q)`. */
  function Keys(q: Query): (ks: seq<string>)
    ensures |ks| == |q|
    ensures forall i :: 0 <= i < |q| ==> ks[i] == q[i].0
  {
    seq(|q|, i requires 0 <= i < |q| => q[i].0)
  }

  /** What every JavaScript object satisfies: no key twice. */
  predicate UniqueKeys(q: Query)
  {
    forall i, j :: 0 <= i < j < |q| ==> q[i].0 != q[j].0
  }

  /** `q[k]`: the value under `k`, or undefined when `k` is absent. */
  function Get(q: Query, k: string): (v: QVal)
    ensures k !in Keys(q) ==> v == Undefined
    ensures UniqueKeys(q) ==> forall i :: 0 <= i < |q| && q[i].0 == k ==> v == q[i].1
  {
    if |q| == 0 then Undefined
    else if q[0].0 == k then q[0].1
    else
      assert Keys(q[1..]) == Keys(q)[1..];
      Get(q[1..], k)
  }

  /** `q[k] = v` on an object: an existing key keeps its place, a new one is appended. */
  function Put(q: Query, k: string, v: QVal): (r: Query)
    ensures k in Keys(q) ==> Keys(r) == Keys(q)
    ensures k !in Keys(q) ==> Keys(r) == Keys(q) + [k]
  {
    if |q| == 0 then [(k, v)]
    else
      KeysCons(q[0], q[1..]);
      assert [q[0]] + q[1..] == q;
      if q[0].0 == k then
        KeysCons((k, v), q[1..]);
        [(k, v)] + q[1..]
      else
        var rest := Put(q[1..], k, v);
        KeysCons(q[0], rest);
        [q[0]] + rest
  }

  lemma KeysCons(e: Entry, q: Query)
    ensures Keys([e] + q) == [e.0] + Keys(q)
  {
  }

  /** After `q[k] = v`, reading `k` gives `v` and every other key reads as before. */
  lemma {:induction false} PutGet(q: Query, k: string, v: QVal, k': string)
    ensures Get(Put(q, k, v), k') == if k' == k then v else Get(q, k')
    decreases |q|
  {
    if |q| > 0 && q[0].0 != k {
      PutGet(q[1..], k, v, k');
    }
  }

  /** Assignment changes no other key. */
  lemma PutOthers(q: Query, k: string, v: QVal)
    ensures Get(Put(q, k, v), k) == v
    ensures forall k' :: k' != k ==> Get(Put(q, k, v), k') == Get(q, k')
  {
    PutGet(q, k, v, k);
    forall k' | k' != k ensures Get(Put(q, k, v), k') == Get(q, k') {
      PutGet(q, k, v, k');
    }
  }

  /** Assigning a key the object does not have appends one entry. */
  lemma {:induction false} PutNew(q: Query, k: string, v: QVal)
    requires k !in Keys(q)
    ensures Put(q, k, v) == q + [(k, v)]
    decreases |q|
  {
    if |q| > 0 {
      assert Keys(q[1..]) == Keys(q)[1..];
      PutNew(q[1..], k, v);
      assert q == [q[0]] + q[1..];
    }
  }

  /** Assignment keeps an object's keys unique. */
  lemma PutUnique(q: Query, k: string, v: QVal)
    ensures UniqueKeys(q) ==> UniqueKeys(Put(q, k, v))
  {
    var r := Put(q, k, v);
    assert forall i :: 0 <= i < |r| ==> r[i].0 == Keys(r)[i];
    assert forall i :: 0 <= i < |q| ==> q[i].0 == Keys(q)[i];
  }

  /** Assignment brings in no entry but the assigned one. */
  lemma {:induction false} PutEntries(q: Query, k: string, v: QVal)
    ensures forall e :: e in Put(q, k, v) ==> e in q || e == (k, v)
    decreases |q|
  {
    if |q| > 0 && q[0].0 != k {
      PutEntries(q[1..], k, v);
    }
  }

  /** Reading an object built by appending one more entry. */
  lemma {:induction false} GetAppend(q: Query, e: Entry, k: string)
    ensures Get(q + [e], k) == if k in Keys(q) then Get(q, k) else if e.0 == k then e.1 else Undefined
    decreases |q|
  {
    if |q| > 0 {
      assert (q + [e])[1..] == q[1..] + [e];
      assert Keys(q[1..]) == Keys(q)[1..];
      GetAppend(q[1..], e, k);
    }
  }

  /** In an object with unique keys, the last entry decides its own key and no other. */
  lemma GetLast(q: Query, k: string)
    requires UniqueKeys(q) && |q| > 0
    ensures UniqueKeys(q[..|q| - 1])
    ensures Get(q, k) == if q[|q| - 1].0 == k then q[|q| - 1].1 else Get(q[..|q| - 1], k)
    ensures q[|q| - 1].0 == k ==> Get(q[..|q| - 1], k) == Undefined
  {
    var init := q[..|q| - 1];
    var e := q[|q| - 1];
    assert q == init + [e];
    GetAppend(init, e, k);
    if e.0 == k {
      forall i | 0 <= i < |init| ensures Keys(init)[i] != k {
        assert q[i].0 != q[|q| - 1].0;
      }
    }
  }

  /** `delete q[k]`: every other entry stays, in its order. */
  function Delete(q: Query, k: string): (r: Query)
    ensures |r| <= |q|
    ensures forall k' :: k' in Keys(r) <==> k' in Keys(q) && k' != k
    ensures k !in Keys(q) ==> r == q
  {
    if |q| == 0 then []
    else
      assert Keys(q[1..]) == Keys(q)[1..];
      var rest := Delete(q[1..], k);
      if q[0].0 == k then rest
      else
        assert Keys([q[0]] + rest) == [q[0].0] + Keys(rest);
        [q[0]] + rest
  }

  /** After `delete q[k]`, `k` reads as undefined and every other key reads as before. */
  lemma {:induction false} DeleteGet(q: Query, k: string, k': string)
    ensures Get(Delete(q, k), k') == if k' == k then Undefined else Get(q, k')
    decreases |q|
  {
    if |q| > 0 {
      DeleteGet(q[1..], k, k');
    }
  }

  /** Deletion changes no other key. */
  lemma DeleteOthers(q: Query, k: string)
    ensures Get(Delete(q, k), k) == Undefined
    ensures forall k' :: k' != k ==> Get(Delete(q, k), k') == Get(q, k')
  {
    DeleteGet(q, k, k);
    forall k' | k' != k ensures Get(Delete(q, k), k') == Get(q, k') {
      DeleteGet(q, k, k');
    }
  }

  /** Deletion keeps an object's keys unique. */
  lemma {:induction false} DeleteUniqueKeys(q: Query, k: string)
    requires UniqueKeys(q)
    ensures UniqueKeys(Delete(q, k))
    decreases |q|
  {
    if |q| > 0 {
      DeleteUniqueKeys(q[1..], k);
      var rest := Delete(q[1..], k);
      if q[0].0 != k {
        assert q[0].0 !in Keys(q[1..]);
        assert q[0].0 !in Keys(rest);
        assert forall i :: 0 <= i < |rest| ==> rest[i].0 == Keys(rest)[i];
      }
    }
  }

  /** With unique keys, `delete` takes out exactly the entry of that key. */
  lemma {:induction false} DeleteUnique(q: Query, k: string, i: nat)
    requires UniqueKeys(q)
    requires i < |q| && q[i].0 == k
    ensures Delete(q, k) == q[..i] + q[i + 1..]
    decreases |q|
  {
    var tail := q[1..];
    assert UniqueKeys(tail);
    if i == 0 {
      assert k !in Keys(tail) by {
        forall j | 0 <= j < |tail| ensures Keys(tail)[j] != k {
          assert tail[j] == q[j + 1];
        }
      }
      assert Delete(q, k) == Delete(tail, k);
      assert q[..0] + q[1..] == tail;
    } else {
      assert q[0].0 != k;
      assert Delete(q, k) == [q[0]] + Delete(tail, k);
      DeleteUnique(tail, k, i - 1);
      assert tail[..i - 1] == q[1..i] && tail[i..] == q[i + 1..];
      assert q[..i] == [q[0]] + q[1..i];
    }
  }
}
