/**
 * PHP arrays with string keys, as ordered lists of (key, value) entries, and the
 * three operations the formatter uses on them: `array_keys`, `array_merge` and
 * Laravel's `Arr::isAssoc`.
 */
module PhpArray {
  import opened Wrappers

  /** `array_keys`: the keys in insertion order. */
  function Keys<V>(a: seq<(string, V)>): (r: seq<string>)
    ensures |r| == |a|
    ensures forall i :: 0 <= i < |a| ==> r[i] == a[i].0
  {
    if |a| == 0 then [] else [a[0].0] + Keys(a[1..])
  }

  /** `array_values`: the values in insertion order. */
  function Values<V>(a: seq<(string, V)>): (r: seq<V>)
    ensures |r| == |a|
    ensures forall i :: 0 <= i < |a| ==> r[i] == a[i].1
  {
    if |a| == 0 then [] else [a[0].1] + Values(a[1..])
  }

  ghost predicate Distinct(s: seq<string>)
  {
    forall i, j :: 0 <= i < j < |s| ==> s[i] != s[j]
  }

  /** Every PHP array has pairwise distinct keys. */
  ghost predicate DistinctKeys<V>(a: seq<(string, V)>)
  {
    Distinct(Keys(a))
  }

  /** `$a[k]`, or None when `k` is not a key. */
  function Lookup<V>(a: seq<(string, V)>, k: string): (r: Option<V>)
    ensures r.Some? <==> k in Keys(a)
  {
    if |a| == 0 then None
    else if a[0].0 == k then Some(a[0].1)
    else Lookup(a[1..], k)
  }

  /** `$a[k] = v` for a string key: overwrites in place or appends at the end. */
  function Put<V>(a: seq<(string, V)>, k: string, v: V): seq<(string, V)>
  {
    if |a| == 0 then [(k, v)]
    else if a[0].0 == k then [(k, v)] + a[1..]
    else [a[0]] + Put(a[1..], k, v)
  }

  /** `array_merge($a, $b)` for string keys: the entries of `b` laid over `a`, one by one. */
  function Merge<V>(a: seq<(string, V)>, b: seq<(string, V)>): seq<(string, V)>
    decreases |b|
  {
    if |b| == 0 then a else Merge(Put(a, b[0].0, b[0].1), b[1..])
  }

  /** The keys of `ks` that are not in `seen`, in order. */
  function Unseen(ks: seq<string>, seen: seq<string>): seq<string>
  {
    if |ks| == 0 then []
    else if ks[0] in seen then Unseen(ks[1..], seen)
    else [ks[0]] + Unseen(ks[1..], seen)
  }

  /** The canonical decimal text of `n`, which PHP turns back into the integer key `n`. */
  function DecimalDigits(n: nat): (r: string)
    ensures |r| > 0
    ensures forall i :: 0 <= i < |r| ==> '0' <= r[i] <= '9'
  {
    if n < 10 then [('0' as int + n) as char]
    else DecimalDigits(n / 10) + [('0' as int + n % 10) as char]
  }

  /** The keys of a list: 0, 1, ..., n-1 in that order (`array_is_list`). */
  ghost predicate IsListKeys(keys: seq<string>)
  {
    forall i :: 0 <= i < |keys| ==> keys[i] == DecimalDigits(i)
  }

  /** `Arr::isAssoc`: an array is associative when its keys are not 0, 1, ..., n-1. */
  predicate IsAssoc(keys: seq<string>)
  {
    exists i :: 0 <= i < |keys| && keys[i] != DecimalDigits(i)
  }

  /** The empty array is a list, and a key that is not made of digits makes an array associative. */
  lemma IsAssocCharacterised(keys: seq<string>)
    ensures |keys| == 0 ==> !IsAssoc(keys)
    ensures (exists i, j :: 0 <= i < |keys| && 0 <= j < |keys[i]| && !('0' <= keys[i][j] <= '9')) ==> IsAssoc(keys)
  {
    if exists i, j :: 0 <= i < |keys| && 0 <= j < |keys[i]| && !('0' <= keys[i][j] <= '9') {
      var i, j :| 0 <= i < |keys| && 0 <= j < |keys[i]| && !('0' <= keys[i][j] <= '9');
      assert keys[i] != DecimalDigits(i);
    }
  }

  lemma {:induction false} PutKeys<V>(a: seq<(string, V)>, k: string, v: V)
    ensures Keys(Put(a, k, v)) == if k in Keys(a) then Keys(a) else Keys(a) + [k]
  {
    if |a| > 0 {
      assert Keys(a) == [a[0].0] + Keys(a[1..]);
      if a[0].0 != k {
        PutKeys(a[1..], k, v);
        assert Keys(Put(a, k, v)) == [a[0].0] + Keys(Put(a[1..], k, v));
      } else {
        assert Keys(Put(a, k, v)) == [k] + Keys(a[1..]);
      }
    }
  }

  lemma {:induction false} PutLookup<V>(a: seq<(string, V)>, k: string, v: V, k': string)
    ensures Lookup(Put(a, k, v), k') == if k' == k then Some(v) else Lookup(a, k')
  {
    if |a| > 0 && a[0].0 != k {
      PutLookup(a[1..], k, v, k');
      assert Put(a, k, v)[1..] == Put(a[1..], k, v);
    } else if |a| > 0 {
      assert Put(a, k, v)[1..] == a[1..];
    }
  }

  lemma PutDistinct<V>(a: seq<(string, V)>, k: string, v: V)
    requires DistinctKeys(a)
    ensures DistinctKeys(Put(a, k, v))
  {
    PutKeys(a, k, v);
  }

  lemma HeadNotInTail(ks: seq<string>)
    requires |ks| > 0 && Distinct(ks)
    ensures ks[0] !in ks[1..] && Distinct(ks[1..])
  {
    forall i, j | 0 <= i < j < |ks[1..]| ensures ks[1..][i] != ks[1..][j] {
      assert ks[1..][i] == ks[i + 1] && ks[1..][j] == ks[j + 1];
    }
  }

  /** Looking a key up after `array_merge`: the second array wins, the first fills in. */
  lemma {:induction false} MergeLookup<V>(a: seq<(string, V)>, b: seq<(string, V)>, k: string)
    requires DistinctKeys(b)
    ensures Lookup(Merge(a, b), k) == if k in Keys(b) then Lookup(b, k) else Lookup(a, k)
    decreases |b|
  {
    if |b| > 0 {
      assert Keys(b) == [b[0].0] + Keys(b[1..]);
      HeadNotInTail(Keys(b));
      MergeLookup(Put(a, b[0].0, b[0].1), b[1..], k);
      PutLookup(a, b[0].0, b[0].1, k);
    }
  }

  /** The unseen keys are exactly the keys of `ks` missing from `seen`. */
  lemma {:induction false} UnseenMembers(ks: seq<string>, seen: seq<string>, k: string)
    ensures k in Unseen(ks, seen) <==> k in ks && k !in seen
  {
    if |ks| > 0 {
      UnseenMembers(ks[1..], seen, k);
      assert ks == [ks[0]] + ks[1..];
    }
  }

  lemma {:induction false} UnseenExtend(ks: seq<string>, seen: seq<string>, x: string)
    requires x !in ks
    ensures Unseen(ks, seen + [x]) == Unseen(ks, seen)
  {
    if |ks| > 0 {
      assert ks[0] in seen + [x] <==> ks[0] in seen;
      UnseenExtend(ks[1..], seen, x);
    }
  }

  /** The keys after `array_merge`: those of `a` in their order, then the new keys of `b` in theirs. */
  lemma {:induction false} MergeKeys<V>(a: seq<(string, V)>, b: seq<(string, V)>)
    requires DistinctKeys(b)
    ensures Keys(Merge(a, b)) == Keys(a) + Unseen(Keys(b), Keys(a))
    decreases |b|
  {
    if |b| == 0 {
      assert Keys(a) + [] == Keys(a);
    } else {
      var k, v := b[0].0, b[0].1;
      var kb' := Keys(b[1..]);
      assert Keys(b) == [k] + kb';
      HeadNotInTail(Keys(b));
      PutKeys(a, k, v);
      MergeKeys(Put(a, k, v), b[1..]);
      UnseenCons(k, kb', Keys(a));
    }
  }

  /** One key of `ks` taken into the seen keys: what the first step of `array_merge` does to the keys. */
  lemma UnseenCons(k: string, ks: seq<string>, seen: seq<string>)
    requires k !in ks
    ensures var seen' := if k in seen then seen else seen + [k];
      seen' + Unseen(ks, seen') == seen + Unseen([k] + ks, seen)
  {
    assert ([k] + ks)[1..] == ks;
    if k !in seen {
      UnseenExtend(ks, seen, k);
      assert seen + [k] + Unseen(ks, seen) == seen + ([k] + Unseen(ks, seen));
    }
  }

  /** `array_merge` of two PHP arrays is a PHP array. */
  lemma {:induction false} MergeDistinct<V>(a: seq<(string, V)>, b: seq<(string, V)>)
    requires DistinctKeys(a)
    ensures DistinctKeys(Merge(a, b))
    decreases |b|
  {
    if |b| > 0 {
      PutDistinct(a, b[0].0, b[0].1);
      MergeDistinct(Put(a, b[0].0, b[0].1), b[1..]);
    }
  }
}
