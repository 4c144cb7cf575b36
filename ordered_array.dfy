/** A PHP array with keys: an ordered sequence of (key, value) entries.
    A PHP array never holds the same key twice (`UniqueKeys`); assigning
    `$a[$k] = $v` replaces the value of an existing key where it stands and
    appends a new key at the end (`Put`). */
module OrderedArray {
  import opened Wrappers

  /** The keys of `a`, in iteration order. */
  function Keys<V>(a: seq<(string, V)>): seq<string>
  {
    seq(|a|, i requires 0 <= i < |a| => a[i].0)
  }

  ghost predicate UniqueKeys<V>(a: seq<(string, V)>)
  {
    forall i, j :: 0 <= i < j < |a| ==> a[i].0 != a[j].0
  }

  /** The position of key `k` in `a`, if any. */
  function Find<V>(a: seq<(string, V)>, k: string): (r: Option<nat>)
    ensures r.None? <==> k !in Keys(a)
    ensures r.Some? ==> r.value < |a| && a[r.value].0 == k
    ensures r.Some? ==> forall j :: 0 <= j < r.value ==> a[j].0 != k
  {
    if a == [] then None
    else if a[0].0 == k then assert Keys(a)[0] == k; Some(0)
    else
      assert Keys(a) == [a[0].0] + Keys(a[1..]);
      match Find(a[1..], k)
      case None => None
      case Some(i) => Some(i + 1)
  }

  /** The first position holding `k` is the one `Find` reports. */
  lemma FindFirst<V>(a: seq<(string, V)>, k: string, p: nat)
    requires p < |a| && a[p].0 == k
    requires forall j :: 0 <= j < p ==> a[j].0 != k
    ensures Find(a, k) == Some(p)
  {
    assert Keys(a)[p] == k;
  }

  /** `$a[$k]` for a key that may be missing. */
  function Lookup<V>(a: seq<(string, V)>, k: string): (r: Option<V>)
  {
    match Find(a, k)
    case None => None
    case Some(i) => Some(a[i].1)
  }

  /** The position of a key that is present. */
  function Position<V>(a: seq<(string, V)>, k: string): (p: nat)
    requires k in Keys(a)
    ensures p < |a| && a[p].0 == k
  {
    Find(a, k).value
  }

  /** The keyed assignment `$a[$k] = $v`: a present key keeps its place and
      takes the new value, a new key goes to the end. (A PHP array holds each
      key once, so the entry rewritten is the one entry with key `k`.) */
  function Put<V>(a: seq<(string, V)>, k: string, v: V): (r: seq<(string, V)>)
    ensures k !in Keys(a) ==> r == a + [(k, v)] && Keys(r) == Keys(a) + [k]
    ensures k in Keys(a) ==> Keys(r) == Keys(a)
  {
    if k in Keys(a) then
      var r := seq(|a|, i requires 0 <= i < |a| => if a[i].0 == k then (k, v) else a[i]);
      assert Keys(r) == Keys(a);
      r
    else
      assert Keys(a + [(k, v)]) == Keys(a) + [k];
      a + [(k, v)]
  }

  lemma PutKeys<V>(a: seq<(string, V)>, k: string, v: V, k': string)
    ensures k' in Keys(Put(a, k, v)) <==> k' in Keys(a) || k' == k
  {
  }

  /** Keys already present keep their positions. */
  lemma PutGrows<V>(a: seq<(string, V)>, k: string, v: V)
    ensures Keys(a) <= Keys(Put(a, k, v))
  {
  }

  /** Assignment never introduces a second entry for a key. */
  lemma PutUnique<V>(a: seq<(string, V)>, k: string, v: V)
    requires UniqueKeys(a)
    ensures UniqueKeys(Put(a, k, v))
  {
    if k in Keys(a) {
      var r := Put(a, k, v);
      forall i | 0 <= i < |r| ensures r[i].0 == a[i].0 {
        assert Keys(r)[i] == Keys(a)[i];
      }
    } else {
      AppendNew(a, k, v);
    }
  }

  /** Two arrays with the same keys in the same order find every key at the
      same position. */
  lemma FindByKeys<V>(a: seq<(string, V)>, b: seq<(string, V)>, k: string)
    requires Keys(a) == Keys(b)
    ensures Find(a, k) == Find(b, k)
  {
    match Find(a, k)
    case None =>
    case Some(j) =>
      forall i | 0 <= i < j ensures b[i].0 != k {
        assert Keys(a)[i] == Keys(b)[i];
      }
      assert Keys(b)[j] == k;
      FindFirst(b, k, j);
  }

  /** After `$a[$k] = $v`, `$a[$k]` is `$v` and every other key reads as before. */
  lemma PutLookup<V>(a: seq<(string, V)>, k: string, v: V, k': string)
    ensures Lookup(Put(a, k, v), k') == if k' == k then Some(v) else Lookup(a, k')
  {
    if k in Keys(a) {
      FindByKeys(a, Put(a, k, v), k');
    } else {
      AppendNew(a, k, v);
    }
  }

  /** Appending a new key leaves the lookup of every other key alone. */
  lemma AppendNew<V>(a: seq<(string, V)>, k: string, v: V)
    requires k !in Keys(a)
    ensures Keys(a + [(k, v)]) == Keys(a) + [k]
    ensures Lookup(a + [(k, v)], k) == Some(v)
    ensures forall k' :: k' != k ==> Lookup(a + [(k, v)], k') == Lookup(a, k')
    ensures UniqueKeys(a) ==> UniqueKeys(a + [(k, v)])
  {
    var r := a + [(k, v)];
    assert Keys(r) == Keys(a) + [k];
    forall i | 0 <= i < |a| ensures a[i].0 != k {
      assert Keys(a)[i] == a[i].0;
    }
    FindFirst(r, k, |a|);
    forall k' | k' != k ensures Lookup(r, k') == Lookup(a, k') {
      match Find(a, k')
      case None =>
      case Some(j) =>
        FindFirst(r, k', j);
    }
  }

  /** An array whose keys begin another's is no longer than it. */
  lemma KeysPrefixLength<V>(a: seq<(string, V)>, b: seq<(string, V)>)
    requires Keys(a) <= Keys(b)
    ensures |a| <= |b|
  {
    assert |Keys(a)| == |a| && |Keys(b)| == |b|;
  }

  lemma KeysConcat<V>(a: seq<(string, V)>, b: seq<(string, V)>)
    ensures Keys(a + b) == Keys(a) + Keys(b)
  {
  }

  lemma KeysLast<V>(a: seq<(string, V)>)
    requires a != []
    ensures Keys(a) == Keys(a[..|a| - 1]) + [a[|a| - 1].0]
  {
  }

  lemma KeysSlice<V>(a: seq<(string, V)>, lo: nat, hi: nat)
    requires lo <= hi <= |a|
    ensures Keys(a[lo..hi]) == Keys(a)[lo..hi]
  {
  }

  /** A key appended to an array that lacked it sits at the old length. */
  lemma PositionAppended<V>(a: seq<(string, V)>, k: string, v: V)
    requires k !in Keys(a)
    ensures k in Keys(a + [(k, v)]) && Position(a + [(k, v)], k) == |a|
  {
    AppendNew(a, k, v);
    forall i | 0 <= i < |a| ensures (a + [(k, v)])[i].0 != k {
      assert Keys(a)[i] == a[i].0;
    }
    FindFirst(a + [(k, v)], k, |a|);
  }

  /** A key keeps its position when entries are only added after it. */
  lemma PositionInExtension<V>(a: seq<(string, V)>, b: seq<(string, V)>, k: string)
    requires Keys(a) <= Keys(b)
    requires k in Keys(a)
    ensures k in Keys(b) && Position(b, k) == Position(a, k)
  {
    var p := Position(a, k);
    assert Keys(b)[p] == k;
    forall j | 0 <= j < p ensures b[j].0 != k {
      assert Keys(a)[j] == Keys(b)[j];
    }
    FindFirst(b, k, p);
  }
}
