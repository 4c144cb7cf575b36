/** Identities between slices of a sequence, proved where no recursive
    function over prefixes is in scope (they are costly to rediscover there). */
module Slices {
  lemma SplitLast<T>(s: seq<T>)
    requires s != []
    ensures s[..|s| - 1] + [s[|s| - 1]] == s
  {
  }

  lemma TakeAll<T>(s: seq<T>)
    ensures s[..|s|] == s
  {
  }

  lemma TakeTake<T>(s: seq<T>, m: nat, n: nat)
    requires m <= n <= |s|
    ensures s[..n][..m] == s[..m]
  {
  }

  lemma TakeNext<T>(s: seq<T>, n: nat)
    requires n < |s|
    ensures s[..n + 1] == s[..n] + [s[n]]
  {
  }

  lemma SliceNext<T>(s: seq<T>, lo: nat, n: nat)
    requires lo <= n < |s|
    ensures s[lo..n] + [s[n]] == s[lo..n + 1]
  {
  }

  lemma NotInSlice<T>(s: seq<T>, x: T, lo: nat, hi: nat, n: nat)
    requires lo <= hi <= n <= |s|
    requires x !in s[..n]
    ensures x !in s[lo..hi]
  {
  }

  lemma PrefixTrans<T>(a: seq<T>, b: seq<T>, c: seq<T>)
    requires a <= b && b <= c
    ensures a <= c
  {
  }

  /** Appending `x` to a list of three parts extends its last part. */
  lemma AppendLast<T>(prev: seq<T>, next: seq<T>, a: seq<T>, b: seq<T>, c: seq<T>, d: seq<T>, x: T)
    requires prev == a + b + c && next == prev + [x] && d == c + [x]
    ensures next == a + b + d
  {
  }
}
