/** The two WooCommerce filters that make the plugin's order statuses known:
    the ordered slug-to-label list shown in the admin (`wc_order_statuses`)
    and the list of statuses valid for payment. */
module CustomStatuses {
  import opened Wrappers
  import opened OrderedArray
  import opened Slices

  /** An ordered PHP array from status slug to label. */
  type StatusList = seq<(string, string)>

  const Processing := "wc-processing"

  /** The statuses inserted after `wc-processing`, in insertion order. */
  const Inserted: StatusList :=
    [("wc-verified", "Verified"), ("wc-review-required", "Review Required"), ("wc-blocked", "Blocked")]

  predicate IsInsertedKey(k: string)
  {
    k == "wc-verified" || k == "wc-review-required" || k == "wc-blocked"
  }

  /** One pass of the loop body: copy the entry, and after `wc-processing`
      assign the three plugin statuses. */
  function Step(acc: StatusList, key: string, status: string): StatusList
  {
    var copied := Put(acc, key, status);
    if key == Processing then
      Put(Put(Put(copied, "wc-verified", "Verified"), "wc-review-required", "Review Required"), "wc-blocked", "Blocked")
    else
      copied
  }

  /** A step only updates or appends: the keys before it stay a prefix. */
  lemma StepGrows(acc: StatusList, key: string, status: string)
    ensures Keys(acc) <= Keys(Put(acc, key, status)) <= Keys(Step(acc, key, status))
  {
    var copied := Put(acc, key, status);
    PutGrows(acc, key, status);
    if key == Processing {
      var a1 := Put(copied, "wc-verified", "Verified");
      var a2 := Put(a1, "wc-review-required", "Review Required");
      PutGrows(copied, "wc-verified", "Verified");
      PutGrows(a1, "wc-review-required", "Review Required");
      PutGrows(a2, "wc-blocked", "Blocked");
      PrefixTrans(Keys(copied), Keys(a1), Keys(a2));
      PrefixTrans(Keys(copied), Keys(a2), Keys(Put(a2, "wc-blocked", "Blocked")));
    }
  }

  lemma StepKeys(acc: StatusList, key: string, status: string, k: string)
    ensures k in Keys(Step(acc, key, status)) <==> k in Keys(acc) || k == key || (key == Processing && IsInsertedKey(k))
  {
    var copied := Put(acc, key, status);
    PutKeys(acc, key, status, k);
    if key == Processing {
      var a1 := Put(copied, "wc-verified", "Verified");
      var a2 := Put(a1, "wc-review-required", "Review Required");
      PutKeys(copied, "wc-verified", "Verified", k);
      PutKeys(a1, "wc-review-required", "Review Required", k);
      PutKeys(a2, "wc-blocked", "Blocked", k);
    }
  }

  /** A step changes the value of no key other than its own and the plugin's. */
  lemma StepLookup(acc: StatusList, key: string, status: string, k: string)
    requires k != key && !IsInsertedKey(k)
    ensures Lookup(Step(acc, key, status), k) == Lookup(acc, k)
  {
    var copied := Put(acc, key, status);
    PutLookup(acc, key, status, k);
    if key == Processing {
      var a1 := Put(copied, "wc-verified", "Verified");
      var a2 := Put(a1, "wc-review-required", "Review Required");
      PutLookup(copied, "wc-verified", "Verified", k);
      PutLookup(a1, "wc-review-required", "Review Required", k);
      PutLookup(a2, "wc-blocked", "Blocked", k);
    }
  }

  /** A key not yet present, other than `wc-processing`, is appended. */
  lemma StepAppends(acc: StatusList, e: (string, string))
    requires e.0 !in Keys(acc) && e.0 != Processing
    ensures Step(acc, e.0, e.1) == acc + [e]
  {
  }

  /** A new `wc-processing` is appended, followed by the plugin's statuses. */
  lemma StepAtProcessing(acc: StatusList, status: string)
    requires Processing !in Keys(acc)
    requires forall k :: k in Keys(acc) ==> !IsInsertedKey(k)
    ensures Step(acc, Processing, status) == acc + [(Processing, status)] + Inserted
  {
    var a0 := acc + [(Processing, status)];
    var a1 := a0 + [("wc-verified", "Verified")];
    var a2 := a1 + [("wc-review-required", "Review Required")];
    assert Put(acc, Processing, status) == a0;
    assert Put(a0, "wc-verified", "Verified") == a1;
    assert Put(a1, "wc-review-required", "Review Required") == a2;
    assert Put(a2, "wc-blocked", "Blocked") == a2 + [("wc-blocked", "Blocked")];
  }

  /** The list the loop has built after visiting the entries of `s`. */
  function Rebuilt(s: StatusList): StatusList
  {
    if s == [] then [] else Step(Rebuilt(s[..|s| - 1]), s[|s| - 1].0, s[|s| - 1].1)
  }

  /** `add_custom_statuses_to_order`: rebuild the list entry by entry,
      assigning the plugin's statuses right after `wc-processing`. */
  method AddCustomStatusesToOrder(orderStatuses: StatusList) returns (newOrderStatuses: StatusList)
    ensures newOrderStatuses == Rebuilt(orderStatuses)
    ensures UniqueKeys(newOrderStatuses)
  {
    newOrderStatuses := [];
    for i := 0 to |orderStatuses|
      invariant newOrderStatuses == Rebuilt(orderStatuses[..i])
    {
      var (key, status) := orderStatuses[i];
      newOrderStatuses := Put(newOrderStatuses, key, status);
      if key == Processing {
        newOrderStatuses := Put(newOrderStatuses, "wc-verified", "Verified");
        newOrderStatuses := Put(newOrderStatuses, "wc-review-required", "Review Required");
        newOrderStatuses := Put(newOrderStatuses, "wc-blocked", "Blocked");
      }
      TakeTake(orderStatuses, i, i + 1);
    }
    TakeAll(orderStatuses);
    RebuiltUnique(orderStatuses);
  }

  /** The output never repeats a key, whatever the input. */
  lemma {:induction false} RebuiltUnique(s: StatusList)
    ensures UniqueKeys(Rebuilt(s))
  {
    if s != [] {
      RebuiltLast(s);
      RebuiltUnique(s[..|s| - 1]);
      StepUnique(Rebuilt(s[..|s| - 1]), s[|s| - 1].0, s[|s| - 1].1);
    }
  }

  lemma StepUnique(acc: StatusList, key: string, status: string)
    requires UniqueKeys(acc)
    ensures UniqueKeys(Step(acc, key, status))
  {
    var copied := Put(acc, key, status);
    PutUnique(acc, key, status);
    if key == Processing {
      var a1 := Put(copied, "wc-verified", "Verified");
      var a2 := Put(a1, "wc-review-required", "Review Required");
      PutUnique(copied, "wc-verified", "Verified");
      PutUnique(a1, "wc-review-required", "Review Required");
      PutUnique(a2, "wc-blocked", "Blocked");
    }
  }

  /** Splitting off the last entry of a non-empty list. */
  lemma RebuiltLast(s: StatusList)
    requires s != []
    ensures Rebuilt(s) == Step(Rebuilt(s[..|s| - 1]), s[|s| - 1].0, s[|s| - 1].1)
    ensures Keys(s) == Keys(s[..|s| - 1]) + [s[|s| - 1].0]
  {
    KeysLast(s);
  }

  /** The loop's step from `n` entries to `n + 1`. */
  lemma RebuiltNext(s: StatusList, n: nat)
    requires n < |s|
    ensures Rebuilt(s[..n + 1]) == Step(Rebuilt(s[..n]), s[n].0, s[n].1)
  {
    RebuiltLast(s[..n + 1]);
    TakeTake(s, n, n + 1);
  }

  /** A step whose key is new and is not `wc-processing` appends its entry. */
  lemma RebuiltAppendsFresh(s: StatusList, n: nat)
    requires n < |s|
    requires s[n].0 !in Keys(Rebuilt(s[..n])) && s[n].0 != Processing
    ensures Rebuilt(s[..n + 1]) == Rebuilt(s[..n]) + [s[n]]
  {
    RebuiltNext(s, n);
    StepAppends(Rebuilt(s[..n]), s[n]);
  }

  /** The output holds every input key, plus the three plugin statuses
      exactly when `wc-processing` is among the input keys. */
  lemma {:induction false} RebuiltKeys(s: StatusList, k: string)
    ensures k in Keys(Rebuilt(s)) <==> k in Keys(s) || (Processing in Keys(s) && IsInsertedKey(k))
  {
    if s != [] {
      var t := s[..|s| - 1];
      RebuiltLast(s);
      RebuiltKeys(t, k);
      RebuiltKeys(t, Processing);
      StepKeys(Rebuilt(t), s[|s| - 1].0, s[|s| - 1].1, k);
    }
  }

  /** Later steps only update or append: keys already placed keep their place. */
  lemma {:induction false} RebuiltGrows(s: StatusList, m: nat)
    requires m <= |s|
    ensures Keys(Rebuilt(s[..m])) <= Keys(Rebuilt(s))
    decreases |s| - m
  {
    if m < |s| {
      var t := s[..|s| - 1];
      TakeTake(s, m, |s| - 1);
      RebuiltGrows(t, m);
      RebuiltLast(s);
      StepGrows(Rebuilt(t), s[|s| - 1].0, s[|s| - 1].1);
      PrefixTrans(Keys(Rebuilt(t)), Keys(Put(Rebuilt(t), s[|s| - 1].0, s[|s| - 1].1)), Keys(Rebuilt(s)));
      PrefixTrans(Keys(Rebuilt(s[..m])), Keys(Rebuilt(t)), Keys(Rebuilt(s)));
    } else {
      TakeAll(s);
    }
  }

  /** In a list with unique keys, a prefix has unique keys and none of the
      keys that follow it. */
  lemma PrefixUnique(s: StatusList, n: nat)
    requires UniqueKeys(s) && n <= |s|
    ensures UniqueKeys(s[..n])
    ensures forall j :: n <= j < |s| ==> s[j].0 !in Keys(s[..n])
  {
    forall j | n <= j < |s| ensures s[j].0 !in Keys(s[..n]) {
    }
  }

  /** Without `wc-processing` the list comes back unchanged. */
  lemma {:induction false} RebuiltWithoutProcessing(s: StatusList)
    requires UniqueKeys(s)
    requires Processing !in Keys(s)
    ensures Rebuilt(s) == s
  {
    if s != [] {
      var t := s[..|s| - 1];
      RebuiltLast(s);
      PrefixUnique(s, |s| - 1);
      RebuiltWithoutProcessing(t);
      StepAppends(t, s[|s| - 1]);
      SplitLast(s);
    }
  }

  /** The value of every key other than the plugin's three is the input's. */
  lemma {:induction false} RebuiltKeepsValues(s: StatusList, k: string)
    requires UniqueKeys(s)
    requires !IsInsertedKey(k)
    ensures Lookup(Rebuilt(s), k) == Lookup(s, k)
  {
    if s != [] {
      var t := s[..|s| - 1];
      var e := s[|s| - 1];
      RebuiltLast(s);
      PrefixUnique(s, |s| - 1);
      SplitLast(s);
      AppendNew(t, e.0, e.1);
      RebuiltKeepsValues(t, k);
      if k == e.0 {
        PutLookup(Rebuilt(t), e.0, e.1, k);
        if e.0 == Processing {
          var a0 := Put(Rebuilt(t), e.0, e.1);
          var a1 := Put(a0, "wc-verified", "Verified");
          var a2 := Put(a1, "wc-review-required", "Review Required");
          PutLookup(a0, "wc-verified", "Verified", k);
          PutLookup(a1, "wc-review-required", "Review Required", k);
          PutLookup(a2, "wc-blocked", "Blocked", k);
        }
      } else {
        StepLookup(Rebuilt(t), e.0, e.1, k);
      }
    }
  }

  /** A key new to the list lands right after what was built so far. */
  lemma StepPlacesNewKey(acc: StatusList, key: string, status: string)
    requires key !in Keys(acc)
    ensures key in Keys(Step(acc, key, status))
    ensures Position(Step(acc, key, status), key) == |acc|
  {
    PositionAppended(acc, key, status);
    StepGrows(acc, key, status);
    PositionInExtension(acc + [(key, status)], Step(acc, key, status), key);
  }

  /** The entry at position `j`, when its key is not the plugin's, is
      appended: it sits right after everything built before it. */
  lemma RebuiltPlacesNewKey(s: StatusList, j: nat)
    requires UniqueKeys(s)
    requires j < |s| && !IsInsertedKey(s[j].0)
    ensures s[j].0 in Keys(Rebuilt(s))
    ensures Position(Rebuilt(s), s[j].0) == |Rebuilt(s[..j])|
  {
    var b, c := Rebuilt(s[..j]), Rebuilt(s[..j + 1]);
    PrefixUnique(s, j);
    RebuiltKeys(s[..j], s[j].0);
    RebuiltLast(s[..j + 1]);
    TakeTake(s, j, j + 1);
    StepPlacesNewKey(b, s[j].0, s[j].1);
    RebuiltGrows(s, j + 1);
    PositionInExtension(c, Rebuilt(s), s[j].0);
  }

  /** An input key is placed by the time its own step is done. */
  lemma RebuiltPlacesKey(s: StatusList, i: nat)
    requires i < |s|
    ensures s[i].0 in Keys(Rebuilt(s))
    ensures Position(Rebuilt(s), s[i].0) < |Rebuilt(s[..i + 1])|
  {
    var a := Rebuilt(s[..i + 1]);
    RebuiltKeys(s[..i + 1], s[i].0);
    KeysSlice(s, 0, i + 1);
    assert Keys(s)[i] == s[i].0;
    RebuiltGrows(s, i + 1);
    PositionInExtension(a, Rebuilt(s), s[i].0);
  }

  /** Input keys that are not the plugin's own keep their relative order;
      only a plugin key that follows `wc-processing` in the input can move. */
  lemma RebuiltKeepsOrder(s: StatusList, i: nat, j: nat)
    requires UniqueKeys(s)
    requires i < j < |s|
    requires !IsInsertedKey(s[j].0)
    ensures s[i].0 in Keys(Rebuilt(s)) && s[j].0 in Keys(Rebuilt(s))
    ensures Position(Rebuilt(s), s[i].0) < Position(Rebuilt(s), s[j].0)
  {
    RebuiltPlacesKey(s, i);
    RebuiltPlacesNewKey(s, j);
    RebuiltPrefixLength(s, i + 1, j);
  }

  /** A longer prefix of the input never builds a shorter list. */
  lemma RebuiltPrefixLength(s: StatusList, m: nat, n: nat)
    requires m <= n <= |s|
    ensures |Rebuilt(s[..m])| <= |Rebuilt(s[..n])|
  {
    TakeTake(s, m, n);
    RebuiltGrows(s[..n], m);
    KeysPrefixLength(Rebuilt(s[..m]), Rebuilt(s[..n]));
  }

  /** The exception to `RebuiltKeepsOrder`: a plugin key that follows
      `wc-processing` in the input, with another key between them, is moved
      ahead of that key; the plugin's label replaces the input's value. */
  lemma LaterPluginKeyMoves()
    ensures var s := [(Processing, "Processing"), ("wc-on-hold", "On hold"), ("wc-blocked", "Custom")];
      Rebuilt(s) == [(Processing, "Processing")] + Inserted[..2] + [("wc-blocked", "Custom"), ("wc-on-hold", "On hold")]
  {
    var s := [(Processing, "Processing"), ("wc-on-hold", "On hold"), ("wc-blocked", "Custom")];
    var r2 := [(Processing, "Processing")] + Inserted + [("wc-on-hold", "On hold")];
    MovesPrefix();
    RebuiltUnique(s[..2]);
    RebuiltNext(s, 2);
    TakeAll(s);
    StepReplaces(r2, "wc-blocked", "Custom", 3);
    assert r2[3 := ("wc-blocked", "Custom")] == [(Processing, "Processing")] + Inserted[..2] + [("wc-blocked", "Custom"), ("wc-on-hold", "On hold")];
  }

  /** The first two steps of the example above. */
  lemma MovesPrefix()
    ensures var s := [(Processing, "Processing"), ("wc-on-hold", "On hold"), ("wc-blocked", "Custom")];
      Rebuilt(s[..2]) == [(Processing, "Processing")] + Inserted + [("wc-on-hold", "On hold")]
  {
    var s := [(Processing, "Processing"), ("wc-on-hold", "On hold"), ("wc-blocked", "Custom")];
    var r1 := [(Processing, "Processing")] + Inserted;
    assert Rebuilt(s[..1]) == r1 by {
      RebuiltLast(s[..1]);
      assert s[..1][..0] == [];
      StepAtProcessing([], "Processing");
    }
    RebuiltNext(s, 1);
    assert Keys(r1) == [Processing, "wc-verified", "wc-review-required", "wc-blocked"];
    StepAppends(r1, s[1]);
  }

  /** A step for a key already present (other than `wc-processing`)
      rewrites that entry's value where it stands. */
  lemma StepReplaces(acc: StatusList, key: string, status: string, p: nat)
    requires UniqueKeys(acc)
    requires p < |acc| && acc[p].0 == key && key != Processing
    ensures Step(acc, key, status) == acc[p := (key, status)]
  {
    assert Keys(acc)[p] == key;
  }

  /** With `wc-processing` present and none of the plugin's keys in the input,
      the three statuses appear right after `wc-processing`, in order. */
  lemma RebuiltInsertsAfterProcessing(s: StatusList, p: nat)
    requires UniqueKeys(s)
    requires p < |s| && s[p].0 == Processing
    requires forall k :: k in Keys(s) ==> !IsInsertedKey(k)
    ensures Rebuilt(s) == s[..p + 1] + Inserted + s[p + 1..]
  {
    RebuiltAfterProcessing(s, p, |s|);
    TakeAll(s);
  }

  lemma {:induction false} RebuiltAfterProcessing(s: StatusList, p: nat, n: nat)
    requires UniqueKeys(s)
    requires p < n <= |s| && s[p].0 == Processing
    requires forall k :: k in Keys(s) ==> !IsInsertedKey(k)
    ensures Rebuilt(s[..n]) == s[..p + 1] + Inserted + s[p + 1..n]
    decreases n
  {
    if n == p + 1 {
      ProcessingReached(s, p);
    } else {
      RebuiltAfterProcessing(s, p, n - 1);
      ProcessingFollowed(s, p, n);
    }
  }

  /** The step for `wc-processing` itself: everything before it is copied
      unchanged, then it and the three plugin statuses are appended. */
  lemma ProcessingReached(s: StatusList, p: nat)
    requires UniqueKeys(s)
    requires p < |s| && s[p].0 == Processing
    requires forall k :: k in Keys(s) ==> !IsInsertedKey(k)
    ensures Rebuilt(s[..p + 1]) == s[..p + 1] + Inserted + s[p + 1..p + 1]
  {
    var t := s[..p];
    RebuiltLast(s[..p + 1]);
    TakeTake(s, p, p + 1);
    PrefixUnique(s, p);
    KeysSlice(s, 0, p);
    RebuiltWithoutProcessing(t);
    StepAtProcessing(t, s[p].1);
    TakeNext(s, p);
  }

  /** An entry after `wc-processing` has a key not yet in the list built
      so far. */
  lemma FreshAfterProcessing(s: StatusList, p: nat, n: nat)
    requires UniqueKeys(s)
    requires p + 1 < n <= |s| && s[p].0 == Processing
    requires forall k :: k in Keys(s) ==> !IsInsertedKey(k)
    ensures s[n - 1].0 != Processing
    ensures s[n - 1].0 !in Keys(s[..p + 1] + Inserted + s[p + 1..n - 1])
  {
    var e := s[n - 1];
    assert Keys(s)[n - 1] == e.0;
    assert e.0 in Keys(s);
    assert e.0 !in Keys(Inserted) by {
      assert Keys(Inserted) == ["wc-verified", "wc-review-required", "wc-blocked"];
    }
    PrefixUnique(s, n - 1);
    KeysSlice(s, 0, n - 1);
    KeysSlice(s, 0, p + 1);
    KeysSlice(s, p + 1, n - 1);
    KeysConcat(s[..p + 1], Inserted);
    KeysConcat(s[..p + 1] + Inserted, s[p + 1..n - 1]);
    NotInSlice(Keys(s), e.0, 0, p + 1, n - 1);
    NotInSlice(Keys(s), e.0, p + 1, n - 1, n - 1);
  }

  /** A step after `wc-processing`: the entry is new and is appended. */
  lemma ProcessingFollowed(s: StatusList, p: nat, n: nat)
    requires UniqueKeys(s)
    requires p + 1 < n <= |s| && s[p].0 == Processing
    requires forall k :: k in Keys(s) ==> !IsInsertedKey(k)
    requires Rebuilt(s[..n - 1]) == s[..p + 1] + Inserted + s[p + 1..n - 1]
    ensures Rebuilt(s[..n]) == s[..p + 1] + Inserted + s[p + 1..n]
  {
    FreshAfterProcessing(s, p, n);
    RebuiltAppendsFresh(s, n - 1);
    SliceNext(s, p + 1, n - 1);
    AppendLast(Rebuilt(s[..n - 1]), Rebuilt(s[..n]), s[..p + 1], Inserted, s[p + 1..n - 1], s[p + 1..n], s[n - 1]);
  }

  /** Corollary: three entries more, carrying the plugin's labels. */
  lemma RebuiltAddsThree(s: StatusList, p: nat)
    requires UniqueKeys(s)
    requires p < |s| && s[p].0 == Processing
    requires forall k :: k in Keys(s) ==> !IsInsertedKey(k)
    ensures |Rebuilt(s)| == |s| + 3
    ensures Rebuilt(s)[p + 1] == ("wc-verified", "Verified")
    ensures Rebuilt(s)[p + 2] == ("wc-review-required", "Review Required")
    ensures Rebuilt(s)[p + 3] == ("wc-blocked", "Blocked")
  {
    RebuiltInsertsAfterProcessing(s, p);
  }

  /** `add_new_order_statuses`: append the two plugin statuses to the list of
      statuses valid for payment, without looking for duplicates. */
  method AddNewOrderStatuses(statuses: seq<string>) returns (r: seq<string>)
    ensures |r| == |statuses| + 2
    ensures r[..|statuses|] == statuses
    ensures r[|statuses|] == "review-required" && r[|statuses| + 1] == "verified"
    ensures multiset(r) == multiset(statuses) + multiset{"review-required", "verified"}
  {
    r := statuses;
    r := r + ["review-required"];
    r := r + ["verified"];
  }
}
