/**
The daemon's record of handled archives: a bounded list of keys, most recently used last,
read at the start of every poll and written after every archive that was handled and moved
away.
*/
module ArchiveRecord {
  import opened Wrappers

  type Key = string

  const LIMIT := 2048

  function Without(s: seq<Key>, k: Key): seq<Key> {
    if s == [] then [] else (if s[0] == k then [] else [s[0]]) + Without(s[1..], k)
  }

  /** Each key once, at the place of its last use. */
  function Recent(uses: seq<Key>): seq<Key> {
    if uses == [] then []
    else
      var last := uses[|uses| - 1];
      Without(Recent(uses[..|uses| - 1]), last) + [last]
  }

  function LastOf(s: seq<Key>, n: nat): seq<Key> {
    if |s| <= n then s else s[|s| - n..]
  }

  /** The last LIMIT keys, in the order of their last use. */
  function Bounded(uses: seq<Key>): seq<Key> {
    LastOf(Recent(uses), LIMIT)
  }

  // ---- Removing one key ------------------------------------------------------------------------

  lemma {:induction false} WithoutAppends(s: seq<Key>, t: seq<Key>, k: Key)
    ensures Without(s + t, k) == Without(s, k) + Without(t, k)
    decreases |s|
  {
    if s == [] {
      assert s + t == t;
    } else {
      assert (s + t)[1..] == s[1..] + t;
      WithoutAppends(s[1..], t, k);
    }
  }

  lemma {:induction false} WithoutLacks(s: seq<Key>, k: Key)
    ensures k !in Without(s, k) && (forall x :: x in Without(s, k) <==> x in s && x != k)
    ensures k !in s ==> Without(s, k) == s
    ensures Distinct(s) ==> Distinct(Without(s, k))
    ensures Distinct(s) && k in s ==> |Without(s, k)| == |s| - 1
    decreases |s|
  {
    if s != [] {
      WithoutLacks(s[1..], k);
      assert s == [s[0]] + s[1..];
      if Distinct(s) {
        assert Distinct(s[1..]) && s[0] !in s[1..];
        DistinctFront(s[0], Without(s[1..], k));
      }
    }
  }

  lemma DistinctFront(x: Key, s: seq<Key>)
    ensures Distinct(s) && x !in s ==> Distinct([x] + s)
  {
    var t := [x] + s;
    assert forall j :: 0 < j < |t| ==> t[j] == s[j - 1];
  }

  lemma DistinctBack(s: seq<Key>, x: Key)
    requires Distinct(s) && x !in s
    ensures Distinct(s + [x])
  {
  }

  lemma WithoutTwice(s: seq<Key>, a: Key, b: Key)
    ensures Without(Without(s, a), b) == Without(Without(s, b), a)
    decreases |s|
  {
    if s != [] {
      WithoutTwice(s[1..], a, b);
      WithoutAppends(if s[0] == a then [] else [s[0]], Without(s[1..], a), b);
      WithoutAppends(if s[0] == b then [] else [s[0]], Without(s[1..], b), a);
      assert [s[0]][1..] == [];
    }
  }

  /** The place of the key in a list of distinct keys. */
  method Place(s: seq<Key>, k: Key) returns (i: nat)
    requires k in s
    ensures i < |s| && s[i] == k && k !in s[..i]
  {
    i := 0;
    while s[i] != k
      invariant i < |s| && k !in s[..i] && k in s[i..]
      decreases |s| - i
    {
      assert s[i..] == [s[i]] + s[i + 1..];
      assert s[..i + 1] == s[..i] + [s[i]];
      i := i + 1;
    }
  }

  lemma WithoutMiddle(a: seq<Key>, x: Key, b: seq<Key>)
    requires x !in a && x !in b
    ensures Without(a + ([x] + b), x) == a + b
  {
    WithoutAppends(a, [x] + b, x);
    WithoutFirst(x, b);
    WithoutLacks(a, x);
    WithoutLacks(b, x);
    hide *;
  }

  lemma WithoutFirst(x: Key, b: seq<Key>)
    ensures Without([x] + b, x) == Without(b, x)
  {
    var s := [x] + b;
    assert s[0] == x && s[1..] == b;
  }

  lemma WithoutAt(s: seq<Key>, i: nat)
    requires Distinct(s) && i < |s|
    ensures s[..i] + s[i + 1..] == Without(s, s[i])
  {
    hide *;
    AroundOne(s, i);
    WithoutMiddle(s[..i], s[i], s[i + 1..]);
  }

  lemma AroundOne(s: seq<Key>, i: nat)
    requires i < |s|
    ensures s == s[..i] + ([s[i]] + s[i + 1..])
    ensures Distinct(s) ==> s[i] !in s[..i] && s[i] !in s[i + 1..] && Distinct(s[..i])
  {
  }

  lemma {:induction false} RecentIsDistinct(uses: seq<Key>)
    ensures Distinct(Recent(uses)) && forall x :: x in Recent(uses) <==> x in uses
  {
    if uses != [] {
      var n := |uses| - 1;
      RecentIsDistinct(uses[..n]);
      WithoutLacks(Recent(uses[..n]), uses[n]);
      DistinctBack(Without(Recent(uses[..n]), uses[n]), uses[n]);
      assert uses == uses[..n] + [uses[n]];
    }
  }

  /** The loop of load_processed_set and save_processed_set. */
  method Ordered(items: seq<Key>) returns (ordered: seq<Key>)
    ensures ordered == Recent(items)
  {
    ordered := [];
    var seen: set<Key> := {};
    for i := 0 to |items|
      invariant ordered == Recent(items[..i])
      invariant forall x :: x in seen <==> x in ordered
    {
      var key := items[i];
      assert items[..i + 1][..i] == items[..i];
      RecentIsDistinct(items[..i]);
      WithoutLacks(ordered, key);
      if key in seen {
        var at := Place(ordered, key);
        WithoutAt(ordered, at);
        ordered := ordered[..at] + ordered[at + 1..];
      } else {
        seen := seen + {key};
      }
      ordered := ordered + [key];
    }
    assert items[..|items|] == items;
  }

  // ---- A bounded record forgets nothing it should keep -----------------------------------------------

  function WithoutAll(s: seq<Key>, ks: seq<Key>): seq<Key> {
    if ks == [] then s else Without(WithoutAll(s, ks[..|ks| - 1]), ks[|ks| - 1])
  }

  /** Using the keys `b` after the keys `a`. */
  lemma {:induction false} RecentAppends(a: seq<Key>, b: seq<Key>)
    ensures Recent(a + b) == WithoutAll(Recent(a), b) + Recent(b)
    decreases |b|
  {
    if b == [] {
      assert a + b == a && WithoutAll(Recent(a), b) + [] == Recent(a);
    } else {
      var n := |b| - 1;
      assert (a + b)[..|a + b| - 1] == a + b[..n] && (a + b)[|a + b| - 1] == b[n];
      RecentAppends(a, b[..n]);
      WithoutAppends(WithoutAll(Recent(a), b[..n]), Recent(b[..n]), b[n]);
      Associative(WithoutAll(Recent(a), b), Without(Recent(b[..n]), b[n]), [b[n]]);
    }
  }

  lemma Associative(a: seq<Key>, b: seq<Key>, c: seq<Key>)
    ensures a + b + c == a + (b + c)
  {
  }

  lemma {:induction false} WithoutAllAppends(s: seq<Key>, t: seq<Key>, ks: seq<Key>)
    ensures WithoutAll(s + t, ks) == WithoutAll(s, ks) + WithoutAll(t, ks)
    decreases |ks|
  {
    if ks != [] {
      var n := |ks| - 1;
      WithoutAllAppends(s, t, ks[..n]);
      WithoutAppends(WithoutAll(s, ks[..n]), WithoutAll(t, ks[..n]), ks[n]);
    }
  }

  lemma {:induction false} WithoutAllLacks(s: seq<Key>, ks: seq<Key>)
    requires Distinct(s)
    ensures Distinct(WithoutAll(s, ks)) && forall x :: x in WithoutAll(s, ks) <==> x in s && x !in ks
    decreases |ks|
  {
    if ks != [] {
      var n := |ks| - 1;
      WithoutAllLacks(s, ks[..n]);
      WithoutLacks(WithoutAll(s, ks[..n]), ks[n]);
      AroundOne(ks, n);
      hide Distinct;
      assert ks[n + 1..] == [];
    }
  }

  /** Removing keys takes away no more than there are different keys to remove. */
  lemma {:induction false} WithoutAllKeeps(s: seq<Key>, ks: seq<Key>)
    requires Distinct(s)
    ensures |WithoutAll(s, ks)| + |Recent(ks)| >= |s|
    decreases |ks|
  {
    if ks != [] {
      var n := |ks| - 1;
      var k, before := ks[n], WithoutAll(s, ks[..n]);
      WithoutAllLacks(s, ks[..n]);
      WithoutAllKeeps(s, ks[..n]);
      RecentIsDistinct(ks[..n]);
      hide Distinct;
      WithoutLacks(before, k);
      WithoutLacks(Recent(ks[..n]), k);
      if k in before {
        assert k !in ks[..n];
      } else {
        WithoutShrinksByOne(Recent(ks[..n]), k);
      }
    }
  }

  lemma {:induction false} WithoutShrinksByOne(s: seq<Key>, k: Key)
    requires Distinct(s)
    ensures |Without(s, k)| >= |s| - 1
  {
    WithoutLacks(s, k);
  }

  /** Recording in steps, cutting the list to the limit each time, gives what recording the
      whole history and cutting once would give. */
  lemma BoundedIsExact(a: seq<Key>, b: seq<Key>)
    ensures Bounded(Bounded(a) + b) == Bounded(a + b)
  {
    hide *;
    var r, kept := Recent(a), Bounded(a);
    RecentIsDistinct(a);
    BoundedIsTail(a);
    RecentAppends(a, b);
    RecentAppends(kept, b);
    RecentOfDistinct(kept);
    var n := |r| - |kept|;
    assert r == r[..n] + kept;
    WithoutAllAppends(r[..n], kept, b);
    WithoutAllKeeps(kept, b);
    var dropped, stay, new_ := WithoutAll(r[..n], b), WithoutAll(kept, b), Recent(b);
    if n == 0 {
      NothingWithout(b);
      assert r[..n] == [];
      assert dropped + stay == stay;
    }
    TailIsTheSame(dropped, stay + new_);
    Associative(dropped, stay, new_);
    BoundedIs(a + b);
    BoundedIs(kept + b);
  }

  lemma BoundedIs(uses: seq<Key>)
    ensures Bounded(uses) == LastOf(Recent(uses), LIMIT)
  {
  }

  lemma {:induction false} NothingWithout(ks: seq<Key>)
    ensures WithoutAll([], ks) == []
    decreases |ks|
  {
    if ks != [] { NothingWithout(ks[..|ks| - 1]); }
  }

  lemma BoundedIsTail(a: seq<Key>)
    ensures |Bounded(a)| <= LIMIT && |Bounded(a)| <= |Recent(a)|
    ensures Bounded(a) == Recent(a)[|Recent(a)| - |Bounded(a)|..]
    ensures |Bounded(a)| < |Recent(a)| ==> |Bounded(a)| == LIMIT
    ensures Distinct(Bounded(a))
  {
    RecentIsDistinct(a);
    hide Recent;
  }

  lemma TailIsTheSame(dropped: seq<Key>, rest: seq<Key>)
    requires dropped == [] || |rest| >= LIMIT
    ensures LastOf(dropped + rest, LIMIT) == LastOf(rest, LIMIT)
  {
    var whole := dropped + rest;
    if dropped == [] {
      assert whole == rest;
    } else {
      assert whole[|whole| - LIMIT..] == rest[|rest| - LIMIT..];
    }
  }

  lemma {:induction false} RecentOfDistinct(s: seq<Key>)
    requires Distinct(s)
    ensures Recent(s) == s
  {
    if s != [] {
      var n := |s| - 1;
      AroundOne(s, n);
      RecentOfDistinct(s[..n]);
      WithoutLacks(s[..n], s[n]);
      hide Distinct, Without;
      assert s == s[..n] + [s[n]];
    }
  }

  lemma UsedAgain(s: seq<Key>, key: Key, after: seq<Key>)
    requires key !in after
    ensures WithoutAll(s + [key], after) == WithoutAll(s, after) + [key]
    decreases |after|
  {
    if after == [] {
    } else {
      var n := |after| - 1;
      AroundOne(after, n);
      UsedAgain(s, key, after[..n]);
      WithoutAppends(WithoutAll(s, after[..n]), [key], after[n]);
      assert [key][1..] == [];
    }
  }

  /** A key last used before `after` is kept exactly while fewer than 2048 different keys
      have been used since. */
  lemma KeptIffRecent(before: seq<Key>, key: Key, after: seq<Key>)
    requires key !in after
    ensures key in Bounded(before + [key] + after) <==> |Recent(after)| < 2048
  {
    assert LIMIT == 2048;
    hide *;
    var others, r := WithoutAll(Without(Recent(before), key), after), Recent(after);
    UsedLast(before, key);
    RecentAppends(before + [key], after);
    UsedAgain(Without(Recent(before), key), key, after);
    RecentIsDistinct(after);
    BoundedIs(before + [key] + after);
    KeyInTail(others, key, r);
  }

  lemma UsedLast(before: seq<Key>, key: Key)
    ensures Recent(before + [key]) == Without(Recent(before), key) + [key]
  {
    assert (before + [key])[..|before|] == before;
  }

  lemma KeyInTail(others: seq<Key>, key: Key, r: seq<Key>)
    requires key !in r
    ensures key in LastOf(others + [key] + r, LIMIT) <==> |r| < LIMIT
  {
    var whole := others + [key] + r;
    if |r| < LIMIT {
      if |whole| > LIMIT {
        var tail := whole[|whole| - LIMIT..];
        assert tail[|tail| - |r| - 1] == key;
      } else {
        assert whole[|others|] == key;
      }
    } else {
      assert whole[|whole| - LIMIT..] == r[|r| - LIMIT..];
    }
  }

  /** A key is kept while fewer than LIMIT different keys are used after it, itself included. */
  lemma {:induction false} KeptWhileRecent(before: seq<Key>, key: Key, after: seq<Key>)
    requires |Recent(after)| < LIMIT
    ensures key in Bounded(before + [key] + after)
    decreases |after|
  {
    if key in after {
      hide Bounded;
      var i :| 0 <= i < |after| && after[i] == key;
      assert before + [key] + after == before + [key] + after[..i] + [key] + after[i + 1..];
      FewerRecent(after[..i + 1], after[i + 1..]);
      assert after == after[..i + 1] + after[i + 1..];
      KeptWhileRecent(before + [key] + after[..i], key, after[i + 1..]);
    } else {
      KeptIffRecent(before, key, after);
    }
  }

  lemma FewerRecent(a: seq<Key>, b: seq<Key>)
    ensures |Recent(b)| <= |Recent(a + b)|
  {
    RecentAppends(a, b);
  }

  /** What was saved is loaded as it is. */
  lemma SavedIsLoaded(items: seq<Key>)
    ensures Recent(Bounded(items)) == Bounded(items) && |Bounded(items)| <= LIMIT
  {
    BoundedIsTail(items);
    hide Bounded, Recent;
    RecentOfDistinct(Bounded(items));
  }
}
