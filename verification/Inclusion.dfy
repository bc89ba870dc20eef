/** The LRU inclusion theorem: what one more slot can and cannot change. */
module Inclusion {
  import opened Recency
  import opened LruCache
  import opened Runs

  /** The keys held, in recency order, after a sequence of calls on an empty cache of size `n`. */
  function Run(n: nat, accesses: seq<Access>): seq<Key> {
    if accesses == [] then []
    else Serve(n, Run(n, accesses[..|accesses| - 1]), accesses[|accesses| - 1])
  }

  /** How often the sequence reaches the loader. */
  function LoaderCalls(n: nat, accesses: seq<Access>): nat {
    if accesses == [] then 0
    else
      var front, last := accesses[..|accesses| - 1], accesses[|accesses| - 1];
      LoaderCalls(n, front) + if CallsLoader(Run(n, front), last) then 1 else 0
  }

  /** `large` is `small` with one more key inserted somewhere, or they are equal. */
  ghost predicate OneExtra(n: nat, small: seq<Key>, large: seq<Key>) {
    && Distinct(small) && Distinct(large) && |small| <= n
    && (small == large || (|small| == n && exists x :: x in large && Remove(large, x) == small))
  }

  lemma RemoveCommutes(s: seq<Key>, x: Key, y: Key)
    ensures Remove(Remove(s, x), y) == Remove(Remove(s, y), x)
  { }

  lemma {:induction false} RemoveLast(s: seq<Key>, x: Key)
    requires s != [] && Distinct(s) && x in s && s[|s| - 1] != x
    ensures Remove(s, x) == Remove(s[..|s| - 1], x) + [s[|s| - 1]]
  {
    var front, last := s[..|s| - 1], s[|s| - 1];
    assert s == front + [last];
    RemoveConcat(front, [last], x);
  }

  /** A list and its first `n` entries differ by at most the last key. */
  lemma TakeIsOneExtra(n: nat, s: seq<Key>)
    requires Distinct(s) && |s| <= n + 1
    ensures OneExtra(n, Take(n, s), s)
  {
    if |s| == n + 1 {
      var front, last := s[..n], s[n];
      assert s == front + [last];
      DropLast(s);
      RemoveConcat(front, [last], last);
      RemoveSpec(front, last);
    }
  }

  /** A load on a full cache when the oldest key is common to both sizes. */
  lemma InstallKeepsExtra(n: nat, small: seq<Key>, large: seq<Key>, x: Key, k: Key)
    requires Distinct(small) && Distinct(large) && |small| == n >= 1 && |large| == n + 1
    requires x in large && Remove(large, x) == small && k !in large && k !in small && large[n] != x
    ensures OneExtra(n, [k] + small[..n - 1], [k] + large[..n])
  {
    RemoveLast(large, x);
    DropLast(large);
    DropLast(small);
    var front := large[..n];
    assert Remove(front, x) == small[..n - 1];
    DistinctGrows(k, front);
    DistinctGrows(k, small[..n - 1]);
    RemoveConcat([k], front, x);
    assert x in [k] + front && Remove([k] + front, x) == [k] + small[..n - 1];
  }

  lemma TakeCons(n: nat, k: Key, s: seq<Key>)
    requires 1 <= n <= |s| + 1
    ensures Take(n, [k] + s) == [k] + s[..n - 1]
  { }

  lemma TakeAll(n: nat, s: seq<Key>)
    requires n >= |s|
    ensures Take(n, s) == s
  { }

  lemma RemoveOldest(s: seq<Key>)
    requires s != [] && Distinct(s)
    ensures Remove(s, s[|s| - 1]) == s[..|s| - 1]
  {
    var front, last := s[..|s| - 1], s[|s| - 1];
    assert s == front + [last];
    DropLast(s);
    RemoveConcat(front, [last], last);
    RemoveSpec(front, last);
    assert Remove([last], last) == [];
  }

  lemma InstallBoth(n: nat, small: seq<Key>, large: seq<Key>, x: Key, k: Key)
    requires n >= 1 && Distinct(small) && Distinct(large) && |small| == n
    requires x in large && Remove(large, x) == small && k !in large
    ensures OneExtra(n, Take(n, [k] + small), Take(n + 1, [k] + large))
  {
    RemoveSpec(large, x);
    TakeCons(n, k, small);
    TakeCons(n + 1, k, large);
    hide Distinct, Remove, Take, OneExtra;
    if large[n] == x {
      RemoveOldest(large);
      DistinctGrows(k, small);
      TakeIsOneExtra(n, [k] + small);
      TakeAll(n + 1, [k] + small);
    } else {
      InstallKeepsExtra(n, small, large, x, k);
    }
  }

  /** A hit in both caches. */
  lemma HitBoth(n: nat, small: seq<Key>, large: seq<Key>, x: Key, k: Key)
    requires Distinct(small) && Distinct(large) && |small| == n
    requires x in large && Remove(large, x) == small && k in small
    ensures OneExtra(n, [k] + Remove(small, k), [k] + Remove(large, k))
  {
    RemoveSpec(large, x);
    RemoveSpec(small, k);
    RemoveSpec(large, k);
    RemoveCommutes(large, x, k);
    DistinctGrows(k, Remove(small, k));
    DistinctGrows(k, Remove(large, k));
    RemoveConcat([k], Remove(large, k), x);
    assert x in [k] + Remove(large, k);
  }

  /** A call for the key only the larger cache holds. */
  lemma ExtraKeyCalled(n: nat, small: seq<Key>, x: Key, loads: bool)
    requires Distinct(small) && |small| == n && x !in small
    ensures OneExtra(n, if loads then Take(n, [x] + small) else small, [x] + small)
  {
    DistinctGrows(x, small);
    if loads {
      TakeIsOneExtra(n, [x] + small);
    } else {
      RemoveConcat([x], small, x);
      RemoveSpec(small, x);
      assert x in [x] + small;
    }
  }

  lemma ServeEqual(n: nat, order: seq<Key>, a: Access)
    requires n >= 1 && Distinct(order) && |order| <= n
    ensures OneExtra(n, Serve(n, order, a), Serve(n + 1, order, a))
  {
    var k := a.key;
    if k in order {
      RemoveSpec(order, k);
      DistinctGrows(k, Remove(order, k));
      assert Serve(n, order, a) == Serve(n + 1, order, a);
    } else if a.valid && a.loads {
      DistinctGrows(k, order);
      TakeIsOneExtra(n, [k] + order);
      assert Take(n + 1, [k] + order) == [k] + order;
    }
  }

  lemma ServeExtra(n: nat, small: seq<Key>, large: seq<Key>, x: Key, a: Access)
    requires n >= 1 && Distinct(small) && Distinct(large) && |small| == n
    requires x in large && Remove(large, x) == small
    ensures OneExtra(n, Serve(n, small, a), Serve(n + 1, large, a))
    ensures a.key in small ==> a.key in large
  {
    RemoveSpec(large, x);
    if a.key in small {
      HitBoth(n, small, large, x, a.key);
    } else if a.key == x {
      ExtraKeyCalled(n, small, x, a.valid && a.loads);
    } else if a.valid && a.loads {
      InstallBoth(n, small, large, x, a.key);
    }
  }

  lemma ServeKeepsOneExtra(n: nat, small: seq<Key>, large: seq<Key>, a: Access)
    requires n >= 1 && OneExtra(n, small, large)
    ensures OneExtra(n, Serve(n, small, a), Serve(n + 1, large, a))
    ensures CallsLoader(large, a) ==> CallsLoader(small, a)
  {
    if small == large {
      ServeEqual(n, small, a);
    } else {
      var x :| x in large && Remove(large, x) == small;
      ServeExtra(n, small, large, x, a);
    }
  }

  /** Inclusion for arbitrary runs, failing validators and loaders included: with one more
      slot the cache holds the same keys in the same order and at most one more, and the
      loader is never called more often. */
  lemma {:induction false} LargerCacheIncludesSmaller(n: nat, accesses: seq<Access>)
    requires n >= 1
    ensures OneExtra(n, Run(n, accesses), Run(n + 1, accesses))
    ensures LoaderCalls(n + 1, accesses) <= LoaderCalls(n, accesses)
  {
    if accesses != [] {
      var front, last := accesses[..|accesses| - 1], accesses[|accesses| - 1];
      LargerCacheIncludesSmaller(n, front);
      ServeKeepsOneExtra(n, Run(n, front), Run(n + 1, front), last);
    }
  }

  /** A failing load of a key that only the larger cache holds. */
  predicate FailsForExtra(small: seq<Key>, large: seq<Key>, a: Access) {
    a.key in large && a.key !in small && !(a.valid && a.loads)
  }

  /** The step condition for the stronger prefix form: it survives a call exactly when the
      call is not a failing load of the one key only the larger cache holds. */
  lemma PrefixSurvivesIff(n: nat, small: seq<Key>, large: seq<Key>, a: Access)
    requires n >= 1 && Distinct(large) && |large| <= n + 1 && small == Take(n, large)
    ensures Serve(n, small, a) == Take(n, Serve(n + 1, large, a)) <==> !FailsForExtra(small, large, a)
  {
    var k := a.key;
    if k in small {
      TakeTouchHit(n, large, k);
    } else {
      RemoveSpec(large, k);
      TakeTouchMiss(n, large, k);
      if k in large && !(a.valid && a.loads) {
        var after := Take(n, [k] + Remove(large, k));
        assert after[0] == k;
      }
    }
  }

  /** With size `n` the keys held are, in recency order, the first ones held with `n + 1`. */
  predicate PrefixHolds(n: nat, accesses: seq<Access>) {
    Run(n, accesses) == Take(n, Run(n + 1, accesses))
  }

  lemma RunStep(n: nat, accesses: seq<Access>, a: Access)
    ensures Run(n, accesses + [a]) == Serve(n, Run(n, accesses), a)
  {
    assert (accesses + [a])[..|accesses|] == accesses;
  }

  lemma RunBound(n: nat, accesses: seq<Access>)
    requires n >= 1
    ensures Distinct(Run(n, accesses)) && |Run(n, accesses)| <= n
  {
    LargerCacheIncludesSmaller(n, accesses);
  }

  lemma NothingRun(n: nat)
    ensures PrefixHolds(n, [])
  { }

  /** LRU inclusion with its exact condition: the prefix form holds throughout a run exactly
      when no call in it is a failing load of a key that only the larger cache holds. */
  lemma InclusionTheorem(n: nat, accesses: seq<Access>)
    requires n >= 1
    ensures (forall i | 0 <= i <= |accesses| :: PrefixHolds(n, accesses[..i]))
            <==> forall i | 0 <= i < |accesses| ::
                   !FailsForExtra(Run(n, accesses[..i]), Run(n + 1, accesses[..i]), accesses[i])
  {
    hide Run, Serve, Take, Distinct, FailsForExtra;
    var good := (before: seq<Access>) => PrefixHolds(n, before);
    var breaks := (before: seq<Access>, a: Access) => FailsForExtra(Run(n, before), Run(n + 1, before), a);
    forall before: seq<Access>, a: Access | good(before)
      ensures good(before + [a]) <==> !breaks(before, a)
    {
      RunStep(n, before, a);
      RunStep(n + 1, before, a);
      RunBound(n + 1, before);
      PrefixSurvivesIff(n, Run(n, before), Run(n + 1, before), a);
    }
    NothingRun(n);
    HoldsThroughoutIff(good, breaks, accesses);
  }

  predicate AlwaysLoads(accesses: seq<Access>) {
    forall i | 0 <= i < |accesses| :: accesses[i].valid && accesses[i].loads
  }

  /** In particular it holds after every run in which no load fails. */
  lemma NoFailureKeepsPrefix(n: nat, accesses: seq<Access>)
    requires n >= 1 && AlwaysLoads(accesses)
    ensures PrefixHolds(n, accesses)
  {
    InclusionTheorem(n, accesses);
    assert accesses[..|accesses|] == accesses;
  }

  /** A failing load breaks the prefix form: after loading `p` and `q`, a failing reload of
      `p` is a hit for two slots and leaves one slot holding `q`. */
  lemma FailingLoadBreaksPrefix(p: Key, q: Key)
    requires p != q
    ensures var run := [Access(p, true, true), Access(q, true, true), Access(p, true, false)];
      && Run(1, run) == [q] && Run(2, run) == [p, q]
      && Run(1, run) != Take(1, Run(2, run))
  {
    var run := [Access(p, true, true), Access(q, true, true), Access(p, true, false)];
    var one, two := run[..1], run[..2];
    assert run[..|run| - 1] == two && two[..|two| - 1] == one && one[..|one| - 1] == [];
    assert Run(1, one) == [p] && Run(2, one) == [p];
    assert Run(1, two) == Take(1, [q, p]) && Run(2, two) == Take(2, [q, p]);
    assert Run(1, two) == [q] && Run(2, two) == [q, p];
    assert Remove([q, p], p) == [q];
  }
}
