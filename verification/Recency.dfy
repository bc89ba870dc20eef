/** Least-recently-used order as a function of the touch history, and its reading in terms
    of how many other keys were touched since. */
module Recency {

  /** One `(provider, model_id)` pair. */
  datatype Key = Key(provider: string, modelId: string)

  predicate Distinct(s: seq<Key>) {
    forall i, j | 0 <= i < j < |s| :: s[i] != s[j]
  }

  function Remove(s: seq<Key>, k: Key): (r: seq<Key>)
    ensures |r| <= |s|
  {
    if s == [] then [] else if s[0] == k then Remove(s[1..], k) else [s[0]] + Remove(s[1..], k)
  }

  function Take(n: nat, s: seq<Key>): seq<Key> {
    if n <= |s| then s[..n] else s
  }

  /** The keys of `history` (oldest touch first), most recently touched first. */
  function MostRecent(history: seq<Key>): seq<Key> {
    if history == [] then []
    else
      var last := history[|history| - 1];
      [last] + Remove(MostRecent(history[..|history| - 1]), last)
  }

  /** How many different keys occur in `s`. */
  function CountDistinct(s: seq<Key>): nat {
    |set k | k in s|
  }

  lemma {:induction false} RemoveMembers(s: seq<Key>, k: Key)
    ensures forall x :: x in Remove(s, k) <==> x in s && x != k
    ensures k !in s ==> Remove(s, k) == s
  {
    if s != [] {
      RemoveMembers(s[1..], k);
      assert s == [s[0]] + s[1..];
    }
  }

  lemma DistinctSplit(s: seq<Key>)
    requires s != []
    ensures Distinct(s) <==> Distinct(s[1..]) && s[0] !in s[1..]
  {
    assert forall i | 1 <= i < |s| :: s[i] == s[1..][i - 1];
  }

  lemma DistinctGrows(k: Key, s: seq<Key>)
    requires Distinct(s) && k !in s
    ensures Distinct([k] + s)
  { }

  lemma {:induction false} RemoveDistinct(s: seq<Key>, k: Key)
    requires Distinct(s)
    ensures Distinct(Remove(s, k))
    ensures k in s ==> |Remove(s, k)| == |s| - 1
  {
    if s != [] {
      DistinctSplit(s);
      hide Distinct;
      RemoveDistinct(s[1..], k);
      RemoveMembers(s[1..], k);
      if s[0] != k {
        DistinctGrows(s[0], Remove(s[1..], k));
      }
    }
  }

  lemma RemoveSpec(s: seq<Key>, k: Key)
    ensures k !in Remove(s, k)
    ensures forall x :: x in Remove(s, k) <==> x in s && x != k
    ensures Distinct(s) ==> Distinct(Remove(s, k))
    ensures k !in s ==> Remove(s, k) == s
    ensures Distinct(s) && k in s ==> |Remove(s, k)| == |s| - 1
  {
    hide Distinct, Remove;
    RemoveMembers(s, k);
    if Distinct(s) {
      RemoveDistinct(s, k);
    }
  }

  lemma {:induction false} RemoveConcat(a: seq<Key>, b: seq<Key>, k: Key)
    ensures Remove(a + b, k) == Remove(a, k) + Remove(b, k)
  {
    if a == [] {
      assert a + b == b;
    } else {
      assert (a + b)[1..] == a[1..] + b;
      RemoveConcat(a[1..], b, k);
    }
  }

  lemma {:induction false} MostRecentSpec(history: seq<Key>)
    ensures Distinct(MostRecent(history))
    ensures forall k :: k in MostRecent(history) <==> k in history
  {
    if history != [] {
      var front, last := history[..|history| - 1], history[|history| - 1];
      MostRecentSpec(front);
      RemoveSpec(MostRecent(front), last);
      assert history == front + [last];
    }
  }

  /** Touching commutes with truncation: an LRU list of length `n` can be maintained from
      its own first `n` entries. On a hit nothing falls off. */
  lemma TakeTouchHit(n: nat, s: seq<Key>, k: Key)
    requires Distinct(s) && k in Take(n, s)
    ensures Take(n, [k] + Remove(s, k)) == [k] + Remove(Take(n, s), k)
  {
    if n < |s| {
      hide Remove;
      var a, b := s[..n], s[n..];
      assert s == a + b;
      RemoveConcat(a, b, k);
      RemoveSpec(a, k);
      assert Remove(b, k) == b by {
        RemoveSpec(b, k);
      }
    } else {
      assert Take(n, s) == s;
      RemoveSpec(s, k);
    }
  }

  lemma TakeTouchMiss(n: nat, s: seq<Key>, k: Key)
    requires n >= 1 && Distinct(s) && k !in Take(n, s)
    ensures Take(n, [k] + Remove(s, k)) == Take(n, [k] + Take(n, s))
  {
    if n < |s| {
      var a, b := s[..n], s[n..];
      assert s == a + b;
      RemoveConcat(a, b, k);
      RemoveSpec(a, k);
      assert Remove(s, k)[..n - 1] == a[..n - 1];
    } else {
      assert Take(n, s) == s;
      RemoveSpec(s, k);
    }
  }

  lemma {:induction false} LaterTouchesFirst(before: seq<Key>, after: seq<Key>)
    ensures MostRecent(before + after)
         == MostRecent(after) + RemoveAll(MostRecent(before), after)
  {
    if after == [] {
      assert before + after == before;
    } else {
      var front, last := after[..|after| - 1], after[|after| - 1];
      assert (before + after)[..|before + after| - 1] == before + front;
      LaterTouchesFirst(before, front);
      RemoveConcat(MostRecent(front), RemoveAll(MostRecent(before), front), last);
    }
  }

  function RemoveAll(s: seq<Key>, gone: seq<Key>): seq<Key> {
    if gone == [] then s else Remove(RemoveAll(s, gone[..|gone| - 1]), gone[|gone| - 1])
  }

  lemma {:induction false} RemoveAllHead(k: Key, s: seq<Key>, gone: seq<Key>)
    requires k !in gone
    ensures RemoveAll([k] + s, gone) == [k] + RemoveAll(s, gone)
  {
    if gone != [] {
      RemoveAllHead(k, s, gone[..|gone| - 1]);
      assert ([k] + RemoveAll(s, gone[..|gone| - 1]))[1..] == RemoveAll(s, gone[..|gone| - 1]);
    }
  }

  lemma {:induction false} DistinctSize(s: seq<Key>)
    requires Distinct(s)
    ensures |s| == CountDistinct(s)
  {
    if s != [] {
      var front, last := s[..|s| - 1], s[|s| - 1];
      DistinctSize(front);
      assert (set k | k in s) == (set k | k in front) + {last} by {
        assert s == front + [last];
      }
      assert last !in front;
    }
  }

  /** The LRU law: a key whose last touch was followed by the touches `since` stands at
      position "number of different keys in `since`", hence is among the first `n` exactly
      when fewer than `n` different other keys were touched since. */
  lemma PositionIsDistinctSince(before: seq<Key>, k: Key, since: seq<Key>, n: nat)
    requires k !in since
    ensures CountDistinct(since) < |MostRecent(before + [k] + since)|
    ensures MostRecent(before + [k] + since)[CountDistinct(since)] == k
    ensures k in Take(n, MostRecent(before + [k] + since)) <==> CountDistinct(since) < n
  {
    var all := MostRecent(before + [k] + since);
    LaterTouchesFirst(before + [k], since);
    var head := Remove(MostRecent(before), k);
    assert (before + [k])[..|before + [k]| - 1] == before;
    assert MostRecent(before + [k]) == [k] + head;
    RemoveAllHead(k, head, since);
    MostRecentSpec(since);
    DistinctSize(MostRecent(since));
    assert (set x | x in MostRecent(since)) == (set x | x in since);
    assert all == MostRecent(since) + ([k] + RemoveAll(head, since));
    MostRecentSpec(before + [k] + since);
    InTake(all, CountDistinct(since), n);
  }

  lemma InTake(s: seq<Key>, c: nat, n: nat)
    requires Distinct(s) && c < |s|
    ensures s[c] in Take(n, s) <==> c < n
  {
    if c < n {
      assert Take(n, s)[c] == s[c];
    }
    if s[c] in Take(n, s) {
      var i :| 0 <= i < |Take(n, s)| && Take(n, s)[i] == s[c];
      assert s[i] == s[c];
    }
  }
}
