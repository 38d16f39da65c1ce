/** The least-recently-used cache of c++11/LRUCache.cpp: a list of entries, most recent
    first, and a hash map from each key to its entry's place in the list. */
module LruCache {
  import opened Common

  // ----- The keys of the list, as a value

  /** The list with a key taken out, if it is there. */
  function Without(keys: seq<int>, key: int): seq<int> {
    if keys == [] then []
    else if keys[0] == key then keys[1..]
    else [keys[0]] + Without(keys[1..], key)
  }

  function Front(keys: seq<int>, key: int): seq<int> {
    [key] + Without(keys, key)
  }

  /** `map.size() > cap` compares as unsigned 64-bit numbers, so a negative capacity is a
      very large one. */
  function Limit(cap: int): nat
    requires -0x8000_0000 <= cap < 0x8000_0000
  {
    if cap < 0 then cap + 0x1_0000_0000_0000_0000 else cap
  }

  function AfterPut(keys: seq<int>, key: int, limit: nat): seq<int> {
    var all := Front(keys, key);
    if |all| > limit then all[..|all| - 1] else all
  }

  function AfterGet(keys: seq<int>, key: int): seq<int> {
    if key in keys then Front(keys, key) else keys
  }

  lemma {:induction false} WithoutPresent(keys: seq<int>, p: nat)
    requires NoRepeat(keys) && p < |keys|
    ensures Without(keys, keys[p]) == keys[..p] + keys[p + 1..]
  {
    if p > 0 {
      var rest := keys[1..];
      WithoutPresent(rest, p - 1);
      assert rest[..p - 1] == keys[1..p] && rest[p..] == keys[p + 1..];
    }
  }

  lemma {:induction false} WithoutAbsent(keys: seq<int>, key: int)
    requires key !in keys
    ensures Without(keys, key) == keys
  {
    if keys != [] {
      WithoutAbsent(keys[1..], key);
    }
  }

  lemma PresentToFront(keys: seq<int>, p: nat)
    requires NoRepeat(keys) && p < |keys|
    ensures |Front(keys, keys[p])| == |keys|
    ensures forall i :: 1 <= i <= p ==> Front(keys, keys[p])[i] == keys[i - 1]
    ensures forall i :: p < i < |keys| ==> Front(keys, keys[p])[i] == keys[i]
  {
    WithoutPresent(keys, p);
  }

  /** Where each key comes from when `key` moves to the front. */
  lemma MovedToFront(keys: seq<int>, key: int) returns (p: nat)
    requires NoRepeat(keys)
    ensures p <= |keys| && (p < |keys| ==> keys[p] == key) && (p == |keys| ==> key !in keys)
    ensures |Front(keys, key)| == if p < |keys| then |keys| else |keys| + 1
    ensures forall i :: 1 <= i <= p ==> Front(keys, key)[i] == keys[i - 1]
    ensures forall i :: p < i < |keys| ==> Front(keys, key)[i] == keys[i]
  {
    if key in keys {
      p :| p < |keys| && keys[p] == key;
      PresentToFront(keys, p);
    } else {
      p := |keys|;
      WithoutAbsent(keys, key);
    }
  }

  lemma FrontIsDistinct(keys: seq<int>, key: int)
    requires NoRepeat(keys)
    ensures NoRepeat(Front(keys, key))
  {
    var p := MovedToFront(keys, key);
  }

  // ----- Recency, defined on the history alone

  /** What happened: a put, a get that found its key, a get that did not. */
  datatype Event = Put(key: int, value: int) | Hit(key: int) | Miss(key: int)

  /** When a key was last put or found; -1 if never. */
  function LastTouch(h: seq<Event>, key: int): (t: int)
    ensures -1 <= t < |h|
  {
    if h == [] then -1
    else
      var e := h[|h| - 1];
      if !e.Miss? && e.key == key then |h| - 1 else LastTouch(h[..|h| - 1], key)
  }

  function LastPut(h: seq<Event>, key: int): Option<int> {
    if h == [] then None
    else
      var e := h[|h| - 1];
      if e.Put? && e.key == key then Some(e.value) else LastPut(h[..|h| - 1], key)
  }

  lemma TouchAfter(h: seq<Event>, e: Event, key: int)
    ensures LastTouch(h + [e], key) == if !e.Miss? && e.key == key then |h| else LastTouch(h, key)
    ensures LastPut(h + [e], key) == if e.Put? && e.key == key then Some(e.value) else LastPut(h, key)
  {
    assert (h + [e])[..|h|] == h;
  }

  /** Latest touch first. */
  ghost predicate InOrder(keys: seq<int>, touch: int -> int) {
    && (forall i :: 0 <= i < |keys| ==> touch(keys[i]) >= 0)
    && (forall i, j :: 0 <= i < j < |keys| ==> touch(keys[i]) > touch(keys[j]))
  }

  /** A key that is absent was touched before all that are present. */
  ghost predicate AbsentAreOlder(keys: seq<int>, touch: int -> int) {
    forall key, i :: 0 <= i < |keys| && key !in keys ==> touch(keys[i]) > touch(key)
  }

  function Touch(h: seq<Event>): int -> int {
    key => LastTouch(h, key)
  }

  /** The keys are the `limit` most recently touched ones, or all of them if fewer, latest
      first. */
  ghost predicate MostRecent(keys: seq<int>, h: seq<Event>, limit: nat) {
    && |keys| <= limit
    && InOrder(keys, Touch(h))
    && AbsentAreOlder(keys, Touch(h))
    && (|keys| < limit ==> forall key :: key !in keys ==> LastTouch(h, key) == -1)
  }

  lemma {:induction false} TouchesDiffer(h: seq<Event>, k: int, l: int)
    requires k != l && LastTouch(h, k) >= 0
    ensures LastTouch(h, k) != LastTouch(h, l)
  {
    var e := h[|h| - 1];
    if e.Miss? || (e.key != k && e.key != l) {
      TouchesDiffer(h[..|h| - 1], k, l);
    }
  }

  lemma OrderedIsDistinct(keys: seq<int>, touch: int -> int)
    requires InOrder(keys, touch)
    ensures NoRepeat(keys)
  {
    forall i, j | 0 <= i < j < |keys|
      ensures keys[i] != keys[j]
    {
      assert touch(keys[i]) > touch(keys[j]);
    }
  }

  /** No two keys were last touched by the same event. */
  ghost predicate TouchedApart(touch: int -> int) {
    forall k, l :: k != l && touch(k) >= 0 ==> touch(k) != touch(l)
  }

  lemma AbsentIsOlder(keys: seq<int>, touch: int -> int, key: int, i: nat)
    requires AbsentAreOlder(keys, touch) && i < |keys| && key !in keys
    ensures touch(keys[i]) > touch(key)
  {
  }

  lemma NotTouchedLater(keys: seq<int>, other: seq<int>, touch: int -> int, n: nat)
    requires InOrder(keys, touch) && InOrder(other, touch) && AbsentAreOlder(other, touch)
    requires NoRepeat(keys) && n < |keys| && n < |other| && keys[..n] == other[..n]
    ensures touch(keys[n]) <= touch(other[n])
  {
    assert keys[n] !in keys[..n];
    if keys[n] in other[n..] {
      var m :| n <= m < |other| && other[m] == keys[n];
    } else {
      assert other == other[..n] + other[n..];
      AbsentIsOlder(other, touch, keys[n], n);
    }
  }

  lemma SameNext(keys: seq<int>, other: seq<int>, touch: int -> int, n: nat)
    requires InOrder(keys, touch) && AbsentAreOlder(keys, touch)
    requires InOrder(other, touch) && AbsentAreOlder(other, touch)
    requires TouchedApart(touch)
    requires n < |keys| && n < |other| && keys[..n] == other[..n]
    ensures keys[n] == other[n]
  {
    OrderedIsDistinct(keys, touch);
    OrderedIsDistinct(other, touch);
    NotTouchedLater(keys, other, touch, n);
    NotTouchedLater(other, keys, touch, n);
    assert touch(keys[n]) == touch(other[n]) >= 0;
  }

  lemma {:induction false} FirstDifference(s: seq<int>, t: seq<int>, n: nat) returns (d: nat)
    requires n < |s| && n < |t| && s[n] != t[n]
    ensures d <= n && s[d] != t[d] && s[..d] == t[..d]
  {
    if k: nat :| k < n && s[k] != t[k] {
      d := FirstDifference(s, t, k);
    } else {
      d := n;
    }
  }

  lemma OrderIsUnique(keys: seq<int>, other: seq<int>, touch: int -> int, n: nat)
    requires InOrder(keys, touch) && AbsentAreOlder(keys, touch)
    requires InOrder(other, touch) && AbsentAreOlder(other, touch)
    requires TouchedApart(touch)
    requires n < |keys| && n < |other|
    ensures keys[n] == other[n]
  {
    if keys[n] != other[n] {
      var d := FirstDifference(keys, other, n);
      SameNext(keys, other, touch, d);
    }
  }

  /** The history and the limit leave only one list. */
  lemma MostRecentIsUnique(keys: seq<int>, other: seq<int>, h: seq<Event>, limit: nat)
    requires MostRecent(keys, h, limit) && MostRecent(other, h, limit)
    ensures keys == other
  {
    forall k, l | k != l && Touch(h)(k) >= 0
      ensures Touch(h)(k) != Touch(h)(l)
    {
      TouchesDiffer(h, k, l);
    }
    assert TouchedApart(Touch(h));
    forall n | 0 <= n < |keys| && n < |other|
      ensures keys[n] == other[n]
    {
      OrderIsUnique(keys, other, Touch(h), n);
    }
    if |keys| <= |other| {
      ShorterIsWhole(keys, other, h, limit);
    } else {
      ShorterIsWhole(other, keys, h, limit);
    }
  }

  lemma ShorterIsWhole(keys: seq<int>, other: seq<int>, h: seq<Event>, limit: nat)
    requires MostRecent(keys, h, limit) && MostRecent(other, h, limit)
    requires |keys| <= |other| && forall i :: 0 <= i < |keys| ==> keys[i] == other[i]
    ensures keys == other
  {
    if |keys| < limit {
      assert other != [] ==> Touch(h)(other[|other| - 1]) >= 0;
    }
  }

  lemma {:induction false} FrontMembers(keys: seq<int>, key: int, k: int)
    requires NoRepeat(keys)
    ensures k in Front(keys, key) <==> k == key || k in keys
  {
    var p := MovedToFront(keys, key);
    var all := Front(keys, key);
    if k in keys {
      var i :| 0 <= i < |keys| && keys[i] == k;
      assert all[if i < p then i + 1 else if i == p then 0 else i] == k;
    }
  }

  lemma FrontInOrder(keys: seq<int>, h: seq<Event>, e: Event)
    requires InOrder(keys, Touch(h)) && !e.Miss?
    ensures InOrder(Front(keys, e.key), Touch(h + [e]))
  {
    var p := MovedToFront(keys, e.key);
    var all := Front(keys, e.key);
    TouchAfter(h, e, e.key);
    forall i | 1 <= i < |all|
      ensures Touch(h + [e])(all[i]) == Touch(h)(all[i]) >= 0
    {
      TouchAfter(h, e, all[i]);
    }
  }

  lemma FrontAbsentAreOlder(keys: seq<int>, h: seq<Event>, e: Event)
    requires InOrder(keys, Touch(h)) && AbsentAreOlder(keys, Touch(h)) && !e.Miss?
    ensures AbsentAreOlder(Front(keys, e.key), Touch(h + [e]))
  {
    forall k
      ensures Touch(h + [e])(k) == if k == e.key then |h| else Touch(h)(k)
    {
      TouchAfter(h, e, k);
    }
    FrontOlder(keys, e.key, Touch(h), Touch(h + [e]), |h|);
  }

  lemma FrontOlder(keys: seq<int>, key: int, touch: int -> int, after: int -> int, now: nat)
    requires NoRepeat(keys) && AbsentAreOlder(keys, touch)
    requires forall k :: after(k) == if k == key then now else touch(k)
    requires forall k :: touch(k) < now
    ensures AbsentAreOlder(Front(keys, key), after)
  {
    var all := Front(keys, key);
    forall k, i | 0 <= i < |all| && k !in all
      ensures after(all[i]) > after(k)
    {
      FrontMembers(keys, key, k);
      FrontMembers(keys, key, all[i]);
      if all[i] != key {
        var j :| 0 <= j < |keys| && keys[j] == all[i];
        AbsentIsOlder(keys, touch, k, j);
      }
    }
  }

  /** Evicting the last key makes it the latest of the absent ones. */
  lemma EvictionKeepsOrder(keys: seq<int>, touch: int -> int)
    requires keys != [] && InOrder(keys, touch) && AbsentAreOlder(keys, touch)
    ensures InOrder(keys[..|keys| - 1], touch) && AbsentAreOlder(keys[..|keys| - 1], touch)
  {
    var kept, last := keys[..|keys| - 1], keys[|keys| - 1];
    assert keys == kept + [last];
  }

  lemma PutKeepsMostRecent(keys: seq<int>, h: seq<Event>, limit: nat, key: int, value: int)
    requires MostRecent(keys, h, limit)
    ensures MostRecent(AfterPut(keys, key, limit), h + [Put(key, value)], limit)
  {
    var e := Put(key, value);
    FrontInOrder(keys, h, e);
    FrontAbsentAreOlder(keys, h, e);
    var p := MovedToFront(keys, key);
    if |Front(keys, key)| > limit {
      EvictionKeepsOrder(Front(keys, key), Touch(h + [e]));
    } else {
      forall k | k !in Front(keys, key) && |Front(keys, key)| < limit ensures LastTouch(h + [e], k) == -1 {
        TouchAfter(h, e, k);
        FrontMembers(keys, key, k);
      }
    }
  }

  lemma GetKeepsMostRecent(keys: seq<int>, h: seq<Event>, limit: nat, key: int)
    requires MostRecent(keys, h, limit)
    ensures MostRecent(AfterGet(keys, key), h + [if key in keys then Hit(key) else Miss(key)], limit)
  {
    var e := if key in keys then Hit(key) else Miss(key);
    forall k ensures Touch(h + [e])(k) == if e.Hit? && k == key then |h| else Touch(h)(k) {
      TouchAfter(h, e, k);
    }
    if key in keys {
      FrontInOrder(keys, h, e);
      FrontAbsentAreOlder(keys, h, e);
      var p := MovedToFront(keys, key);
      forall k ensures k in Front(keys, key) <==> k in keys {
        FrontMembers(keys, key, k);
      }
    }
  }

  // ----- Runs, and the same run on two capacities

  datatype Op = DoPut(key: int, value: int) | DoGet(key: int)

  function Outcome(keys: seq<int>, op: Op): Event {
    match op
    case DoPut(key, value) => Put(key, value)
    case DoGet(key) => if key in keys then Hit(key) else Miss(key)
  }

  function Next(keys: seq<int>, op: Op, limit: nat): seq<int> {
    match op
    case DoPut(key, _) => AfterPut(keys, key, limit)
    case DoGet(key) => AfterGet(keys, key)
  }

  datatype Cache = Cache(keys: seq<int>, history: seq<Event>)

  function Run(ops: seq<Op>, limit: nat): (c: Cache)
    ensures |c.history| == |ops|
  {
    if ops == [] then Cache([], [])
    else
      var c := Run(ops[..|ops| - 1], limit);
      var op := ops[|ops| - 1];
      Cache(Next(c.keys, op, limit), c.history + [Outcome(c.keys, op)])
  }

  /** After any run the list is what recency over the run's own history says. */
  lemma {:induction false} RunIsMostRecent(ops: seq<Op>, limit: nat)
    ensures MostRecent(Run(ops, limit).keys, Run(ops, limit).history, limit)
  {
    if ops != [] {
      var before := Run(ops[..|ops| - 1], limit);
      RunIsMostRecent(ops[..|ops| - 1], limit);
      match ops[|ops| - 1] {
        case DoPut(key, value) => PutKeepsMostRecent(before.keys, before.history, limit, key, value);
        case DoGet(key) => GetKeepsMostRecent(before.keys, before.history, limit, key);
      }
    }
  }

  ghost predicate Subsequence(s: seq<int>, t: seq<int>)
    decreases |t|
  {
    s == [] ||
    (t != [] && (Subsequence(s, t[1..]) || (s[0] == t[0] && Subsequence(s[1..], t[1..]))))
  }

  lemma {:induction false} SubsequenceSelf(s: seq<int>)
    ensures Subsequence(s, s)
  {
    if s != [] {
      SubsequenceSelf(s[1..]);
    }
  }

  lemma {:induction false} SubsequenceMember(s: seq<int>, t: seq<int>, key: int)
    requires Subsequence(s, t) && key in s
    ensures key in t
    decreases |t|
  {
    if Subsequence(s, t[1..]) {
      SubsequenceMember(s, t[1..], key);
    } else if key != s[0] {
      SubsequenceMember(s[1..], t[1..], key);
    }
  }

  lemma {:induction false} SubsequenceWithout(s: seq<int>, t: seq<int>, key: int)
    requires Subsequence(s, t) && NoRepeat(s) && NoRepeat(t)
    ensures Subsequence(Without(s, key), Without(t, key))
    decreases |t|
  {
    if s == [] {
    } else if Subsequence(s, t[1..]) {
      if t[0] == key {
        if key in s { SubsequenceMember(s, t[1..], key); }
        WithoutAbsent(s, key);
      } else {
        SubsequenceWithout(s, t[1..], key);
        assert Without(t, key)[1..] == Without(t[1..], key);
      }
    } else if t[0] != key {
      SubsequenceWithout(s[1..], t[1..], key);
      assert Without(t, key)[1..] == Without(t[1..], key) && Without(s, key)[1..] == Without(s[1..], key);
    }
  }

  lemma SubsequenceCons(s: seq<int>, t: seq<int>, key: int)
    requires Subsequence(s, t)
    ensures Subsequence([key] + s, [key] + t) && Subsequence(s, [key] + t)
  {
    assert ([key] + s)[1..] == s && ([key] + t)[1..] == t;
  }

  lemma {:induction false} SubsequenceDropLast(s: seq<int>, t: seq<int>)
    requires Subsequence(s, t) && s != []
    ensures t != [] && Subsequence(s[..|s| - 1], t[..|t| - 1])
    decreases |t|
  {
    if Subsequence(s, t[1..]) {
      SubsequenceDropLast(s, t[1..]);
      assert t[..|t| - 1][1..] == t[1..][..|t| - 2];
    } else if |s| > 1 {
      SubsequenceDropLast(s[1..], t[1..]);
      assert t[..|t| - 1][1..] == t[1..][..|t| - 2] && s[..|s| - 1][1..] == s[1..][..|s| - 2];
    }
  }

  lemma {:induction false} SubsequenceShorter(s: seq<int>, t: seq<int>, n: nat)
    requires Subsequence(s, t) && n <= |s|
    ensures Subsequence(s[..n], t)
    decreases |t|
  {
    if n == 0 {
    } else if Subsequence(s, t[1..]) {
      SubsequenceShorter(s, t[1..], n);
    } else {
      SubsequenceShorter(s[1..], t[1..], n - 1);
      assert s[..n][1..] == s[1..][..n - 1];
    }
  }

  /** The two lists under capacities c <= c': the smaller one is full or equal. */
  ghost predicate Nested(small: seq<int>, large: seq<int>, c: nat, c': nat) {
    && c <= c' && |small| <= c && |large| <= c'
    && NoRepeat(small) && NoRepeat(large)
    && Subsequence(small, large)
    && (|small| < c ==> small == large)
  }

  lemma MostRecentIsDistinct(keys: seq<int>, h: seq<Event>, limit: nat)
    requires MostRecent(keys, h, limit)
    ensures NoRepeat(keys)
  {
    OrderedIsDistinct(keys, Touch(h));
  }

  lemma PutKeepsNested(small: seq<int>, large: seq<int>, c: nat, c': nat, key: int)
    requires Nested(small, large, c, c')
    ensures Subsequence(AfterPut(small, key, c), AfterPut(large, key, c'))
    ensures |AfterPut(small, key, c)| < c ==> AfterPut(small, key, c) == AfterPut(large, key, c')
  {
    var p := MovedToFront(small, key);
    var q := MovedToFront(large, key);
    var s, t := Front(small, key), Front(large, key);
    SubsequenceWithout(small, large, key);
    SubsequenceCons(Without(small, key), Without(large, key), key);
    if key in small { SubsequenceMember(small, large, key); }
    if |t| > c' && |s| > c {
      SubsequenceDropLast(s, t);
    } else if |s| > c {
      SubsequenceShorter(s, t, |s| - 1);
    }
  }

  lemma GetKeepsNested(small: seq<int>, large: seq<int>, c: nat, c': nat, key: int)
    requires Nested(small, large, c, c')
    ensures Subsequence(AfterGet(small, key), AfterGet(large, key))
    ensures |AfterGet(small, key)| < c ==> AfterGet(small, key) == AfterGet(large, key)
    ensures key in small ==> key in large
  {
    var p := MovedToFront(small, key);
    SubsequenceWithout(small, large, key);
    SubsequenceCons(Without(small, key), Without(large, key), key);
    if key in small {
      SubsequenceMember(small, large, key);
    } else {
      WithoutAbsent(small, key);
    }
  }

  lemma {:induction false} RunsAreNested(ops: seq<Op>, c: nat, c': nat)
    requires c <= c'
    ensures Nested(Run(ops, c).keys, Run(ops, c').keys, c, c')
    ensures ops != [] && Run(ops, c).history[|ops| - 1].Hit? ==>
      Run(ops, c').history[|ops| - 1] == Run(ops, c).history[|ops| - 1]
  {
    RunIsMostRecent(ops, c);
    RunIsMostRecent(ops, c');
    MostRecentIsDistinct(Run(ops, c).keys, Run(ops, c).history, c);
    MostRecentIsDistinct(Run(ops, c').keys, Run(ops, c').history, c');
    if ops != [] {
      var prefix := ops[..|ops| - 1];
      RunsAreNested(prefix, c, c');
      match ops[|ops| - 1] {
        case DoPut(key, _) => PutKeepsNested(Run(prefix, c).keys, Run(prefix, c').keys, c, c', key);
        case DoGet(key) => GetKeepsNested(Run(prefix, c).keys, Run(prefix, c').keys, c, c', key);
      }
    }
  }

  lemma PutInRun(ops: seq<Op>, limit: nat, key: int)
    requires ops != []
    ensures var op := ops[|ops| - 1];
      LastPut(Run(ops, limit).history, key) ==
      if op.DoPut? && op.key == key then Some(op.value) else LastPut(Run(ops[..|ops| - 1], limit).history, key)
  {
    var before := Run(ops[..|ops| - 1], limit);
    TouchAfter(before.history, Outcome(before.keys, ops[|ops| - 1]), key);
  }

  /** What was last put under a key does not depend on the capacity. */
  lemma {:induction false} PutsAgree(ops: seq<Op>, c: nat, c': nat, key: int)
    ensures LastPut(Run(ops, c).history, key) == LastPut(Run(ops, c').history, key)
  {
    if ops != [] {
      PutsAgree(ops[..|ops| - 1], c, c', key);
      PutInRun(ops, c, key);
      PutInRun(ops, c', key);
    }
  }

  lemma {:induction false} RunOfPrefix(ops: seq<Op>, limit: nat, n: nat)
    requires n <= |ops|
    ensures Run(ops[..n], limit).history == Run(ops, limit).history[..n]
  {
    if n < |ops| {
      RunOfPrefix(ops[..|ops| - 1], limit, n);
      assert ops[..|ops| - 1][..n] == ops[..n];
    } else {
      assert ops[..n] == ops;
    }
  }

  /** Inclusion: run the same operations on two capacities c <= c'. The smaller list is a
      subsequence of the larger, and every get that hits in the smaller hits in the larger
      and finds the same value. */
  lemma Inclusion(ops: seq<Op>, c: nat, c': nat, n: nat)
    requires c <= c' && n < |ops| && ops[n].DoGet?
    ensures Subsequence(Run(ops, c).keys, Run(ops, c').keys)
    ensures Run(ops, c).history[n].Hit? ==> Run(ops, c').history[n] == Run(ops, c).history[n]
    ensures LastPut(Run(ops, c).history[..n], ops[n].key) == LastPut(Run(ops, c').history[..n], ops[n].key)
  {
    RunsAreNested(ops, c, c');
    RunsAreNested(ops[..n + 1], c, c');
    RunOfPrefix(ops, c, n + 1);
    RunOfPrefix(ops, c', n + 1);
    RunOfPrefix(ops, c, n);
    RunOfPrefix(ops, c', n);
    PutsAgree(ops[..n], c, c', ops[n].key);
  }

  // ----- Negative capacities

  lemma {:induction false} RunIsShort(ops: seq<Op>, limit: nat)
    ensures |Run(ops, limit).keys| <= |ops|
  {
    if ops != [] {
      var keys := Run(ops[..|ops| - 1], limit).keys;
      RunIsShort(ops[..|ops| - 1], limit);
      RunIsMostRecent(ops[..|ops| - 1], limit);
      MostRecentIsDistinct(keys, Run(ops[..|ops| - 1], limit).history, limit);
      var p := MovedToFront(keys, ops[|ops| - 1].key);
    }
  }

  /** The capacity, counted as none if negative, bounds the list if and only if it is not
      negative. */
  lemma BoundedIffNotNegative(cap: int)
    requires -0x8000_0000 <= cap < 0x8000_0000
    ensures (forall ops :: |Run(ops, Limit(cap)).keys| <= (if cap > 0 then cap else 0)) <==> cap >= 0
  {
    if cap >= 0 {
      forall ops
        ensures |Run(ops, Limit(cap)).keys| <= cap
      {
        RunIsMostRecent(ops, Limit(cap));
      }
    } else {
      assert Run([], Limit(cap)) == Cache([], []);
      assert Run([DoPut(0, 0)], Limit(cap)).keys == [0];
    }
  }

  /** With a negative capacity nothing that was ever touched is evicted, in any run shorter
      than the unsigned number the capacity turns into. */
  lemma NothingIsEvicted(ops: seq<Op>, cap: int, key: int)
    requires -0x8000_0000 <= cap < 0 && |ops| < Limit(cap)
    ensures key in Run(ops, Limit(cap)).keys <==> LastTouch(Run(ops, Limit(cap)).history, key) >= 0
  {
    RunIsMostRecent(ops, Limit(cap));
    RunIsShort(ops, Limit(cap));
    var c := Run(ops, Limit(cap));
    if key in c.keys {
      assert Touch(c.history)(key) >= 0;
    }
  }

  // ----- The cache as an object

  /** A list node; the hash map refers to it, as the iterator it stores does. */
  class Node {
    const key: int
    const value: int

    constructor (key: int, value: int)
      ensures this.key == key && this.value == value
    {
      this.key, this.value := key, value;
    }
  }

  function KeysOf(nodes: seq<Node>): seq<int> {
    seq(|nodes|, i requires 0 <= i < |nodes| => nodes[i].key)
  }

  /** `list::erase`: the list without the given node. */
  function Erase(nodes: seq<Node>, node: Node): seq<Node> {
    if nodes == [] then []
    else if nodes[0] == node then nodes[1..]
    else [nodes[0]] + Erase(nodes[1..], node)
  }

  lemma {:induction false} EraseIsWithout(nodes: seq<Node>, node: Node)
    requires NoRepeat(KeysOf(nodes)) && node in nodes
    ensures KeysOf(Erase(nodes, node)) == Without(KeysOf(nodes), node.key)
    ensures forall n :: n in Erase(nodes, node) ==> n in nodes
  {
    assert KeysOf(nodes)[1..] == KeysOf(nodes[1..]);
    if nodes[0] != node {
      var i :| 0 <= i < |nodes| && nodes[i] == node;
      assert KeysOf(nodes)[0] != KeysOf(nodes)[i];
      EraseIsWithout(nodes[1..], node);
      assert KeysOf([nodes[0]] + Erase(nodes[1..], node)) == [nodes[0].key] + KeysOf(Erase(nodes[1..], node));
    }
  }

  /** The map sends exactly the listed keys to their nodes. */
  ghost predicate Indexed(nodes: seq<Node>, index: map<int, Node>) {
    && (forall n :: n in nodes ==> n.key in index && index[n.key] == n)
    && (forall k :: k in index ==> index[k] in nodes && index[k].key == k)
  }

  lemma IndexSize(nodes: seq<Node>, index: map<int, Node>)
    requires Indexed(nodes, index) && NoRepeat(KeysOf(nodes))
    ensures |index| == |nodes| && forall k :: k in index <==> k in KeysOf(nodes)
  {
    forall k ensures k in index <==> k in KeysOf(nodes) {
      if k in KeysOf(nodes) {
        var i :| 0 <= i < |KeysOf(nodes)| && KeysOf(nodes)[i] == k;
        assert nodes[i] in nodes;
      }
      if k in index {
        var i :| 0 <= i < |nodes| && nodes[i] == index[k];
        assert KeysOf(nodes)[i] == k;
      }
    }
    DistinctSize(KeysOf(nodes), index.Keys);
  }

  /** The list after the key's old node, if any, has been erased. */
  function Detached(nodes: seq<Node>, index: map<int, Node>, key: int): seq<Node> {
    if key in index then Erase(nodes, index[key]) else nodes
  }

  lemma DetachedKeys(nodes: seq<Node>, index: map<int, Node>, key: int)
    requires Indexed(nodes, index) && NoRepeat(KeysOf(nodes))
    ensures KeysOf(Detached(nodes, index, key)) == Without(KeysOf(nodes), key)
    ensures forall n :: n in Detached(nodes, index, key) ==> n in nodes && n.key != key
  {
    var rest := Detached(nodes, index, key);
    IndexSize(nodes, index);
    if key in index {
      EraseIsWithout(nodes, index[key]);
    } else {
      WithoutAbsent(KeysOf(nodes), key);
    }
    var p := MovedToFront(KeysOf(nodes), key);
    forall n | n in rest ensures n.key != key {
      var i :| 0 <= i < |rest| && rest[i] == n;
      assert Front(KeysOf(nodes), key)[i + 1] == KeysOf(rest)[i] == n.key;
    }
  }

  /** A node put in front of the rest is indexed by overwriting its key's entry. */
  lemma FrontIndexed(nodes: seq<Node>, index: map<int, Node>, node: Node)
    requires Indexed(nodes, index) && NoRepeat(KeysOf(nodes))
    ensures Indexed(Pushed(nodes, index, node), index[node.key := node])
    ensures KeysOf(Pushed(nodes, index, node)) == Front(KeysOf(nodes), node.key)
  {
    DetachedKeys(nodes, index, node.key);
    var all := [node] + Detached(nodes, index, node.key);
    forall k | k in index && k != node.key ensures index[k] in all {
      StillThere(nodes, index, node.key, index[k]);
    }
  }

  lemma StillThere(nodes: seq<Node>, index: map<int, Node>, key: int, n: Node)
    requires n in nodes && n.key != key && Indexed(nodes, index)
    ensures n in Detached(nodes, index, key)
  {
    if key in index {
      EraseKeepsOthers(nodes, index[key], n);
    }
  }

  lemma {:induction false} EraseKeepsOthers(nodes: seq<Node>, node: Node, n: Node)
    requires n in nodes && n != node
    ensures n in Erase(nodes, node)
  {
    if nodes[0] != node && nodes[0] != n {
      EraseKeepsOthers(nodes[1..], node, n);
    }
  }

  lemma EvictIndexed(nodes: seq<Node>, index: map<int, Node>)
    requires nodes != [] && Indexed(nodes, index) && NoRepeat(KeysOf(nodes))
    ensures var last := nodes[|nodes| - 1].key;
      Indexed(nodes[..|nodes| - 1], index - {last}) &&
      KeysOf(nodes[..|nodes| - 1]) == KeysOf(nodes)[..|nodes| - 1]
  {
    var kept, last := nodes[..|nodes| - 1], nodes[|nodes| - 1];
    assert nodes == kept + [last];
    forall n | n in kept ensures n.key != last.key {
      var i :| 0 <= i < |kept| && kept[i] == n;
      assert KeysOf(nodes)[i] != KeysOf(nodes)[|nodes| - 1];
    }
  }

  /** The list is the most recent keys of the whole history, each node carries the value
      last put, and the map sends exactly the listed keys to their nodes. */
  ghost predicate Consistent(nodes: seq<Node>, index: map<int, Node>, h: seq<Event>, limit: nat) {
    && MostRecent(KeysOf(nodes), h, limit)
    && HoldLastPuts(nodes, h)
    && Indexed(nodes, index)
  }

  ghost predicate HoldLastPuts(nodes: seq<Node>, h: seq<Event>) {
    forall n :: n in nodes ==> LastPut(h, n.key) == Some(n.value)
  }

  lemma PutKeepsValues(nodes: seq<Node>, after: seq<Node>, h: seq<Event>, node: Node)
    requires HoldLastPuts(nodes, h)
    requires forall n :: n in after ==> n == node || (n in nodes && n.key != node.key)
    ensures HoldLastPuts(after, h + [Event.Put(node.key, node.value)])
  {
    forall n | n in after ensures LastPut(h + [Event.Put(node.key, node.value)], n.key) == Some(n.value) {
      TouchAfter(h, Event.Put(node.key, node.value), n.key);
    }
  }

  /** The list after a new node has been pushed in front. */
  function Pushed(nodes: seq<Node>, index: map<int, Node>, node: Node): seq<Node> {
    [node] + Detached(nodes, index, node.key)
  }

  lemma PushKeepsKeys(nodes: seq<Node>, index: map<int, Node>, node: Node)
    requires Indexed(nodes, index) && NoRepeat(KeysOf(nodes))
    ensures KeysOf(Pushed(nodes, index, node)) == Front(KeysOf(nodes), node.key)
    ensures NoRepeat(KeysOf(Pushed(nodes, index, node)))
  {
    FrontIndexed(nodes, index, node);
    FrontIsDistinct(KeysOf(nodes), node.key);
  }

  /** The list and the map stay of one size, so either shows when the cache is full. */
  lemma PushKeepsSize(nodes: seq<Node>, index: map<int, Node>, node: Node)
    requires Indexed(nodes, index) && NoRepeat(KeysOf(nodes))
    ensures |index[node.key := node]| == |Pushed(nodes, index, node)|
  {
    PushKeepsKeys(nodes, index, node);
    FrontIndexed(nodes, index, node);
    IndexSize(Pushed(nodes, index, node), index[node.key := node]);
  }

  lemma PushKeepsValues(nodes: seq<Node>, index: map<int, Node>, h: seq<Event>, node: Node)
    requires Indexed(nodes, index) && NoRepeat(KeysOf(nodes)) && HoldLastPuts(nodes, h)
    ensures HoldLastPuts(Pushed(nodes, index, node), h + [Event.Put(node.key, node.value)])
  {
    DetachedKeys(nodes, index, node.key);
    PutKeepsValues(nodes, Pushed(nodes, index, node), h, node);
  }

  /** The list after an eviction, if there is one, and the map. */
  function Kept(all: seq<Node>, full: bool): seq<Node> {
    if full && all != [] then all[..|all| - 1] else all
  }

  function KeptIndex(all: seq<Node>, index: map<int, Node>, full: bool): map<int, Node> {
    if full && all != [] then index - {all[|all| - 1].key} else index
  }

  lemma EvictionKeepsConsistent(all: seq<Node>, index: map<int, Node>, full: bool)
    requires all != [] && Indexed(all, index) && NoRepeat(KeysOf(all))
    ensures Indexed(Kept(all, full), KeptIndex(all, index, full))
    ensures KeysOf(Kept(all, full)) == if full then KeysOf(all)[..|all| - 1] else KeysOf(all)
    ensures forall n :: n in Kept(all, full) ==> n in all
  {
    if full {
      EvictIndexed(all, index);
    }
  }

  lemma PutKeepsConsistent(nodes: seq<Node>, index: map<int, Node>, h: seq<Event>, limit: nat, node: Node)
    requires Consistent(nodes, index, h, limit)
    ensures var all, full := Pushed(nodes, index, node), |index[node.key := node]| > limit;
      Consistent(Kept(all, full), KeptIndex(all, index[node.key := node], full),
        h + [Event.Put(node.key, node.value)], limit) &&
      KeysOf(Kept(all, full)) == AfterPut(KeysOf(nodes), node.key, limit)
  {
    MostRecentIsDistinct(KeysOf(nodes), h, limit);
    PutKeepsMostRecent(KeysOf(nodes), h, limit, node.key, node.value);
    PushKeepsKeys(nodes, index, node);
    PushKeepsSize(nodes, index, node);
    PushKeepsValues(nodes, index, h, node);
    FrontIndexed(nodes, index, node);
    EvictionKeepsConsistent(Pushed(nodes, index, node), index[node.key := node], |index[node.key := node]| > limit);
  }

  class LRUCache {
    const cap: int
    var cache: seq<Node>
    var index: map<int, Node>
    ghost var history: seq<Event>

    ghost predicate Valid()
      reads this
    {
      -0x8000_0000 <= cap < 0x8000_0000 && Consistent(cache, index, history, Limit(cap))
    }

    constructor (capacity: int)
      requires -0x8000_0000 <= capacity < 0x8000_0000
      ensures Valid() && cap == capacity && cache == [] && history == []
    {
      cap, cache, index, history := capacity, [], map[], [];
    }

    method Put(key: int, value: int)
      requires Valid()
      modifies this
      ensures Valid() && history == old(history) + [Event.Put(key, value)]
      ensures KeysOf(cache) == AfterPut(old(KeysOf(cache)), key, Limit(cap))
    {
      var node := new Node(key, value);
      PutKeepsConsistent(cache, index, history, Limit(cap), node);
      PushFront(node);
      Evict();
      history := history + [Event.Put(key, value)];
    }

    method PushFront(node: Node)
      modifies this`cache, this`index
      ensures cache == Pushed(old(cache), old(index), node)
      ensures index == old(index)[node.key := node]
    {
      if node.key in index {
        cache := Erase(cache, index[node.key]);
      }
      cache := [node] + cache;
      index := index[node.key := node];
    }

    method Evict()
      requires -0x8000_0000 <= cap < 0x8000_0000 && cache != []
      modifies this`cache, this`index
      ensures cache == Kept(old(cache), |old(index)| > Limit(cap))
      ensures index == KeptIndex(old(cache), old(index), |old(index)| > Limit(cap))
    {
      if |index| > Limit(cap) {
        var lastKey := cache[|cache| - 1].key;
        cache := cache[..|cache| - 1];
        index := index - {lastKey};
      }
    }

    /** `value` keeps its old content when the key is not found. */
    method Get(key: int, current: int) returns (found: bool, value: int)
      requires Valid()
      modifies this
      ensures Valid() && history == old(history) + [if found then Hit(key) else Miss(key)]
      ensures KeysOf(cache) == AfterGet(old(KeysOf(cache)), key)
      ensures found <==> key in old(KeysOf(cache))
      ensures if found then LastPut(old(history), key) == Some(value) else value == current
    {
      ghost var nodes, h := cache, history;
      MostRecentIsDistinct(KeysOf(nodes), h, Limit(cap));
      IndexSize(cache, index);
      GetKeepsMostRecent(KeysOf(nodes), h, Limit(cap), key);
      found, value := false, current;
      if key in index {
        var node := index[key];
        FrontIndexed(cache, index, node);
        DetachedKeys(cache, index, key);
        cache := [node] + Erase(cache, node);
        assert index[key := node] == index;
        found, value := true, node.value;
      }
      history := history + [if found then Hit(key) else Miss(key)];
      forall n | n in cache ensures LastPut(history, n.key) == Some(n.value) {
        TouchAfter(h, if found then Hit(key) else Miss(key), n.key);
      }
    }
  }

  lemma RunNext(ops: seq<Op>, limit: nat, n: nat)
    requires n < |ops|
    ensures var c := Run(ops[..n], limit);
      Run(ops[..n + 1], limit) == Cache(Next(c.keys, ops[n], limit), c.history + [Outcome(c.keys, ops[n])])
  {
    assert ops[..n + 1][..n] == ops[..n];
  }

  /** A client that performs a list of operations on a fresh cache sees exactly `Run`. */
  method Perform(ops: seq<Op>, capacity: int) returns (cache: LRUCache)
    requires -0x8000_0000 <= capacity < 0x8000_0000
    ensures cache.Valid() && cache.cap == capacity
    ensures KeysOf(cache.cache) == Run(ops, Limit(capacity)).keys
    ensures cache.history == Run(ops, Limit(capacity)).history
  {
    cache := new LRUCache(capacity);
    for n := 0 to |ops|
      invariant cache.Valid() && cache.cap == capacity && fresh(cache)
      invariant Cache(KeysOf(cache.cache), cache.history) == Run(ops[..n], Limit(capacity))
    {
      RunNext(ops, Limit(capacity), n);
      match ops[n] {
        case DoPut(key, value) => cache.Put(key, value);
        case DoGet(key) => var found, value := cache.Get(key, 0);
      }
    }
    assert ops[..|ops|] == ops;
  }
}
