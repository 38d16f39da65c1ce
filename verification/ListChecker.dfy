/** The consistency checks of libevent/util-internal.h for LIST and TAILQ: Floyd's tortoise
    and hare against circular lists, then a walk that compares every back-pointer with the
    field that led to its element.

    Nothing is assumed about the pointers, except that they stay within some finite set of
    elements. */
module ListChecker {
  import opened Common

  /** Where a `type *` pointer is stored: in the head, or in an element's next field. */
  datatype Loc = Head | NextOf(elem: Elem)

  class Elem {
    var next: Elem?
    var prev: Loc
  }

  class ListHead {
    var first: Elem?
    var last: Loc  // of a tail queue only
  }

  ghost predicate Closed(head: ListHead, nodes: set<Elem>)
    reads head, nodes
  {
    && (head.first == null || head.first in nodes)
    && forall e :: e in nodes ==> e.next == null || e.next in nodes
  }

  /** The element after `n` steps, or null. */
  ghost function Nth(head: ListHead, nodes: set<Elem>, n: nat): (e: Elem?)
    requires Closed(head, nodes)
    reads head, nodes
    ensures e == null || e in nodes
  {
    if n == 0 then head.first
    else
      var before := Nth(head, nodes, n - 1);
      if before == null then null else before.next
  }

  ghost predicate Circular(head: ListHead, nodes: set<Elem>)
    requires Closed(head, nodes)
    reads head, nodes
  {
    exists i: nat, j: nat :: i < j && Nth(head, nodes, i) != null && Nth(head, nodes, i) == Nth(head, nodes, j)
  }

  /** `chain` is the whole list, front to back. */
  ghost predicate IsChain(head: ListHead, nodes: set<Elem>, chain: seq<Elem>)
    reads head, nodes
  {
    && (forall i :: 0 <= i < |chain| ==> chain[i] in nodes)
    && (forall i, j :: 0 <= i < j < |chain| ==> chain[i] != chain[j])
    && head.first == (if chain == [] then null else chain[0])
    && forall i :: 0 <= i < |chain| ==> chain[i].next == if i + 1 < |chain| then chain[i + 1] else null
  }

  /** The field that leads to place `i` of a chain, or from its end to null. */
  function LinkOf(chain: seq<Elem>, i: nat): Loc
    requires i <= |chain|
  {
    if i == 0 then Head else NextOf(chain[i - 1])
  }

  /** Every back-pointer names the field that reaches its element. */
  ghost predicate BackPointersRight(chain: seq<Elem>)
    reads chain
  {
    forall i :: 0 <= i < |chain| ==> chain[i].prev == LinkOf(chain, i)
  }


  // ----- Chains

  lemma {:induction false} NullStays(head: ListHead, nodes: set<Elem>, m: nat, n: nat)
    requires Closed(head, nodes) && m <= n && Nth(head, nodes, m) == null
    ensures Nth(head, nodes, n) == null
  {
    if m < n {
      NullStays(head, nodes, m, n - 1);
    }
  }

  /** Two equal places stay equal when both move on. */
  lemma {:induction false} EqualMoves(head: ListHead, nodes: set<Elem>, i: nat, j: nat, n: nat)
    requires Closed(head, nodes) && Nth(head, nodes, i) == Nth(head, nodes, j)
    ensures Nth(head, nodes, i + n) == Nth(head, nodes, j + n)
  {
    if n > 0 {
      EqualMoves(head, nodes, i, j, n - 1);
    }
  }

  /** A chain that comes back has the period `j - i` from `i` on, so it never ends. */
  lemma {:induction false} Period(head: ListHead, nodes: set<Elem>, i: nat, j: nat, n: nat, times: nat)
    requires Closed(head, nodes) && i < j && Nth(head, nodes, i) == Nth(head, nodes, j) && i <= n
    ensures Nth(head, nodes, n + times * (j - i)) == Nth(head, nodes, n)
  {
    if times > 0 {
      Period(head, nodes, i, j, n, times - 1);
      var before := n + (times - 1) * (j - i);
      assert n + times * (j - i) == before + (j - i);
      assert (times - 1) * (j - i) >= 0;
      EqualMoves(head, nodes, i, j, before - i);
    }
  }

  lemma AtLeast(n: nat, factor: nat)
    requires factor >= 1
    ensures n * factor >= n
  {
  }

  lemma CircularNeverEnds(head: ListHead, nodes: set<Elem>, i: nat, j: nat, n: nat)
    requires Closed(head, nodes) && i < j
    requires Nth(head, nodes, i) != null && Nth(head, nodes, i) == Nth(head, nodes, j)
    ensures Nth(head, nodes, n) != null
  {
    if Nth(head, nodes, n) == null {
      var later := i + n * (j - i);
      AtLeast(n, j - i);
      NullStays(head, nodes, n, later);
      Period(head, nodes, i, j, i, n);
    }
  }

  /** The first `n` elements. */
  ghost function Steps(head: ListHead, nodes: set<Elem>, n: nat): (s: seq<Elem>)
    requires Closed(head, nodes)
    requires n > 0 ==> Nth(head, nodes, n - 1) != null
    reads head, nodes
    ensures |s| == n && forall i :: 0 <= i < n ==> s[i] == Nth(head, nodes, i) && s[i] in nodes
  {
    if n == 0 then [] else Steps(head, nodes, n - 1) + [Nth(head, nodes, n - 1)]
  }

  /** Within as many steps as there are elements a list ends or comes back. */
  lemma EndsOrRepeats(head: ListHead, nodes: set<Elem>) returns (i: nat, j: nat)
    requires Closed(head, nodes)
    requires Nth(head, nodes, |nodes|) != null
    ensures i < j <= |nodes| && Nth(head, nodes, i) != null && Nth(head, nodes, i) == Nth(head, nodes, j)
  {
    i, j := Pigeonhole(Steps(head, nodes, |nodes| + 1), nodes);
  }

  lemma CircularIffEndless(head: ListHead, nodes: set<Elem>)
    requires Closed(head, nodes)
    ensures Circular(head, nodes) <==> Nth(head, nodes, |nodes|) != null
  {
    if Circular(head, nodes) {
      var i: nat, j: nat :|
        i < j && Nth(head, nodes, i) != null && Nth(head, nodes, i) == Nth(head, nodes, j);
      CircularNeverEnds(head, nodes, i, j, |nodes|);
    } else if Nth(head, nodes, |nodes|) != null {
      var i, j := EndsOrRepeats(head, nodes);
    }
  }

  // ----- The tortoise and the hare

  /** On a circular list the hare, twice as fast, meets the tortoise soon: at the first
      multiple of the period that lies on the cycle. */
  lemma TheyMeet(head: ListHead, nodes: set<Elem>) returns (d: nat)
    requires Closed(head, nodes) && Nth(head, nodes, |nodes|) != null
    ensures 1 <= d <= |nodes| && Nth(head, nodes, d) == Nth(head, nodes, 2 * d)
  {
    var i, j := EndsOrRepeats(head, nodes);
    var times := FirstMultiple(i, j - i);
    d := times * (j - i);
    Period(head, nodes, i, j, d, times);
  }

  lemma FirstMultiple(from: nat, period: nat) returns (times: nat)
    requires period > 0
    ensures from <= times * period <= from + period && times * period >= 1
  {
    times := from / period + 1;
    assert times * period == from / period * period + period;
    assert from / period * period == from - from % period;
  }

  lemma EndedNotCircular(head: ListHead, nodes: set<Elem>, n: nat)
    requires Closed(head, nodes) && Nth(head, nodes, n) == null
    ensures !Circular(head, nodes)
  {
    if Circular(head, nodes) {
      var i: nat, j: nat :|
        i < j && Nth(head, nodes, i) != null && Nth(head, nodes, i) == Nth(head, nodes, j);
      CircularNeverEnds(head, nodes, i, j, n);
    }
  }

  /** While the hare runs and has not met the tortoise, few rounds have passed. */
  lemma InTime(head: ListHead, nodes: set<Elem>, k: nat)
    requires Closed(head, nodes) && Nth(head, nodes, 2 * k + 1) != null
    requires forall d :: 1 <= d <= k ==> Nth(head, nodes, d) != Nth(head, nodes, 2 * d)
    ensures k < |nodes|
  {
    if k >= |nodes| {
      if Nth(head, nodes, |nodes|) == null {
        NullStays(head, nodes, |nodes|, 2 * k + 1);
      } else {
        var d := TheyMeet(head, nodes);
      }
    }
  }

  /** The first loop: true if an assertion in it fails. */
  method TortoiseAndHare(head: ListHead, ghost nodes: set<Elem>) returns (met: bool)
    requires Closed(head, nodes) && head.first != null
    ensures met <==> Circular(head, nodes)
  {
    var elm1: Elem? := head.first;
    var elm2: Elem? := head.first.next;
    ghost var k := 0;
    while elm1 != null && elm2 != null
      invariant elm1 == Nth(head, nodes, k) && elm2 == Nth(head, nodes, 2 * k + 1)
      invariant elm1 in nodes || elm1 == null
      invariant elm2 in nodes || elm2 == null
      invariant forall d :: 1 <= d <= k ==> Nth(head, nodes, d) != Nth(head, nodes, 2 * d)
      decreases |nodes| - k
    {
      InTime(head, nodes, k);
      if elm1 == elm2 {
        return true;
      }
      elm1 := elm1.next;
      elm2 := elm2.next;
      if elm2 == null {
        EndedNotCircular(head, nodes, 2 * k + 2);
        return false;
      }
      assert elm1 == Nth(head, nodes, k + 1) && elm2 == Nth(head, nodes, 2 * k + 2);
      if elm1 == elm2 {
        return true;
      }
      elm2 := elm2.next;
      k := k + 1;
    }
    EndedNotCircular(head, nodes, if elm1 == null then k else 2 * k + 1);
    met := false;
  }

  // ----- The back-pointers

  lemma ChainOf(head: ListHead, nodes: set<Elem>) returns (chain: seq<Elem>)
    requires Closed(head, nodes) && !Circular(head, nodes)
    ensures IsChain(head, nodes, chain)
  {
    CircularIffEndless(head, nodes);
    var n := 0;
    while Nth(head, nodes, n) != null
      invariant n <= |nodes|
      invariant n > 0 ==> Nth(head, nodes, n - 1) != null
      decreases |nodes| - n
    {
      n := n + 1;
    }
    chain := Steps(head, nodes, n);
    forall i | 0 <= i < n
      ensures chain[i].next == if i + 1 < n then chain[i + 1] else null
    {
      assert Nth(head, nodes, i + 1) == Nth(head, nodes, i).next;
    }
  }

  lemma {:induction false} ChainIsSteps(head: ListHead, nodes: set<Elem>, chain: seq<Elem>, n: nat)
    requires Closed(head, nodes) && IsChain(head, nodes, chain) && n <= |chain|
    ensures Nth(head, nodes, n) == if n < |chain| then chain[n] else null
  {
    if n > 0 {
      ChainIsSteps(head, nodes, chain, n - 1);
    }
  }

  /** A list is one chain at most, and none if it is circular. */
  lemma ChainIsUnique(head: ListHead, nodes: set<Elem>, a: seq<Elem>, b: seq<Elem>)
    requires Closed(head, nodes) && IsChain(head, nodes, a)
    ensures !Circular(head, nodes)
    ensures IsChain(head, nodes, b) ==> a == b
  {
    ChainIsSteps(head, nodes, a, |a|);
    EndedNotCircular(head, nodes, |a|);
    if IsChain(head, nodes, b) {
      ChainIsSteps(head, nodes, b, |b|);
      if |a| < |b| {
        ChainIsSteps(head, nodes, b, |a|);
      } else if |b| < |a| {
        ChainIsSteps(head, nodes, a, |b|);
      }
      forall n | 0 <= n < |a|
        ensures a[n] == b[n]
      {
        ChainIsSteps(head, nodes, a, n);
        ChainIsSteps(head, nodes, b, n);
      }
    }
  }

  function Deref(head: ListHead, loc: Loc): Elem?
    reads head, if loc.NextOf? then {loc.elem} else {}
  {
    match loc
    case Head => head.first
    case NextOf(elem) => elem.next
  }

  /** The second loop: false if an assertion in it fails. */
  method Walk(head: ListHead, ghost nodes: set<Elem>, ghost chain: seq<Elem>) returns (ok: bool, nextp: Loc)
    requires IsChain(head, nodes, chain)
    ensures ok <==> BackPointersRight(chain)
    ensures ok ==> nextp == LinkOf(chain, |chain|)
  {
    nextp := Head;
    var elm1: Elem? := head.first;
    ghost var k := 0;
    while elm1 != null
      invariant k <= |chain|
      invariant elm1 == if k < |chain| then chain[k] else null
      invariant nextp == LinkOf(chain, k)
      invariant forall i :: 0 <= i < k ==> chain[i].prev == LinkOf(chain, i)
      decreases |chain| - k
    {
      ghost var here := chain[k];
      if Deref(head, nextp) != elm1 {
        return false, nextp;
      }
      if nextp != elm1.prev {
        return false, nextp;
      }
      assert here.prev == LinkOf(chain, k);
      nextp := NextOf(elm1);
      elm1 := elm1.next;
      k := k + 1;
    }
    ok := true;
  }

  /** What the checks report: nothing, or the group of assertions that fails. */
  datatype Verdict = Fine | IsCircular | BadPrev | BadLast

  /** EVUTIL_ASSERT_LIST_OK passes exactly on the lists that are one finite chain without
      repetition whose back-pointers are right; and it always ends. */
  method CheckList(dlist: ListHead, ghost nodes: set<Elem>) returns (verdict: Verdict)
    requires Closed(dlist, nodes)
    ensures verdict.Fine? <==> exists chain :: IsChain(dlist, nodes, chain) && BackPointersRight(chain)
    ensures verdict.IsCircular? <==> Circular(dlist, nodes)
    ensures !verdict.BadLast?
  {
    if dlist.first == null {
      assert IsChain(dlist, nodes, []);
      EndedNotCircular(dlist, nodes, 0);
      return Fine;
    }
    var met := TortoiseAndHare(dlist, nodes);
    if met {
      if chain :| IsChain(dlist, nodes, chain) {
        ChainIsUnique(dlist, nodes, chain, chain);
      }
      return IsCircular;
    }
    ghost var chain := ChainOf(dlist, nodes);
    var ok, _ := Walk(dlist, nodes, chain);
    forall other | IsChain(dlist, nodes, other)
      ensures other == chain
    {
      ChainIsUnique(dlist, nodes, chain, other);
    }
    verdict := if ok then Fine else BadPrev;
  }

  /** EVUTIL_ASSERT_TAILQ_OK also compares the stored tail pointer with the last link,
      except on an empty queue, where it returns before looking. */
  method CheckTailq(tailq: ListHead, ghost nodes: set<Elem>) returns (verdict: Verdict)
    requires Closed(tailq, nodes)
    ensures verdict.Fine? <==> exists chain ::
        IsChain(tailq, nodes, chain) && BackPointersRight(chain) && (chain == [] || tailq.last == LinkOf(chain, |chain|))
    ensures verdict.IsCircular? <==> Circular(tailq, nodes)
    ensures verdict.BadLast? <==> exists chain ::
        IsChain(tailq, nodes, chain) && BackPointersRight(chain) && chain != [] && tailq.last != LinkOf(chain, |chain|)
  {
    if tailq.first == null {
      assert IsChain(tailq, nodes, []);
      EndedNotCircular(tailq, nodes, 0);
      return Fine;
    }
    var met := TortoiseAndHare(tailq, nodes);
    if met {
      if chain :| IsChain(tailq, nodes, chain) {
        ChainIsUnique(tailq, nodes, chain, chain);
      }
      return IsCircular;
    }
    ghost var chain := ChainOf(tailq, nodes);
    var ok, nextp := Walk(tailq, nodes, chain);
    forall other | IsChain(tailq, nodes, other)
      ensures other == chain
    {
      ChainIsUnique(tailq, nodes, chain, other);
    }
    verdict := if !ok then BadPrev else if nextp != tailq.last then BadLast else Fine;
  }

  /** An empty queue whose tail pointer leads into a stray element passes. */
  method StrayTail() returns (tailq: ListHead, verdict: Verdict)
    ensures verdict.Fine? && tailq.first == null && tailq.last != LinkOf([], 0)
  {
    tailq := new ListHead;
    tailq.first := null;
    var stray := new Elem;
    tailq.last := NextOf(stray);
    assert IsChain(tailq, {}, []);
    verdict := CheckTailq(tailq, {});
  }
}
