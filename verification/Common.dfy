/** What several of the models need: optional values, finite sets and sequences, decimal
    numerals. */
module Common {

  datatype Option<T> = None | Some(value: T)

  lemma AnElement<T>(s: set<T>) returns (x: T)
    requires s != {}
    ensures x in s
  {
    x :| x in s;
  }

  lemma SubsetSize<T>(a: set<T>, b: set<T>)
    requires a <= b
    ensures |a| <= |b| && (|a| == |b| ==> a == b)
  {
    var rest := b - a;
    assert a + rest == b;
  }

  ghost predicate NoRepeat<T>(s: seq<T>) {
    forall i, j :: 0 <= i < j < |s| ==> s[i] != s[j]
  }

  /** A sequence without repetition is as long as its set of elements. */
  lemma {:induction false} DistinctSize(s: seq<int>, elements: set<int>)
    requires NoRepeat(s)
    requires forall x :: x in elements <==> x in s
    ensures |elements| == |s|
  {
    if s == [] {
      assert forall x :: x !in elements;
    } else {
      var last := s[|s| - 1];
      forall x
        ensures x in elements - {last} <==> x in s[..|s| - 1]
      {
      }
      DistinctSize(s[..|s| - 1], elements - {last});
    }
  }

  /** More places than members: something comes twice. */
  lemma {:induction false} Pigeonhole<T>(s: seq<T>, within: set<T>) returns (i: nat, j: nat)
    requires |s| > |within| && forall k :: 0 <= k < |s| ==> s[k] in within
    ensures i < j < |s| && s[i] == s[j]
  {
    j := |s| - 1;
    if k :| 0 <= k < j && s[k] == s[j] {
      i := k;
    } else {
      i, j := Pigeonhole(s[..j], within - {s[j]});
    }
  }

  lemma ConcatAssoc<T>(a: seq<T>, b: seq<T>, c: seq<T>)
    ensures (a + b) + c == a + (b + c)
  {
  }

  function Concat(pieces: seq<string>): string {
    if pieces == [] then "" else pieces[0] + Concat(pieces[1..])
  }

  predicate IsDigit(c: char) {
    '0' <= c <= '9'
  }

  function Decimal(n: nat): string {
    if n < 10 then [('0' as int + n) as char] else Decimal(n / 10) + [('0' as int + n % 10) as char]
  }
}
