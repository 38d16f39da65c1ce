/** The inverted index of invert/: triples collected first-wins, sorted, and scanned into
    (offset, count) entries over one vector of postings; its files; and the second
    implementation of invert_table/. */
module InvertIndex {
  import opened Common

  datatype Triple = Triple(pid: int, kid: int, weight: int)

  datatype Posting = Posting(id: int, weight: int)

  datatype IndexNode = IndexNode(id: int, offset: nat, count: nat)

  // ----- The order

  /** The comparator: key ascending, weight descending, id ascending. */
  predicate Before(l: Triple, r: Triple) {
    if l.pid != r.pid then l.pid < r.pid
    else if l.weight != r.weight then l.weight > r.weight
    else l.kid < r.kid
  }

  /** A strict total order, as `std::sort` demands, in which no two triples tie. */
  lemma BeforeIsStrictTotal(a: Triple, b: Triple, c: Triple)
    ensures !Before(a, a)
    ensures Before(a, b) && Before(b, c) ==> Before(a, c)
    ensures a == b || Before(a, b) || Before(b, a)
    ensures Before(a, b) ==> !Before(b, a)
  {
  }

  predicate Sorted(v: seq<Triple>) {
    forall i, j :: 0 <= i < j < |v| ==> !Before(v[j], v[i])
  }

  function Insert(t: Triple, v: seq<Triple>): seq<Triple> {
    if v == [] then [t]
    else if Before(v[0], t) then [v[0]] + Insert(t, v[1..])
    else [t] + v
  }

  function Sort(v: seq<Triple>): seq<Triple> {
    if v == [] then [] else Insert(v[0], Sort(v[1..]))
  }

  lemma SortedCons(t: Triple, v: seq<Triple>)
    requires Sorted(v) && forall x :: x in v ==> !Before(x, t)
    ensures Sorted([t] + v)
  {
  }

  lemma SortedHead(v: seq<Triple>)
    requires Sorted(v) && v != []
    ensures Sorted(v[1..]) && forall x :: x in v[1..] ==> !Before(x, v[0])
  {
  }

  lemma {:induction false} InsertMembers(t: Triple, v: seq<Triple>)
    ensures multiset(Insert(t, v)) == multiset{t} + multiset(v)
  {
    if v != [] {
      assert v == [v[0]] + v[1..];
      if Before(v[0], t) {
        InsertMembers(t, v[1..]);
      }
    }
  }

  lemma {:induction false} InsertKeepsSorted(t: Triple, v: seq<Triple>)
    requires Sorted(v)
    ensures Sorted(Insert(t, v))
  {
    if v != [] {
      SortedHead(v);
      if Before(v[0], t) {
        InsertKeepsSorted(t, v[1..]);
        InsertMembers(t, v[1..]);
        forall x | x in Insert(t, v[1..]) ensures !Before(x, v[0]) {
          assert x in multiset(Insert(t, v[1..]));
        }
        SortedCons(v[0], Insert(t, v[1..]));
      } else {
        forall x | x in v ensures !Before(x, t) {
          BeforeIsStrictTotal(x, t, v[0]);
          BeforeIsStrictTotal(x, v[0], t);
          assert x == v[0] || x in v[1..];
        }
        SortedCons(t, v);
      }
    }
  }

  lemma {:induction false} SortSorts(v: seq<Triple>)
    ensures Sorted(Sort(v)) && multiset(Sort(v)) == multiset(v)
  {
    if v != [] {
      SortSorts(v[1..]);
      InsertMembers(v[0], Sort(v[1..]));
      InsertKeepsSorted(v[0], Sort(v[1..]));
      assert v == [v[0]] + v[1..];
    }
  }

  lemma SameHead(v: seq<Triple>, w: seq<Triple>)
    requires Sorted(v) && Sorted(w) && multiset(v) == multiset(w) && v != []
    ensures w != [] && v[0] == w[0]
  {
    assert v[0] in multiset(w);
    assert w[0] in multiset(v);
    var i :| 0 <= i < |w| && w[i] == v[0];
    var j :| 0 <= j < |v| && v[j] == w[0];
    BeforeIsStrictTotal(v[0], w[0], w[0]);
  }

  lemma TailMultiset(v: seq<Triple>)
    requires v != []
    ensures multiset(v[1..]) == multiset(v) - multiset{v[0]}
  {
    assert v == [v[0]] + v[1..];
  }

  /** A multiset of triples can be sorted in one way only, so it does not matter which
      algorithm `std::sort` uses, nor in which order the triples came. */
  lemma {:induction false} SortedIsUnique(v: seq<Triple>, w: seq<Triple>)
    requires Sorted(v) && Sorted(w) && multiset(v) == multiset(w)
    ensures v == w
  {
    assert |v| == |multiset(v)| == |multiset(w)| == |w|;
    if v != [] {
      SameHead(v, w);
      TailMultiset(v);
      TailMultiset(w);
      SortedHead(v);
      SortedHead(w);
      SortedIsUnique(v[1..], w[1..]);
      assert v == [v[0]] + v[1..] && w == [w[0]] + w[1..];
    }
  }

  // ----- What the index must contain

  /** The postings under a key, in the order of the vector. */
  function PostingsOf(v: seq<Triple>, pid: int): seq<Posting> {
    if v == [] then []
    else
      PostingsOf(v[..|v| - 1], pid) +
      (var t := v[|v| - 1]; if t.pid == pid then [Posting(t.kid, t.weight)] else [])
  }

  predicate HasKey(v: seq<Triple>, pid: int) {
    exists i :: 0 <= i < |v| && v[i].pid == pid
  }

  predicate HasPair(v: seq<Triple>, pid: int, kid: int) {
    exists i :: 0 <= i < |v| && v[i].pid == pid && v[i].kid == kid
  }

  /** The calls that `addTriple` keeps: the first for each key and id. */
  function FirstWins(calls: seq<Triple>): seq<Triple> {
    if calls == [] then []
    else
      var before, t := calls[..|calls| - 1], calls[|calls| - 1];
      FirstWins(before) + (if HasPair(before, t.pid, t.kid) then [] else [t])
  }

  function FirstWeight(calls: seq<Triple>, pid: int, kid: int): Option<int> {
    if calls == [] then None
    else
      var t := calls[|calls| - 1];
      var earlier := FirstWeight(calls[..|calls| - 1], pid, kid);
      if earlier.Some? then earlier
      else if t.pid == pid && t.kid == kid then Some(t.weight)
      else None
  }

  predicate Earlier(l: Posting, r: Posting) {
    l.weight > r.weight || (l.weight == r.weight && l.id < r.id)
  }

  /** The specification of a lookup: each id under the key once, with the weight first
      added, by weight descending and then id ascending. */
  ghost predicate IsAnswer(postings: seq<Posting>, calls: seq<Triple>, pid: int) {
    && (forall p :: p in postings <==> FirstWeight(calls, pid, p.id) == Some(p.weight))
    && (forall i, j :: 0 <= i < j < |postings| ==> Earlier(postings[i], postings[j]))
  }

  lemma TailMember(a: seq<Posting>, p: Posting)
    requires a != [] && forall i, j :: 0 <= i < j < |a| ==> Earlier(a[i], a[j])
    ensures p in a[1..] <==> p in a && p != a[0]
  {
    if p in a[1..] {
      var i :| 0 <= i < |a[1..]| && a[1..][i] == p;
      assert Earlier(a[0], a[i + 1]);
    }
  }

  lemma HasMember(a: seq<Posting>)
    ensures a != [] ==> exists p :: p in a
  {
    if a != [] {
      assert a[0] in a;
    }
  }

  /** It leaves no freedom. */
  lemma {:induction false} AnswerIsUnique(a: seq<Posting>, b: seq<Posting>)
    requires forall p :: p in a <==> p in b
    requires forall i, j :: 0 <= i < j < |a| ==> Earlier(a[i], a[j])
    requires forall i, j :: 0 <= i < j < |b| ==> Earlier(b[i], b[j])
    ensures a == b
  {
    HasMember(b);
    if a != [] {
      assert a[0] in b && b != [];
      assert b[0] in a;
      assert a[0] == b[0];
      forall p ensures p in a[1..] <==> p in b[1..] {
        TailMember(a, p);
        TailMember(b, p);
      }
      AnswerIsUnique(a[1..], b[1..]);
    }
  }

  // ----- From the calls to the sorted vector

  lemma {:induction false} FirstWinsMeaning(calls: seq<Triple>, pid: int, kid: int, weight: int)
    ensures Triple(pid, kid, weight) in FirstWins(calls) <==> FirstWeight(calls, pid, kid) == Some(weight)
    ensures FirstWeight(calls, pid, kid).Some? <==> HasPair(calls, pid, kid)
  {
    if calls != [] {
      var before, t := calls[..|calls| - 1], calls[|calls| - 1];
      FirstWinsMeaning(before, pid, kid, weight);
      if HasPair(before, pid, kid) {
        var i :| 0 <= i < |before| && before[i].pid == pid && before[i].kid == kid;
        assert calls[i] == before[i];
      }
      assert calls == before + [t];
    }
  }

  lemma {:induction false} FirstWinsOnce(calls: seq<Triple>, t: Triple)
    ensures multiset(FirstWins(calls))[t] <= 1
  {
    if calls != [] {
      var before, last := calls[..|calls| - 1], calls[|calls| - 1];
      FirstWinsOnce(before, t);
      FirstWinsMeaning(before, t.pid, t.kid, t.weight);
      if last == t && !HasPair(before, t.pid, t.kid) {
        assert t !in multiset(FirstWins(before));
      }
    }
  }

  lemma {:induction false} PostingsMember(v: seq<Triple>, pid: int, p: Posting)
    ensures p in PostingsOf(v, pid) <==> Triple(pid, p.id, p.weight) in v
  {
    if v != [] {
      PostingsMember(v[..|v| - 1], pid, p);
      assert v == v[..|v| - 1] + [v[|v| - 1]];
    }
  }

  lemma KeyMember(v: seq<Triple>, w: seq<Triple>, pid: int)
    requires multiset(v) == multiset(w) && HasKey(v, pid)
    ensures HasKey(w, pid)
  {
    var i :| 0 <= i < |v| && v[i].pid == pid;
    assert v[i] in multiset(w);
    var j :| 0 <= j < |w| && w[j] == v[i];
  }

  lemma TwiceCounts(v: seq<Triple>, i: nat, j: nat)
    requires i < j < |v| && v[i] == v[j]
    ensures multiset(v)[v[i]] >= 2
  {
    assert v == v[..i] + [v[i]] + v[i + 1..];
    assert v[i + 1..][j - i - 1] == v[j];
  }

  /** In a sorted vector the postings of a key come by weight descending, id ascending. */
  lemma {:induction false} PostingsOrdered(v: seq<Triple>, pid: int)
    requires forall i, j :: 0 <= i < j < |v| ==> Before(v[i], v[j])
    ensures forall i, j :: 0 <= i < j < |PostingsOf(v, pid)| ==> Earlier(PostingsOf(v, pid)[i], PostingsOf(v, pid)[j])
  {
    if v != [] {
      var before, t := v[..|v| - 1], v[|v| - 1];
      PostingsOrdered(before, pid);
      forall p | p in PostingsOf(before, pid) && t.pid == pid ensures Earlier(p, Posting(t.kid, t.weight)) {
        PostingsMember(before, pid, p);
        var i :| 0 <= i < |before| && before[i] == Triple(pid, p.id, p.weight);
        assert Before(v[i], t);
      }
    }
  }

  /** The sorted first-wins vector holds, key by key, exactly the specified answers. */
  lemma SortedHoldsAnswers(calls: seq<Triple>, v: seq<Triple>, pid: int)
    requires Sorted(v) && multiset(v) == multiset(FirstWins(calls))
    ensures IsAnswer(PostingsOf(v, pid), calls, pid)
    ensures HasKey(v, pid) <==> HasKey(calls, pid)
  {
    forall t: Triple ensures multiset(v)[t] <= 1 {
      FirstWinsOnce(calls, t);
    }
    forall i, j | 0 <= i < j < |v| ensures Before(v[i], v[j]) {
      if v[i] == v[j] { TwiceCounts(v, i, j); }
      BeforeIsStrictTotal(v[i], v[j], v[j]);
    }
    PostingsOrdered(v, pid);
    forall p ensures p in PostingsOf(v, pid) <==> FirstWeight(calls, pid, p.id) == Some(p.weight) {
      PostingsMember(v, pid, p);
      FirstWinsMeaning(calls, pid, p.id, p.weight);
      assert Triple(pid, p.id, p.weight) in multiset(v) <==> Triple(pid, p.id, p.weight) in multiset(FirstWins(calls));
    }
    if HasKey(v, pid) {
      KeyMember(v, FirstWins(calls), pid);
    }
    FirstWinsKeys(calls, pid);
    if HasKey(calls, pid) {
      KeyMember(FirstWins(calls), v, pid);
    }
  }

  lemma {:induction false} FirstWinsKeys(calls: seq<Triple>, pid: int)
    ensures HasKey(FirstWins(calls), pid) <==> HasKey(calls, pid)
  {
    if k: nat :| k < |FirstWins(calls)| && FirstWins(calls)[k].pid == pid {
      var t := FirstWins(calls)[k];
      FirstWinsMeaning(calls, pid, t.kid, t.weight);
      var i :| 0 <= i < |calls| && calls[i].pid == pid && calls[i].kid == t.kid;
    }
    if k: nat :| k < |calls| && calls[k].pid == pid {
      FirstWinsMeaning(calls, pid, calls[k].kid, 0);
      assert HasPair(calls, pid, calls[k].kid);
      var w := FirstWeight(calls, pid, calls[k].kid).value;
      FirstWinsMeaning(calls, pid, calls[k].kid, w);
      var j :| 0 <= j < |FirstWins(calls)| && FirstWins(calls)[j] == Triple(pid, calls[k].kid, w);
    }
  }

  // ----- The entries

  function All(v: seq<Triple>): seq<Posting> {
    seq(|v|, i requires 0 <= i < |v| => Posting(v[i].kid, v[i].weight))
  }

  /** Entry `node` covers exactly the positions of its key. */
  ghost predicate Covers(node: IndexNode, v: seq<Triple>) {
    node.count > 0 && node.offset + node.count <= |v| &&
    forall i :: 0 <= i < |v| ==> (v[i].pid == node.id <==> node.offset <= i < node.offset + node.count)
  }

  /** The entries partition the vector: one for each key, covering exactly its positions. */
  ghost predicate Indexes(m: map<int, IndexNode>, v: seq<Triple>) {
    && (forall pid :: pid in m <==> HasKey(v, pid))
    && (forall pid :: pid in m ==> m[pid].id == pid && Covers(m[pid], v))
  }

  lemma {:induction false} SegmentPostings(v: seq<Triple>, pid: int, lo: nat, hi: nat)
    requires lo <= hi <= |v| && forall i :: 0 <= i < |v| ==> (v[i].pid == pid <==> lo <= i < hi)
    ensures PostingsOf(v, pid) == All(v)[lo..hi]
  {
    if v != [] {
      var before := v[..|v| - 1];
      assert All(v) == All(before) + [Posting(v[|v| - 1].kid, v[|v| - 1].weight)];
      if lo < hi == |v| {
        SegmentPostings(before, pid, lo, hi - 1);
      } else if lo == hi {
        SegmentPostings(before, pid, 0, 0);
      } else {
        SegmentPostings(before, pid, lo, hi);
      }
    }
  }

  /** Saving the entry of the run that has just ended extends the index to it. */
  lemma RunEnds(m: map<int, IndexNode>, v: seq<Triple>, node: IndexNode, n: nat)
    requires Sorted(v) && n <= |v| && node.offset + node.count == n && node.count > 0
    requires Indexes(m, v[..node.offset])
    requires forall i :: 0 <= i < n ==> (v[i].pid == node.id <==> node.offset <= i)
    ensures Indexes(m[node.id := node], v[..n])
  {
    var before, upto := v[..node.offset], v[..n];
    forall i | 0 <= i < node.offset ensures before[i] == upto[i] == v[i] {
    }
    var m' := m[node.id := node];
    forall pid ensures pid in m' <==> HasKey(upto, pid) {
      if pid == node.id {
        assert upto[node.offset].pid == pid;
      } else {
        if i :| 0 <= i < |upto| && upto[i].pid == pid {
          assert before[i].pid == pid;
        }
        if i :| 0 <= i < |before| && before[i].pid == pid {
          assert upto[i].pid == pid;
        }
      }
    }
    forall pid | pid in m' && pid != node.id ensures m'[pid].id == pid && Covers(m'[pid], upto) {
      assert Covers(m[pid], before);
    }
  }

  /** Entries of one vector: what lies behind them is a lookup's answer. */
  lemma EntryHoldsPostings(m: map<int, IndexNode>, v: seq<Triple>, pid: int)
    requires Indexes(m, v) && pid in m
    ensures var n := m[pid];
      n.offset + n.count <= |All(v)| && PostingsOf(v, pid) == All(v)[n.offset..n.offset + n.count]
  {
    SegmentPostings(v, pid, m[pid].offset, m[pid].offset + m[pid].count);
  }

  /** The postings an entry names in a vector. */
  function Slice(vec: seq<Posting>, node: IndexNode): seq<Posting> {
    if node.offset + node.count <= |vec| then vec[node.offset..node.offset + node.count] else []
  }

  lemma SliceOfPrefix(prefix: seq<Posting>, vec: seq<Posting>, node: IndexNode)
    requires prefix <= vec && node.offset + node.count <= |prefix|
    ensures Slice(vec, node) == Slice(prefix, node)
  {
    assert vec[..|prefix|] == prefix;
    assert vec[node.offset..node.offset + node.count] == vec[..|prefix|][node.offset..node.offset + node.count];
  }

  // ----- Files

  lemma SameMap(m: map<int, IndexNode>, n: map<int, IndexNode>)
    requires forall k :: k in m ==> k in n && n[k] == m[k]
    requires forall k :: k in n ==> k in m
    ensures m == n
  {
    assert forall k :: k in m <==> k in n;
    forall k | k in m ensures m[k] == n[k] {
    }
  }

  /** The two files of a directory, record by record. */
  class Directory {
    var index: seq<IndexNode>
    var invert: seq<Posting>

    constructor ()
    {
      index, invert := [], [];
    }
  }

  /** The records of an index file, in whatever order the hash map was walked. */
  ghost predicate Enumerates(file: seq<IndexNode>, m: map<int, IndexNode>) {
    && (forall r :: r in file ==> r.id in m && m[r.id] == r)
    && (forall pid :: pid in m ==> m[pid] in file)
  }

  /** A map after reading an index file into it. */
  function Loaded(m: map<int, IndexNode>, file: seq<IndexNode>): map<int, IndexNode> {
    if file == [] then m
    else
      var before, p := Loaded(m, file[..|file| - 1]), file[|file| - 1];
      if p.count != 0 then before[p.id := p] else before
  }

  lemma {:induction false} LoadedEntry(before: map<int, IndexNode>, file: seq<IndexNode>, m: map<int, IndexNode>, pid: int)
    requires forall r :: r in file ==> r.id in m && m[r.id] == r && r.count > 0
    ensures pid in Loaded(before, file) <==> pid in before || exists r :: r in file && r.id == pid
    ensures (exists r :: r in file && r.id == pid) ==> Loaded(before, file)[pid] == m[pid]
    ensures pid in before && !(exists r :: r in file && r.id == pid) ==> Loaded(before, file)[pid] == before[pid]
  {
    if file != [] {
      var rest, p := file[..|file| - 1], file[|file| - 1];
      assert file == rest + [p];
      LoadedEntry(before, rest, m, pid);
      if p.id == pid {
        assert p in file;
      }
    }
  }

  /** Reading the records of a map in any order adds the map, overriding what was there. */
  lemma RecordsAreRead(before: map<int, IndexNode>, file: seq<IndexNode>, m: map<int, IndexNode>)
    requires Enumerates(file, m) && forall pid :: pid in m ==> m[pid].id == pid && m[pid].count > 0
    ensures Loaded(before, file) == before + m
  {
    forall pid
      ensures pid in Loaded(before, file) <==> pid in before + m
      ensures pid in before + m ==> Loaded(before, file)[pid] == (before + m)[pid]
    {
      LoadedEntry(before, file, m, pid);
      if pid in m {
        assert m[pid] in file && m[pid].id == pid;
      }
    }
    SameMap(Loaded(before, file), before + m);
  }

  /** `std::sort`: some sorted rearrangement of the vector. */
  method StdSort(v: seq<Triple>) returns (sorted: seq<Triple>)
    ensures Sorted(sorted) && multiset(sorted) == multiset(v)
  {
    SortSorts(v);
    sorted := Sort(v);
  }

  class InvertTable {
    const useCached: bool
    var indexMap: map<int, IndexNode>
    var invertVec: seq<Posting>
    var files: Directory?   // where the open invert file lives; null while none is open
    ghost var vector: seq<Triple>  // the sorted vector the entries refer to

    constructor (useCache: bool)
      ensures useCached == useCache && Empty()
    {
      useCached, indexMap, invertVec, files, vector := useCache, map[], [], null, [];
    }

    predicate Empty()
      reads this
    {
      indexMap == map[] && invertVec == [] && files == null
    }

    /** Lookups on this table answer from `vector`. */
    ghost predicate Ready()
      reads this, files
    {
      && Indexes(indexMap, vector)
      && (if useCached then invertVec == All(vector)
          else files != null && files.invert == All(vector))
    }

    /** The sorted vector is scanned once; each run of equal keys becomes an entry. */
    method CreateInvertTable(infoVec: seq<Triple>)
      requires indexMap == map[]
      modifies this`indexMap, this`invertVec, this`vector
      ensures Sorted(vector) && multiset(vector) == multiset(infoVec)
      ensures Indexes(indexMap, vector) && invertVec == old(invertVec) + All(vector)
    {
      var cnt := |infoVec|;
      vector := infoVec;
      if cnt == 0 { return; }
      var v := StdSort(infoVec);
      vector := v;
      assert |v| == |multiset(v)| == |multiset(infoVec)| == cnt;
      var node := IndexNode(v[0].pid, 0, 0);
      assert v[..0] == [];
      for i := 0 to cnt
        invariant vector == v && node.offset + node.count == i && (i > 0 ==> node.count > 0)
        invariant Indexes(indexMap, v[..node.offset])
        invariant forall k :: 0 <= k < i ==> (v[k].pid == node.id <==> node.offset <= k)
        invariant i == 0 ==> node == IndexNode(v[0].pid, 0, 0)
        invariant invertVec == old(invertVec) + All(v[..i])
      {
        if node.id != v[i].pid {
          RunEnds(indexMap, v, node, i);
          indexMap := indexMap[node.id := node];
          assert !Before(v[i], v[i - 1]);
          forall k | 0 <= k < i ensures v[k].pid != v[i].pid {
            assert k < i - 1 ==> !Before(v[i - 1], v[k]);
          }
          node := IndexNode(v[i].pid, i, 0);
        }
        node := node.(count := node.count + 1);
        assert All(v[..i + 1]) == All(v[..i]) + [Posting(v[i].kid, v[i].weight)];
        invertVec := invertVec + [Posting(v[i].kid, v[i].weight)];
      }
      RunEnds(indexMap, v, node, cnt);
      indexMap := indexMap[node.id := node];
      assert v[..cnt] == v;
    }

    method WriteIndex(dir: Directory)
      requires forall pid :: pid in indexMap ==> indexMap[pid].id == pid
      modifies dir`index
      ensures Enumerates(dir.index, indexMap)
    {
      dir.index := [];
      var rest := indexMap.Keys;
      while rest != {}
        invariant rest <= indexMap.Keys
        invariant forall r :: r in dir.index ==> r.id in indexMap && indexMap[r.id] == r
        invariant forall pid :: pid in indexMap.Keys - rest ==> indexMap[pid] in dir.index
        decreases rest
      {
        ghost var some := AnElement(rest);
        var pid :| pid in rest;
        dir.index := dir.index + [indexMap[pid]];
        rest := rest - {pid};
      }
    }

    /** Record by record into the map; records with a zero count are skipped. */
    method ReadIndex(dir: Directory)
      modifies this`indexMap
      ensures indexMap == Loaded(old(indexMap), dir.index)
    {
      for i := 0 to |dir.index|
        invariant indexMap == Loaded(old(indexMap), dir.index[..i])
      {
        assert dir.index[..i + 1][..i] == dir.index[..i];
        var p := dir.index[i];
        if p.count != 0 {
          indexMap := indexMap[p.id := p];
        }
      }
      assert dir.index[..|dir.index|] == dir.index;
    }

    method WriteInvert(dir: Directory)
      modifies dir`invert
      ensures dir.invert == invertVec
    {
      dir.invert := invertVec;
    }

    /** An empty file cannot be mapped; otherwise its records go in front of the vector. */
    method ReadInvert(dir: Directory) returns (ok: bool)
      modifies this`invertVec
      ensures ok == (dir.invert != [])
      ensures invertVec == dir.invert + old(invertVec)
    {
      ok := dir.invert != [];
      invertVec := dir.invert + invertVec;
    }

    /** Build the index, write what has to be written. The vector is not cleared first, so
        only an empty one makes the table answer from the new data. */
    method Create(vec: seq<Triple>, dir: Directory, persistent: bool)
      modifies this, dir
      ensures Sorted(vector) && multiset(vector) == multiset(vec) && Indexes(indexMap, vector)
      ensures useCached ==> invertVec == old(invertVec) + All(vector)
      ensures old(invertVec) == [] ==> Ready()
      ensures !useCached ==> invertVec == []
      ensures persistent ==> Enumerates(dir.index, indexMap) && dir.invert == old(invertVec) + All(vector)
    {
      indexMap, files := map[], null;
      CreateInvertTable(vec);
      if persistent {
        WriteIndex(dir);
        WriteInvert(dir);
      } else if !useCached {
        WriteInvert(dir);
      }
      if !useCached {
        invertVec := [];
        files := dir;
      }
    }

    /** Load the files of a directory on top of what the table holds. If they are those of a
        map `m` and a vector `v`, the table answers from `v` for every key of `m`, and for
        nothing else if it was empty. */
    method Load(dir: Directory, ghost m: map<int, IndexNode>, ghost v: seq<Triple>) returns (ok: bool)
      modifies this
      ensures ok <==> !useCached || dir.invert != []
      ensures indexMap == Loaded(old(indexMap), dir.index)
      ensures invertVec == if useCached then dir.invert + old(invertVec) else old(invertVec)
      ensures files == if useCached then old(files) else dir
      ensures Enumerates(dir.index, m) && Indexes(m, v) && dir.invert == All(v) ==>
        forall pid :: pid in m ==> InRange(pid) && Answer(pid) == (true, PostingsOf(v, pid))
      ensures old(Empty()) && Enumerates(dir.index, m) && Indexes(m, v) && dir.invert == All(v) ==>
        Ready() && vector == v && indexMap == m
    {
      vector := v;
      ReadIndex(dir);
      if useCached {
        ok := ReadInvert(dir);
      } else {
        files := dir;
        ok := true;
      }
      if Enumerates(dir.index, m) && Indexes(m, v) && dir.invert == All(v) {
        RecordsAreRead(old(indexMap), dir.index, m);
        forall pid | pid in m
          ensures InRange(pid) && Answer(pid) == (true, PostingsOf(v, pid))
        {
          AnswersFromFront(m, v, pid);
        }
        assert map[] + m == m;
      }
    }

    lemma AnswersFromFront(m: map<int, IndexNode>, v: seq<Triple>, pid: int)
      requires Indexes(m, v) && pid in m && pid in indexMap && indexMap[pid] == m[pid]
      requires if useCached then All(v) <= invertVec else files != null && files.invert == All(v)
      ensures InRange(pid) && Answer(pid) == (true, PostingsOf(v, pid))
    {
      EntryHoldsPostings(m, v, pid);
      if useCached {
        SliceOfPrefix(All(v), invertVec, m[pid]);
      }
    }

    /** The entry's postings exist: a cached table indexes its vector unchecked, an uncached
        one needs its file. */
    ghost predicate InRange(index: int)
      reads this
    {
      index in indexMap ==>
        if useCached then
          indexMap[index].offset < |invertVec| ==> indexMap[index].offset + indexMap[index].count <= |invertVec|
        else files != null
    }

    /** What a lookup yields in any state. */
    ghost function Answer(index: int): (bool, seq<Posting>)
      requires InRange(index)
      reads this, files
    {
      if index !in indexMap then (false, [])
      else
        var n := indexMap[index];
        if useCached then (n.offset < |invertVec|, Slice(invertVec, n))
        else (n.count == 0 || n.offset + n.count <= |files.invert|, Slice(files.invert, n))
    }

    /** The postings of a key, from the cached vector or by reading `cnt` records at the
        entry's offset in the open file. */
    method GetInvertInfo(index: int) returns (ok: bool, postings: seq<Posting>)
      requires InRange(index)
      ensures (ok, postings) == Answer(index)
      ensures Ready() ==> (ok <==> HasKey(vector, index))
      ensures Ready() ==> postings == PostingsOf(vector, index)
    {
      if Ready() {
        ReadyAnswers(index);
      }
      if index !in indexMap {
        return false, [];
      }
      var cnt := indexMap[index].count;
      var offset := indexMap[index].offset;
      if !useCached {
        ok, postings := ReadRecords(offset, cnt);
        return;
      }
      if offset >= |invertVec| {
        assert Slice(invertVec, indexMap[index]) == [];
        return false, [];
      }
      return true, invertVec[offset..offset + cnt];
    }

    lemma ReadyAnswers(index: int)
      requires Ready()
      ensures InRange(index) && Answer(index) == (HasKey(vector, index), PostingsOf(vector, index))
    {
      if index in indexMap {
        AnswersFromFront(indexMap, vector, index);
      } else {
        NoPostings(vector, index);
      }
    }

    /** After `Create` on a cached table that held `before`: every lookup of an added key is
        right if and only if the new postings also begin the combined vector. */
    lemma LookupsAreRight(before: seq<Posting>)
      requires useCached && Indexes(indexMap, vector) && invertVec == before + All(vector)
      ensures All(vector) <= invertVec <==>
        forall pid :: pid in indexMap ==> InRange(pid) && Answer(pid) == (true, PostingsOf(vector, pid))
    {
      forall pid | pid in indexMap
        ensures InRange(pid) && Answer(pid) == (true, Slice(invertVec, indexMap[pid]))
      {
        assert Covers(indexMap[pid], vector);
      }
      ReuseIsRight(before, indexMap, vector);
    }

    /** Seek, then read; a short read is a failure. */
    method ReadRecords(offset: nat, cnt: nat) returns (ok: bool, postings: seq<Posting>)
      requires files != null
      ensures ok <==> cnt == 0 || offset + cnt <= |files.invert|
      ensures postings == if offset + cnt <= |files.invert| then files.invert[offset..offset + cnt] else []
    {
      var rest := if offset <= |files.invert| then files.invert[offset..] else [];
      var read := if cnt <= |rest| then rest[..cnt] else rest;
      if |read| != cnt {
        return false, [];
      }
      assert cnt > 0 ==> read == files.invert[offset..offset + cnt];
      return true, read;
    }
  }

  // ----- The creator

  /** The pairs that have been added. */
  ghost predicate Filters(pairs: set<(int, int)>, calls: seq<Triple>) {
    forall pid, kid :: (pid, kid) in pairs <==> HasPair(calls, pid, kid)
  }

  class InvertCreator {
    var tripleVec: seq<Triple>
    var filterSet: set<(int, int)>
    ghost var calls: seq<Triple>

    ghost predicate Valid()
      reads this
    {
      tripleVec == FirstWins(calls) && Filters(filterSet, calls)
    }

    constructor ()
      ensures Valid() && calls == []
    {
      tripleVec, filterSet, calls := [], {}, [];
    }

    method AddTriple(pid: int, kid: int, weight: int)
      requires Valid()
      modifies this
      ensures Valid() && calls == old(calls) + [Triple(pid, kid, weight)]
    {
      var t := Triple(pid, kid, weight);
      var key := (pid, kid);
      PairsAfter(calls, t);
      assert (calls + [t])[..|calls|] == calls;
      if key !in filterSet {
        filterSet := filterSet + {key};
        tripleVec := tripleVec + [t];
      }
      calls := calls + [t];
    }

    /** Build the table; on a fresh one, lookups then give the specified answers. */
    method Create(table: InvertTable, dir: Directory, persistent: bool)
      requires Valid() && table.invertVec == []
      modifies table, dir
      ensures table.Ready() && Answers(table.vector, calls) && multiset(table.vector) == multiset(FirstWins(calls))
      ensures persistent ==> Enumerates(dir.index, table.indexMap) && dir.invert == All(table.vector)
    {
      table.Create(tripleVec, dir, persistent);
      forall pid ensures IsAnswer(PostingsOf(table.vector, pid), calls, pid) &&
                         (HasKey(table.vector, pid) <==> HasKey(calls, pid))
      {
        SortedHoldsAnswers(calls, table.vector, pid);
      }
    }
  }

  ghost predicate Answers(v: seq<Triple>, calls: seq<Triple>) {
    forall pid :: IsAnswer(PostingsOf(v, pid), calls, pid) && (HasKey(v, pid) <==> HasKey(calls, pid))
  }

  lemma PairsAfter(calls: seq<Triple>, t: Triple)
    ensures forall pid, kid :: HasPair(calls + [t], pid, kid) <==> HasPair(calls, pid, kid) || (t.pid == pid && t.kid == kid)
  {
    forall pid, kid ensures HasPair(calls + [t], pid, kid) <==> HasPair(calls, pid, kid) || (t.pid == pid && t.kid == kid) {
      var all := calls + [t];
      if i :| 0 <= i < |calls| && calls[i].pid == pid && calls[i].kid == kid {
        assert all[i] == calls[i];
      }
      assert all[|calls|] == t;
    }
  }

  // ----- What follows about whole tables

  /** The vector determines the entries. */
  lemma IndexIsUnique(m: map<int, IndexNode>, m': map<int, IndexNode>, v: seq<Triple>)
    requires Indexes(m, v) && Indexes(m', v)
    ensures m == m'
  {
    assert forall pid :: pid in m <==> pid in m';
    forall pid | pid in m ensures m[pid] == m'[pid] {
      var n, n' := m[pid], m'[pid];
      assert v[n.offset].pid == pid && v[n.offset + n.count - 1].pid == pid;
      assert v[n'.offset].pid == pid && v[n'.offset + n'.count - 1].pid == pid;
    }
  }

  /** Permuting the triples changes neither the vector nor the entries. */
  lemma PermutationGivesSameTable(a: seq<Triple>, b: seq<Triple>,
                                  v: seq<Triple>, m: map<int, IndexNode>, w: seq<Triple>, n: map<int, IndexNode>)
    requires multiset(a) == multiset(b)
    requires Sorted(v) && multiset(v) == multiset(a) && Indexes(m, v)
    requires Sorted(w) && multiset(w) == multiset(b) && Indexes(n, w)
    ensures v == w && m == n
  {
    SortedIsUnique(v, w);
    IndexIsUnique(m, n, v);
  }

  /** Every position belongs to exactly one entry. */
  lemma EntriesPartition(m: map<int, IndexNode>, v: seq<Triple>, i: nat)
    requires Indexes(m, v) && i < |v|
    ensures v[i].pid in m && m[v[i].pid].offset <= i < m[v[i].pid].offset + m[v[i].pid].count
    ensures forall pid :: pid in m && m[pid].offset <= i < m[pid].offset + m[pid].count ==> pid == v[i].pid
  {
    assert HasKey(v, v[i].pid);
  }

  /** `Create` on a cached table that already holds postings appends behind them while the
      entries count from zero: the answers are right exactly when the new postings also
      begin the combined vector. */
  lemma ReuseIsRight(before: seq<Posting>, m: map<int, IndexNode>, v: seq<Triple>)
    requires Indexes(m, v)
    ensures All(v) <= before + All(v) <==>
      forall pid :: pid in m ==> Slice(before + All(v), m[pid]) == PostingsOf(v, pid)
  {
    if All(v) <= before + All(v) {
      forall pid | pid in m
        ensures Slice(before + All(v), m[pid]) == PostingsOf(v, pid)
      {
        EntryHoldsPostings(m, v, pid);
        SliceOfPrefix(All(v), before + All(v), m[pid]);
      }
    }
    if forall pid :: pid in m ==> Slice(before + All(v), m[pid]) == PostingsOf(v, pid) {
      forall i | 0 <= i < |v|
        ensures (before + All(v))[i] == All(v)[i]
      {
        var n := EntryOf(m, v, i);
        SameSlice(before + All(v), All(v), n, i);
      }
    }
  }

  lemma EntryOf(m: map<int, IndexNode>, v: seq<Triple>, i: nat) returns (n: IndexNode)
    requires Indexes(m, v) && i < |v|
    ensures v[i].pid in m && n == m[v[i].pid] && n.offset <= i < n.offset + n.count <= |v|
    ensures PostingsOf(v, v[i].pid) == Slice(All(v), n)
  {
    EntriesPartition(m, v, i);
    EntryHoldsPostings(m, v, v[i].pid);
    n := m[v[i].pid];
  }

  lemma SameSlice(a: seq<Posting>, b: seq<Posting>, n: IndexNode, i: nat)
    requires n.offset <= i < n.offset + n.count <= |a| && n.offset + n.count <= |b|
    requires a[n.offset..n.offset + n.count] == b[n.offset..n.offset + n.count]
    ensures a[i] == b[i]
  {
    assert a[i] == a[n.offset..n.offset + n.count][i - n.offset];
    assert b[i] == b[n.offset..n.offset + n.count][i - n.offset];
  }

  /** A table that is created twice, and what it then answers. */
  method CreateTwice(first: seq<Triple>, second: seq<Triple>, pid: int)
      returns (ok: bool, postings: seq<Posting>, ghost v: seq<Triple>, ghost w: seq<Triple>, ghost m: map<int, IndexNode>)
    ensures Sorted(v) && multiset(v) == multiset(first) && Sorted(w) && multiset(w) == multiset(second)
    ensures Indexes(m, w)
    ensures ok <==> HasKey(second, pid)
    ensures ok ==> pid in m && postings == Slice(All(v) + All(w), m[pid])
  {
    var dir := new Directory();
    var table := new InvertTable(true);
    table.Create(first, dir, false);
    v := table.vector;
    table.Create(second, dir, false);
    w, m := table.vector, table.indexMap;
    SameKeys(w, second, pid);
    ok, postings := table.GetInvertInfo(pid);
  }

  lemma SameKeys(v: seq<Triple>, w: seq<Triple>, pid: int)
    requires multiset(v) == multiset(w)
    ensures HasKey(v, pid) <==> HasKey(w, pid)
  {
    if HasKey(v, pid) {
      KeyMember(v, w, pid);
    }
    if HasKey(w, pid) {
      KeyMember(w, v, pid);
    }
  }

  /** Created with one posting and then with another, a table returns the old one. */
  method ReuseCanBeWrong() returns (ok: bool, postings: seq<Posting>)
    ensures ok && postings == [Posting(1, 1)]
    ensures postings != PostingsOf([Triple(7, 2, 2)], 7)
  {
    ghost var v, w, m;
    ok, postings, v, w, m := CreateTwice([Triple(7, 1, 1)], [Triple(7, 2, 2)], 7);
    OnlyOne(v, Triple(7, 1, 1));
    OnlyOne(w, Triple(7, 2, 2));
    assert [Triple(7, 2, 2)][0].pid == 7;
    EntriesPartition(m, w, 0);
    assert m[7].offset == 0 && m[7].count == 1;
    assert PostingsOf([Triple(7, 2, 2)], 7)[0] == Posting(2, 2);
  }

  lemma OnlyOne(v: seq<Triple>, t: Triple)
    requires multiset(v) == multiset([t])
    ensures v == [t]
  {
    assert |v| == |multiset(v)| == 1;
    assert v[0] in multiset(v);
  }

  // ----- The second implementation

  /** Each key's postings, in the order of the vector. */
  ghost predicate ListsPostings(id2Nodes: map<int, seq<Posting>>, v: seq<Triple>) {
    && (forall pid :: pid in id2Nodes <==> HasKey(v, pid))
    && (forall pid :: pid in id2Nodes ==> id2Nodes[pid] == PostingsOf(v, pid))
  }

  lemma ListsAfter(id2Nodes: map<int, seq<Posting>>, v: seq<Triple>, t: Triple)
    requires ListsPostings(id2Nodes, v)
    ensures var nodes := if t.pid in id2Nodes then id2Nodes[t.pid] else [];
      ListsPostings(id2Nodes[t.pid := nodes + [Posting(t.kid, t.weight)]], v + [t])
  {
    PostingsAfter(v, t);
    NoPostings(v, t.pid);
  }

  class ZInvertTable {
    var id2Nodes: map<int, seq<Posting>>
    var dupFilter: set<(int, int)>
    ghost var calls: seq<Triple>

    ghost predicate Valid()
      reads this
    {
      Filters(dupFilter, calls) && ListsPostings(id2Nodes, FirstWins(calls))
    }

    constructor ()
      ensures Valid() && calls == []
    {
      id2Nodes, dupFilter, calls := map[], {}, [];
    }

    method Insert(info: Triple)
      requires Valid()
      modifies this
      ensures Valid() && calls == old(calls) + [info]
    {
      assert (calls + [info])[..|calls|] == calls;
      PairsAfter(calls, info);
      var k := (info.pid, info.kid);
      if k in dupFilter {
        assert FirstWins(calls) + [] == FirstWins(calls);
      } else {
        ListsAfter(id2Nodes, FirstWins(calls), info);
        var node := Posting(info.kid, info.weight);
        var nodes := if info.pid in id2Nodes then id2Nodes[info.pid] else [];
        id2Nodes := id2Nodes[info.pid := nodes + [node]];
        dupFilter := dupFilter + {k};
      }
      calls := calls + [info];
    }

    method CreateInvertTable(vec: seq<Triple>)
      requires Valid()
      modifies this
      ensures Valid() && calls == old(calls) + vec
    {
      for i := 0 to |vec|
        invariant Valid() && calls == old(calls) + vec[..i]
      {
        assert vec[..i + 1] == vec[..i] + [vec[i]];
        Insert(vec[i]);
      }
      assert vec[..|vec|] == vec;
    }

    method GetPostList(id: int) returns (ok: bool, nodes: seq<Posting>)
      requires Valid()
      ensures ok <==> HasKey(calls, id)
      ensures nodes == PostingsOf(FirstWins(calls), id)
    {
      FirstWinsKeys(calls, id);
      if id !in id2Nodes {
        NoPostings(FirstWins(calls), id);
        return false, [];
      }
      return true, id2Nodes[id];
    }
  }

  lemma PostingsAfter(v: seq<Triple>, t: Triple)
    ensures forall pid ::
      PostingsOf(v + [t], pid) == PostingsOf(v, pid) + (if t.pid == pid then [Posting(t.kid, t.weight)] else [])
    ensures forall pid :: HasKey(v + [t], pid) <==> HasKey(v, pid) || t.pid == pid
  {
    assert (v + [t])[..|v|] == v;
    forall pid ensures HasKey(v + [t], pid) <==> HasKey(v, pid) || t.pid == pid {
      if i :| 0 <= i < |v| && v[i].pid == pid {
        assert (v + [t])[i] == v[i];
      }
      assert (v + [t])[|v|] == t;
    }
  }

  lemma NoPostings(v: seq<Triple>, pid: int)
    ensures PostingsOf(v, pid) != [] ==> HasKey(v, pid)
  {
    HasMember(PostingsOf(v, pid));
    if p :| p in PostingsOf(v, pid) {
      PostingsMember(v, pid, p);
      var i :| 0 <= i < |v| && v[i] == Triple(pid, p.id, p.weight);
    }
  }

  lemma {:induction false} PostingsCount(v: seq<Triple>, pid: int, p: Posting)
    ensures multiset(PostingsOf(v, pid))[p] == multiset(v)[Triple(pid, p.id, p.weight)]
  {
    if v != [] {
      PostingsCount(v[..|v| - 1], pid, p);
      assert v == v[..|v| - 1] + [v[|v| - 1]];
    }
  }

  /** Both implementations hold the same postings under every key, in their own order. */
  lemma ImplementationsAgree(calls: seq<Triple>, v: seq<Triple>, pid: int)
    requires multiset(v) == multiset(FirstWins(calls))
    ensures multiset(PostingsOf(v, pid)) == multiset(PostingsOf(FirstWins(calls), pid))
  {
    forall p ensures multiset(PostingsOf(v, pid))[p] == multiset(PostingsOf(FirstWins(calls), pid))[p] {
      PostingsCount(v, pid, p);
      PostingsCount(FirstWins(calls), pid, p);
    }
  }

  /** The same calls made on both implementations, the index also written to files. */
  method BuildBoth(calls: seq<Triple>) returns (table: InvertTable, dir: Directory, zTable: ZInvertTable)
    ensures fresh(table) && fresh(dir) && fresh(zTable)
    ensures table.useCached && table.Ready() && Answers(table.vector, calls)
    ensures multiset(table.vector) == multiset(FirstWins(calls))
    ensures Enumerates(dir.index, table.indexMap) && dir.invert == All(table.vector)
    ensures zTable.Valid() && zTable.calls == calls
  {
    var creator := new InvertCreator();
    for i := 0 to |calls|
      invariant creator.Valid() && creator.calls == calls[..i] && fresh(creator)
    {
      creator.AddTriple(calls[i].pid, calls[i].kid, calls[i].weight);
      assert calls[..i + 1] == calls[..i] + [calls[i]];
    }
    assert calls[..|calls|] == calls;
    zTable := new ZInvertTable();
    zTable.CreateInvertTable(calls);
    dir := new Directory();
    table := new InvertTable(true);
    creator.Create(table, dir, true);
  }

  datatype Lookup = Lookup(found: bool, postings: seq<Posting>)

  /** A lookup on a fresh table, cached or not, loaded from files. */
  method LoadAndLook(dir: Directory, useCache: bool, pid: int, ghost m: map<int, IndexNode>, ghost v: seq<Triple>)
      returns (loaded: bool, r: Lookup)
    requires Enumerates(dir.index, m) && Indexes(m, v) && dir.invert == All(v) && v != []
    ensures loaded && r == Lookup(HasKey(v, pid), PostingsOf(v, pid))
  {
    var table := new InvertTable(useCache);
    loaded := table.Load(dir, m, v);
    table.ReadyAnswers(pid);
    var found, postings := table.GetInvertInfo(pid);
    r := Lookup(found, postings);
  }

  /** One set of triples read back in four ways: from the table that was built, from a
      cached and an uncached table loaded from its files, and from the other
      implementation. */
  method AllReadersAgree(calls: seq<Triple>, pid: int)
      returns (built: Lookup, loaded: bool, cached: Lookup, uncached: Lookup, other: Lookup)
    requires calls != []
    ensures built.found <==> HasKey(calls, pid)
    ensures IsAnswer(built.postings, calls, pid)
    ensures loaded && cached == built && uncached == built
    ensures other.found == built.found && multiset(other.postings) == multiset(built.postings)
  {
    var table, dir, zTable := BuildBoth(calls);
    ghost var v, m := table.vector, table.indexMap;
    SomethingBuilt(calls, v);
    table.ReadyAnswers(pid);
    var found, postings := table.GetInvertInfo(pid);
    built := Lookup(found, postings);
    var okCached, okUncached;
    okCached, cached := LoadAndLook(dir, true, pid, m, v);
    okUncached, uncached := LoadAndLook(dir, false, pid, m, v);
    loaded := okCached && okUncached;
    found, postings := zTable.GetPostList(pid);
    other := Lookup(found, postings);
    ImplementationsAgree(calls, v, pid);
  }

  lemma SomethingBuilt(calls: seq<Triple>, v: seq<Triple>)
    requires calls != [] && multiset(v) == multiset(FirstWins(calls))
    ensures v != []
  {
    var t := calls[0];
    assert HasKey(calls, t.pid);
    FirstWinsKeys(calls, t.pid);
    KeyMember(FirstWins(calls), v, t.pid);
  }
}
