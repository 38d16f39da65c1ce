/** The copy with several threads of file_cp/mult_thread_cp.c: the division of the file
    among the workers, their byte loops under any interleaving, and the progress bar. */
module ParallelCopy {
  import opened Sums

  const ITEMS := 50

  datatype Arg = Arg(off: nat, size: nat, tNo: nat)

  /** Adjacent ranges, from 0 to `size`. */
  ghost predicate Divides(arr: seq<Arg>, size: nat) {
    && arr != [] && arr[0].off == 0
    && (forall i :: 0 <= i < |arr| - 1 ==> arr[i + 1].off == arr[i].off + arr[i].size)
    && arr[|arr| - 1].off + arr[|arr| - 1].size == size
    && forall i :: 0 <= i < |arr| ==> arr[i].tNo == i
  }

  predicate InRange(a: Arg, k: int) {
    a.off <= k < a.off + a.size
  }

  lemma {:induction false} Later(arr: seq<Arg>, size: nat, i: nat, j: nat)
    requires Divides(arr, size) && i < j < |arr|
    ensures arr[i].off + arr[i].size <= arr[j].off
  {
    if i + 1 < j {
      Later(arr, size, i, j - 1);
    }
  }

  lemma Ends(arr: seq<Arg>, size: nat, i: nat)
    requires Divides(arr, size) && i < |arr|
    ensures arr[i].off + arr[i].size <= size
  {
    if i + 1 < |arr| {
      Later(arr, size, i, |arr| - 1);
    }
  }

  /** Every byte has a worker. */
  lemma {:induction false} Owner(arr: seq<Arg>, size: nat, k: nat, from: nat) returns (i: nat)
    requires Divides(arr, size) && from < |arr| && arr[from].off <= k < size
    ensures from <= i < |arr| && InRange(arr[i], k)
    decreases |arr| - from
  {
    i := from;
    if !InRange(arr[i], k) {
      i := Owner(arr, size, k, from + 1);
    }
  }

  /** The ranges partition the file: each byte lies in exactly one. */
  lemma ExactlyOneOwner(arr: seq<Arg>, size: nat, k: nat)
    requires Divides(arr, size) && k < size
    ensures exists i :: 0 <= i < |arr| && InRange(arr[i], k)
    ensures forall i, j :: 0 <= i < |arr| && 0 <= j < |arr| && InRange(arr[i], k) && InRange(arr[j], k) ==> i == j
  {
    var i := Owner(arr, size, k, 0);
    forall i, j | 0 <= i < j < |arr|
      ensures !(InRange(arr[i], k) && InRange(arr[j], k))
    {
      Later(arr, size, i, j);
    }
  }

  lemma SizeByDivision(size: nat, n: nat)
    requires n > 0
    ensures (n - 1) * (size / n) + (size / n + size % n) == size
  {
    assert (n - 1) * (size / n) == n * (size / n) - size / n;
  }

  /** The work is divided evenly, and the last worker gets the remainder too. */
  method Divide(size: nat, n: nat) returns (arr: array<Arg>)
    requires n > 0
    ensures fresh(arr) && arr.Length == n && Divides(arr[..], size)
    ensures forall i :: 0 <= i < n - 1 ==> arr[i].size == size / n
  {
    arr := new Arg[n](_ => Arg(0, 0, 0));
    var len, off := size / n, 0;
    for i := 0 to n
      invariant off == Share(i, len).off
      invariant forall j :: 0 <= j < i ==> arr[j] == Share(j, len)
    {
      arr[i] := Arg(off, len, i);
      Adjacent(i, len);
      off := off + len;
    }
    arr[n - 1] := arr[n - 1].(size := len + size % n);
    SharesDivide(arr[..], size, n);
  }

  function Share(i: nat, len: nat): Arg {
    Arg(i * len, len, i)
  }

  lemma Adjacent(i: nat, len: nat)
    ensures Share(i + 1, len).off == Share(i, len).off + len
  {
  }

  lemma SharesDivide(arr: seq<Arg>, size: nat, n: nat)
    requires 0 < n == |arr|
    requires forall i :: 0 <= i < n - 1 ==> arr[i] == Share(i, size / n)
    requires arr[n - 1] == Share(n - 1, size / n).(size := size / n + size % n)
    ensures Divides(arr, size)
  {
    SizeByDivision(size, n);
    forall i | 0 <= i < n - 1
      ensures arr[i + 1].off == arr[i].off + arr[i].size
    {
      Adjacent(i, size / n);
    }
  }

  // ----- The workers

  /** A worker has copied the first `pos` bytes of its range. */
  ghost predicate Worked(a: Arg, pos: nat, src: string, dst: string) {
    && a.off + a.size <= |src| == |dst| && pos <= a.size
    && forall k :: a.off <= k < a.off + pos ==> dst[k] == src[k]
  }

  ghost predicate AllWorked(arr: seq<Arg>, pos: seq<nat>, src: string, dst: string) {
    && |pos| == |arr| && |src| == |dst| && Divides(arr, |src|)
    && forall i :: 0 <= i < |arr| ==> Worked(arr[i], pos[i], src, dst)
  }

  lemma OneMoreByte(arr: seq<Arg>, pos: seq<nat>, src: string, dst: string, i: nat)
    requires AllWorked(arr, pos, src, dst) && i < |arr| && pos[i] < arr[i].size
    ensures arr[i].off + pos[i] < |src|
    ensures AllWorked(arr, pos[i := pos[i] + 1], src, dst[arr[i].off + pos[i] := src[arr[i].off + pos[i]]])
  {
    Ends(arr, |src|, i);
    var k := arr[i].off + pos[i];
    var now := dst[k := src[k]];
    forall j | 0 <= j < |arr|
      ensures Worked(arr[j], pos[i := pos[i] + 1][j], src, now)
    {
      assert Worked(arr[j], pos[j], src, dst);
    }
  }

  lemma AllCopied(arr: seq<Arg>, pos: seq<nat>, src: string, dst: string)
    requires AllWorked(arr, pos, src, dst)
    requires forall i :: 0 <= i < |arr| ==> pos[i] == arr[i].size
    ensures dst == src
  {
    forall k | 0 <= k < |src|
      ensures dst[k] == src[k]
    {
      var i := Owner(arr, |src|, k, 0);
      assert Worked(arr[i], pos[i], src, dst);
    }
  }

  class Copier {
    const src: string
    const dst: array<char>
    const arr: array<Arg>
    const done: array<nat>
    var pos: seq<nat>  // how far each worker's loop has come

    /** Each worker has counted the bytes it copied, or all but the last. */
    ghost predicate Valid()
      reads this, dst, arr, done
    {
      && done.Length == arr.Length && AllWorked(arr[..], pos, src, dst[..])
      && forall i :: 0 <= i < arr.Length ==> done[i] == pos[i] || done[i] + 1 == pos[i]
    }

    constructor (src: string, n: nat)
      requires n > 0
      ensures Valid() && fresh(dst) && fresh(arr) && fresh(done) && this.src == src && arr.Length == n
      ensures CaughtUp([])
    {
      this.src := src;
      dst := new char[|src|](_ => '\0');
      var ranges := Divide(|src|, n);
      arr := ranges;
      done := new nat[n](_ => 0);
      pos := seq(n, _ => 0);
      new;
      forall i | 0 <= i < n
        ensures Worked(arr[..][i], 0, src, dst[..])
      {
        Ends(arr[..], |src|, i);
      }
    }

    /** Worker `i` copies its next byte. */
    method CopyByte(i: nat)
      requires Valid() && i < arr.Length && done[i] == pos[i] < arr[i].size
      modifies this`pos, dst
      ensures Valid() && pos == old(pos)[i := old(pos)[i] + 1]
      ensures forall k :: 0 <= k < dst.Length && k != arr[i].off + done[i] ==> dst[k] == old(dst[k])
    {
      OneMoreByte(arr[..], pos, src, dst[..], i);
      var k := arr[i].off + done[i];
      dst[k] := src[k];
      assert dst[..] == old(dst[..])[k := src[k]];
      pos := pos[i := pos[i] + 1];
    }

    /** And counts it. */
    method CountByte(i: nat)
      requires Valid() && i < arr.Length && done[i] + 1 == pos[i]
      modifies done
      ensures Valid() && done[..] == old(done[..])[i := old(done[i]) + 1]
    {
      done[i] := done[i] + 1;
    }

    ghost function Progress(i: nat): nat
      requires Valid() && i < arr.Length
      reads this, dst, arr, done
    {
      pos[i] + done[i]
    }

    /** Every worker has come as far as its turns in a schedule allow. */
    ghost predicate CaughtUp(schedule: seq<nat>)
      requires Valid()
      reads this, dst, arr, done
    {
      forall i :: 0 <= i < arr.Length ==> Progress(i) == Least(Turns(schedule, i), 2 * arr[i].size)
    }

    /** The next turn is worker `w`'s, if there is such a worker and it has not ended. */
    method Run(w: nat, ghost schedule: seq<nat>)
      requires Valid() && CaughtUp(schedule)
      modifies this`pos, dst, done
      ensures Valid() && CaughtUp(schedule + [w])
    {
      forall i
        ensures Turns(schedule + [w], i) == Turns(schedule, i) + if i == w then 1 else 0
      {
        OneTurn(schedule, w, i);
      }
      if w < arr.Length {
        Advance(w);
      }
    }

    method Advance(w: nat)
      requires Valid() && w < arr.Length
      modifies this`pos, dst, done
      ensures Valid()
      ensures Progress(w) == Least(old(Progress(w)) + 1, 2 * arr[w].size)
      ensures forall i :: 0 <= i < arr.Length && i != w ==> Progress(i) == old(Progress(i))
    {
      assert Worked(arr[..][w], pos[w], src, dst[..]);
      if done[w] < pos[w] {
        CountByte(w);
        assert forall j :: 0 <= j < arr.Length ==> done[j] == done[..][j];
      } else if pos[w] < arr[w].size {
        CopyByte(w);
      }
    }
  }

  function Least(a: nat, b: nat): nat {
    if a < b then a else b
  }

  /** How often a scheduler lets a worker run. */
  function Turns(schedule: seq<nat>, w: nat): nat {
    if schedule == [] then 0
    else Turns(schedule[..|schedule| - 1], w) + if schedule[|schedule| - 1] == w then 1 else 0
  }

  lemma OneTurn(schedule: seq<nat>, w: nat, i: nat)
    ensures Turns(schedule + [w], i) == Turns(schedule, i) + if i == w then 1 else 0
  {
    assert (schedule + [w])[..|schedule|] == schedule;
  }

  /** When all workers have ended, whatever the order of their steps, the copy is the file. */
  lemma CopyIsExact(c: Copier)
    requires c.Valid() && forall i :: 0 <= i < c.arr.Length ==> c.done[i] == c.arr[i].size
    ensures c.dst[..] == c.src
  {
    assert forall i :: 0 <= i < c.arr.Length ==> Worked(c.arr[..][i], c.pos[i], c.src, c.dst[..]);
    AllCopied(c.arr[..], c.pos, c.src, c.dst[..]);
  }

  /** The workers under any scheduler, who lets one of them copy or count a byte at a time:
      each has come as far as its turns allow, and when all have had enough of them the copy
      is the file. */
  method Play(src: string, n: nat, schedule: seq<nat>) returns (c: Copier)
    requires n > 0
    ensures c.Valid() && c.src == src && c.arr.Length == n && c.CaughtUp(schedule)
    ensures (forall i :: 0 <= i < n ==> Turns(schedule, i) >= 2 * c.arr[i].size) ==> c.dst[..] == src
  {
    c := new Copier(src, n);
    for k := 0 to |schedule|
      invariant c.Valid() && c.src == src && c.arr.Length == n && fresh(c) && fresh(c.dst) && fresh(c.done)
      invariant c.CaughtUp(schedule[..k])
    {
      assert schedule[..k + 1] == schedule[..k] + [schedule[k]];
      c.Run(schedule[k], schedule[..k]);
    }
    assert schedule[..|schedule|] == schedule;
    if forall i :: 0 <= i < n ==> Turns(schedule, i) >= 2 * c.arr[i].size {
      AllEnded(c, schedule);
      CopyIsExact(c);
    }
  }

  lemma AllEnded(c: Copier, schedule: seq<nat>)
    requires c.Valid() && c.CaughtUp(schedule)
    requires forall i :: 0 <= i < c.arr.Length ==> Turns(schedule, i) >= 2 * c.arr[i].size
    ensures forall i :: 0 <= i < c.arr.Length ==> c.done[i] == c.arr[i].size
  {
    forall i | 0 <= i < c.arr.Length
      ensures c.done[i] == c.arr[i].size
    {
      assert Worked(c.arr[..][i], c.pos[i], c.src, c.dst[..]);
      assert c.Progress(i) == 2 * c.arr[i].size;
    }
  }

  // ----- The progress bar

  function Itself(n: nat): nat {
    n
  }

  /** The counts never add up to more than the size, and to the size only at the end. */
  lemma {:induction false} CountsAddUp(arr: seq<Arg>, size: nat, done: seq<nat>, i: nat)
    requires Divides(arr, size) && i < |arr| == |done|
    requires forall j :: 0 <= j < |arr| ==> done[j] <= arr[j].size
    ensures Sum(Itself, done[i..]) <= size - arr[i].off
    ensures Sum(Itself, done[i..]) == size - arr[i].off <==> forall j :: i <= j < |arr| ==> done[j] == arr[j].size
    decreases |arr| - i
  {
    assert done[i..][1..] == done[i + 1..];
    if i + 1 < |arr| {
      CountsAddUp(arr, size, done, i + 1);
    } else {
      assert done[i + 1..] == [];
    }
  }

  /** The bar is full, at 50 marks, from some point not after the end of the copy on. */
  lemma FullInTime(size: nat, sum: nat)
    requires size >= ITEMS - 1
    ensures size / (ITEMS - 1) > 0
    ensures sum / (size / (ITEMS - 1)) + 1 >= ITEMS <==> sum >= (ITEMS - 1) * (size / (ITEMS - 1))
    ensures sum >= size ==> sum / (size / (ITEMS - 1)) + 1 >= ITEMS
    ensures sum <= size ==> sum / (size / (ITEMS - 1)) + 1 <= 2 * (ITEMS - 1)
  {
    var interval := size / (ITEMS - 1);
    assert size == (ITEMS - 1) * interval + size % (ITEMS - 1);
    AtLeast(sum, interval, ITEMS - 1);
    AtLeast(sum, interval, 2 * (ITEMS - 1));
    assert 2 * (ITEMS - 1) * interval > size;
  }

  lemma AtLeast(sum: nat, interval: nat, marks: nat)
    requires interval > 0
    ensures sum / interval >= marks <==> sum >= marks * interval
  {
    var q := sum / interval;
    Product(q, interval, marks);
    assert sum == q * interval + sum % interval;
  }

  lemma Product(q: nat, interval: nat, marks: nat)
    requires interval > 0
    ensures q >= marks ==> q * interval >= marks * interval
    ensures q < marks ==> q * interval + interval <= marks * interval
  {
    if q >= marks {
      Monotone(marks, q, interval);
    } else {
      Monotone(q + 1, marks, interval);
      Next(q, interval);
    }
  }

  lemma {:induction false} Monotone(a: nat, b: nat, factor: nat)
    requires a <= b
    ensures a * factor <= b * factor
  {
    if a < b {
      Monotone(a, b - 1, factor);
      Next(b - 1, factor);
    }
  }

  lemma Next(n: nat, factor: nat)
    ensures (n + 1) * factor == n * factor + factor
  {
  }

  /** The bar's interval vanishes exactly for files of fewer than 49 bytes. */
  lemma NoInterval(size: nat)
    ensures size / (ITEMS - 1) == 0 <==> size < ITEMS - 1
  {
  }

  /** The display thread ends with its bar drawn, or is stopped by a division by zero. */
  datatype Ending = Drawn(marks: nat, polls: nat) | DividedByZero

  /** The display loop over the sums it happens to read, the last of them taken when all
      workers have ended: it stops, with at least 50 marks drawn and the number that belongs
      to the first sum that fills the bar; but a file of fewer than 49 bytes has no interval
      to divide by. */
  method Display(size: nat, sums: seq<nat>) returns (ending: Ending)
    requires sums != [] && sums[|sums| - 1] == size
    ensures ending.DividedByZero? <==> size < ITEMS - 1
    ensures ending.Drawn? ==> Filled(size, sums, ending.marks, ending.polls)
  {
    var interval := size / (ITEMS - 1);
    NoInterval(size);
    var draw, polls: nat := 0, 0;
    while draw < ITEMS
      invariant polls <= |sums| && (polls > 0 ==> interval > 0) && (polls == |sums| ==> draw >= ITEMS)
      invariant forall p :: 0 <= p < polls - 1 ==> sums[p] < (ITEMS - 1) * interval
      invariant draw < ITEMS ==> forall p :: 0 <= p < polls ==> sums[p] < (ITEMS - 1) * interval
      invariant draw >= ITEMS ==> Filled(size, sums, draw, polls)
      decreases |sums| - polls
    {
      var sum := sums[polls];
      if interval == 0 {
        return DividedByZero;
      }
      FullInTime(size, sum);
      polls := polls + 1;
      var j := sum / interval + 1;
      ghost var before := draw;
      while j > draw
        invariant draw == before || draw <= j
      {
        draw := draw + 1;
      }
    }
    ending := Drawn(draw, polls);
  }

  /** After `polls` sums, the last of them the first to fill the bar. */
  ghost predicate Filled(size: nat, sums: seq<nat>, marks: nat, polls: nat) {
    && size >= ITEMS - 1 && 0 < polls <= |sums| && marks >= ITEMS
    && sums[polls - 1] >= (ITEMS - 1) * (size / (ITEMS - 1))
    && (forall p :: 0 <= p < polls - 1 ==> sums[p] < (ITEMS - 1) * (size / (ITEMS - 1)))
    && marks == sums[polls - 1] / (size / (ITEMS - 1)) + 1
  }
}
