/** The reading and writing helpers of Linux_Net/Reactor/wrap.c over a descriptor that
    splits its stream as it likes, is interrupted finitely often, and may fail. */
module LineReader {
  import opened Common

  const READ_BUF_SIZE := 100

  /** `was` with the first `k` bytes of `s` stored over it. */
  function Overlay(s: string, k: nat, was: string): (r: string)
    requires k <= |s| && k <= |was|
    ensures |r| == |was| && r[..k] == s[..k]
  {
    s[..k] + was[k..]
  }

  /** `was` with `data` stored at a position. */
  function Splice(was: string, at: nat, data: string): string
    requires at + |data| <= |was|
  {
    was[..at] + data + was[at + |data|..]
  }

  method Copy(buf: array<char>, at: nat, data: string)
    requires at + |data| <= buf.Length
    modifies buf
    ensures buf[..] == Splice(old(buf[..]), at, data)
  {
    forall i | 0 <= i < |data| {
      buf[at + i] := data[i];
    }
    assert buf[at..at + |data|] == data;
    assert buf[..at] == old(buf[..at]) && buf[at + |data|..] == old(buf[at + |data|..]);
  }

  /** How a descriptor behaves: in any way a descriptor may; or giving all it can at once,
      up to the end of its stream, or until it fails there. */
  datatype Manner = Free | Eager | Breaks

  /** A blocking descriptor: `rest` is what the other side has yet to give us, up to its
      end of file, `sent` what it has received. */
  class Descriptor {
    var rest: string
    var sent: string
    var interrupts: nat     // how often a call may still be interrupted
    const manner: Manner
    ghost var failures: nat // calls answered with any other error

    constructor (rest: string, interrupts: nat, manner: Manner)
      ensures this.rest == rest && this.sent == "" && this.interrupts == interrupts && this.manner == manner
    {
      this.rest, this.interrupts, this.manner := rest, interrupts, manner;
      sent, failures := "", 0;
    }

    /** read(2): some of the bytes, at least one unless the stream has ended. */
    method Read(buf: array<char>, at: nat, n: nat) returns (count: int, interrupted: bool)
      requires at + n <= buf.Length
      modifies this`rest, this`interrupts, this`failures, buf
      ensures -1 <= count <= n && (interrupted ==> count < 0)
      ensures count >= 0 ==> count <= |old(rest)| && rest == old(rest)[count..] && interrupts == old(interrupts)
      ensures count >= 0 ==> buf[..] == Splice(old(buf[..]), at, old(rest)[..count])
      ensures count == 0 && n > 0 ==> rest == ""
      ensures count < 0 ==> rest == old(rest) && buf[..] == old(buf[..])
      ensures count < 0 && interrupted ==> interrupts < old(interrupts)
      ensures interrupts <= old(interrupts)
      ensures failures == old(failures) + if count < 0 && !interrupted then 1 else 0
      ensures !manner.Free? && !(manner.Breaks? && old(rest) == "") ==> count == if n < |old(rest)| then n else |old(rest)|
      ensures manner.Breaks? && old(rest) == "" ==> count < 0 && !interrupted
    {
      interrupted := false;
      var give := !manner.Free? && !(manner.Breaks? && rest == "");
      if * {
        give := give || manner.Free?;
      }
      if !give {
        count, interrupted := -1, manner.Free? && interrupts > 0;
        if interrupted {
          interrupts := interrupts - 1;
        } else {
          failures := failures + 1;
        }
      } else {
        var most := if n < |rest| then n else |rest|;
        count := most;
        if count > 1 && manner.Free? {
          var fewer: nat :| 1 <= fewer <= count;
          count := fewer;
        }
        Copy(buf, at, rest[..count]);
        rest := rest[count..];
      }
    }

    /** write(2): some of the bytes, possibly none. */
    method Write(buf: array<char>, at: nat, n: nat) returns (count: int, interrupted: bool)
      requires at + n <= buf.Length
      modifies this`sent, this`interrupts, this`failures
      ensures -1 <= count <= n && (interrupted ==> count < 0)
      ensures count >= 0 ==> sent == old(sent) + buf[at..at + count] && interrupts == old(interrupts)
      ensures count < 0 ==> sent == old(sent)
      ensures count < 0 && interrupted ==> interrupts < old(interrupts)
      ensures failures == old(failures) + if count < 0 && !interrupted then 1 else 0
    {
      interrupted := false;
      if * {
        count, interrupted := -1, interrupts > 0;
        if interrupted {
          interrupts := interrupts - 1;
        } else {
          failures := failures + 1;
        }
      } else {
        var some: nat :| 0 <= some <= n;
        count := some;
        sent := sent + buf[at..at + count];
      }
    }
  }

  /** `got` bytes of `whole` have gone from the stream into the buffer. */
  predicate Transferred(whole: string, was: string, got: nat, rest: string, buf: string) {
    got <= |whole| && got <= |was| && rest == whole[got..] && buf == Overlay(whole, got, was)
  }

  lemma TransferMore(whole: string, was: string, got: nat, count: nat, rest: string, buf: string)
    requires Transferred(whole, was, got, rest, buf) && count <= |rest| && got + count <= |was|
    ensures Transferred(whole, was, got + count, rest[count..], Splice(buf, got, rest[..count]))
  {
    assert whole[got..][..count] == whole[got..got + count] && whole[got..][count..] == whole[got + count..];
    assert buf[got + count..] == was[got + count..];
    assert whole[..got] + whole[got..got + count] == whole[..got + count];
  }

  /** One read into the buffer behind the `ptr` bytes already there, nothing if it was
      interrupted. */
  method ReadBehind(fd: Descriptor, vptr: array<char>, ptr: nat, n: nat, ghost whole: string, ghost was: string)
    returns (count: int, interrupted: bool)
    requires 0 < n && ptr + n <= vptr.Length == |was|
    requires Transferred(whole, was, ptr, fd.rest, vptr[..])
    modifies fd`rest, fd`interrupts, fd`failures, vptr
    ensures -1 <= count <= n && (count == 0 && !interrupted ==> ptr == |whole|)
    ensures count == -1 ==> Transferred(whole, was, ptr, fd.rest, vptr[..])
    ensures count >= 0 ==> Transferred(whole, was, ptr + count, fd.rest, vptr[..])
    ensures count >= 0 ==> fd.failures == old(fd.failures) && (interrupted ==> count == 0)
    ensures count < 0 ==> fd.failures > old(fd.failures)
    ensures fd.interrupts <= old(fd.interrupts) && (interrupted ==> fd.interrupts < old(fd.interrupts))
  {
    count, interrupted := fd.Read(vptr, ptr, n);
    if count >= 0 {
      TransferMore(whole, was, ptr, count, old(fd.rest), old(vptr[..]));
    } else if interrupted {
      count := 0;
    }
  }

  /** The next `n` bytes, fewer only at the end of the stream. On an error, `got` bytes are
      in the buffer but the caller is not told how many. */
  method Readn(fd: Descriptor, vptr: array<char>, n: nat) returns (r: int, ghost got: nat)
    requires n <= vptr.Length
    modifies fd, vptr
    ensures got <= n && Transferred(old(fd.rest), old(vptr[..]), got, fd.rest, vptr[..])
    ensures fd.sent == old(fd.sent)
    ensures r == -1 || (r == got && (got == n || got == |old(fd.rest)|))
    ensures r == -1 <==> fd.failures > old(fd.failures)
  {
    var nleft, ptr: nat := n, 0;
    ghost var whole, was := fd.rest, vptr[..];
    while nleft > 0
      invariant nleft >= 0 && nleft + ptr == n
      invariant Transferred(whole, was, ptr, fd.rest, vptr[..]) && fd.sent == old(fd.sent)
      invariant fd.failures == old(fd.failures)
      decreases nleft, fd.interrupts
    {
      var nread, interrupted := ReadBehind(fd, vptr, ptr, nleft, whole, was);
      if nread < 0 {
        return -1, ptr;
      } else if nread == 0 && !interrupted {
        break;
      }
      nleft := nleft - nread;
      ptr := ptr + nread;
    }
    r, got := n - nleft, ptr;
  }

  /** All `n` bytes, in order, or an error; a write of nothing counts as an error. */
  method Writen(fd: Descriptor, vptr: array<char>, n: nat) returns (r: int, ghost put: nat)
    requires n <= vptr.Length
    modifies fd
    ensures put <= n && fd.sent == old(fd.sent) + vptr[..put] && fd.rest == old(fd.rest)
    ensures r == -1 || r == put == n
    ensures r == -1 ==> put < n
    ensures fd.failures > old(fd.failures) ==> r == -1
  {
    var nleft, ptr: nat := n, 0;
    while nleft > 0
      invariant nleft >= 0 && nleft + ptr == n
      invariant fd.sent == old(fd.sent) + vptr[..ptr] && fd.rest == old(fd.rest)
      invariant fd.failures == old(fd.failures)
      decreases nleft, fd.interrupts
    {
      var nwritten, interrupted := fd.Write(vptr, ptr, nleft);
      if nwritten <= 0 {
        if nwritten < 0 && interrupted {
          nwritten := 0;
        } else {
          return -1, ptr;
        }
      }
      nleft := nleft - nwritten;
      ptr := ptr + nwritten;
    }
    r, put := n, n;
  }

  // ----- Lines

  /** No newline among the first `k` bytes. */
  predicate OneLine(s: string, k: nat) {
    k <= |s| && '\n' !in s[..k]
  }

  /** The first `k` bytes of `s` are one piece: up to and with the first newline, but at most
      `limit` bytes, or all that is left. */
  predicate IsPiece(s: string, limit: nat, k: nat) {
    && k <= |s| && k <= limit
    && (k > 0 ==> OneLine(s, k - 1))
    && (k == limit || k == |s| || (k > 0 && s[k - 1] == '\n'))
  }

  function Limit(maxlen: nat): nat {
    if maxlen == 0 then 0 else maxlen - 1
  }

  /** The length of the first piece. */
  function PieceLength(s: string, limit: nat): (k: nat)
    ensures IsPiece(s, limit, k)
  {
    if s == "" || limit == 0 then 0
    else if s[0] == '\n' then 1
    else PieceLength(s[1..], limit - 1) + 1
  }

  /** A stream cut into pieces. */
  function Pieces(s: string, limit: nat): seq<string>
    requires limit > 0
  {
    if s == "" then []
    else
      var k := PieceLength(s, limit);
      [s[..k]] + Pieces(s[k..], limit)
  }

  /** Cutting loses nothing. */
  lemma {:induction false} PiecesAreTheStream(s: string, limit: nat)
    requires limit > 0
    ensures Concat(Pieces(s, limit)) == s
  {
    if s != "" {
      var k := FirstPiece(s, limit);
      PiecesAreTheStream(s[k..], limit);
      assert Pieces(s, limit)[1..] == Pieces(s[k..], limit);
      assert s[..k] + s[k..] == s;
    }
  }

  lemma FirstPiece(s: string, limit: nat) returns (k: nat)
    requires limit > 0 && s != ""
    ensures 0 < k <= |s| && Pieces(s, limit) == [s[..k]] + Pieces(s[k..], limit)
  {
    k := PieceLength(s, limit);
  }

  /** Every piece has its only newline, if any, at its end; and it is full, or ends a line,
      or is the last. */
  lemma {:induction false} PieceShape(s: string, limit: nat, i: nat)
    requires limit > 0 && i < |Pieces(s, limit)|
    ensures 0 < |Pieces(s, limit)[i]| <= limit && OneLine(Pieces(s, limit)[i], |Pieces(s, limit)[i]| - 1)
    ensures i < |Pieces(s, limit)| - 1 ==> |Pieces(s, limit)[i]| == limit || EndsLine(Pieces(s, limit)[i])
  {
    var k := PieceLength(s, limit);
    if i > 0 {
      PieceShape(s[k..], limit, i - 1);
    } else if k == |s| {
      assert s[k..] == "";
    }
  }

  lemma PiecesStep(done: seq<string>, line: string, rest: string, limit: nat)
    requires limit > 0 && IsPiece(line + rest, limit, |line|) && line + rest != ""
    ensures line != "" && done + Pieces(line + rest, limit) == (done + [line]) + Pieces(rest, limit)
  {
    var s := line + rest;
    PieceIsUnique(s, limit, |line|, PieceLength(s, limit));
    assert s[..|line|] == line && s[|line|..] == rest;
  }

  predicate EndsLine(s: string) {
    s != "" && s[|s| - 1] == '\n'
  }

  lemma PieceIsUnique(s: string, limit: nat, j: nat, k: nat)
    requires IsPiece(s, limit, j) && IsPiece(s, limit, k)
    ensures j == k
  {
  }

  lemma OneMore(whole: string, k: nat, c: char, rest: string)
    requires OneLine(whole, k) && whole[k..] == [c] + rest
    ensures k < |whole| && whole[k] == c && rest == whole[k + 1..]
    ensures c != '\n' ==> OneLine(whole, k + 1)
  {
    assert |whole[k..]| > 0 && whole[k..][0] == c;
    assert rest == ([c] + rest)[1..] == whole[k..][1..];
  }

  /** How the loop of `Readline` may end, after `ptr` bytes. */
  ghost predicate Gathered(whole: string, maxlen: nat, n: nat, ptr: nat, rc: int) {
    && ptr <= Limit(maxlen) && ptr <= |whole| && (rc == 1 || rc == 0 || rc == -1)
    && (ptr > 0 ==> OneLine(whole, ptr - 1))
    && (rc != 1 ==> ptr < Limit(maxlen) && n == ptr + 1 && OneLine(whole, ptr))
    && (rc == 0 ==> ptr == |whole|)
    && (rc == 1 ==> n == if ptr > 0 && whole[ptr - 1] == '\n' then ptr else ptr + 1)
    && (rc == 1 && n == ptr + 1 ==> ptr == Limit(maxlen))
  }

  lemma StopsEarly(whole: string, maxlen: nat, ptr: nat, rc: int)
    requires ptr < Limit(maxlen) && OneLine(whole, ptr)
    requires rc == -1 || (rc == 0 && ptr == |whole|)
    ensures Gathered(whole, maxlen, ptr + 1, ptr, rc)
  {
  }

  lemma StopsAtNewline(whole: string, maxlen: nat, ptr: nat)
    requires 0 < ptr <= Limit(maxlen) && OneLine(whole, ptr - 1) && ptr <= |whole| && whole[ptr - 1] == '\n'
    ensures Gathered(whole, maxlen, ptr, ptr, 1)
  {
  }

  lemma StopsFull(whole: string, maxlen: nat, ptr: nat)
    requires ptr == Limit(maxlen) && OneLine(whole, ptr)
    ensures Gathered(whole, maxlen, ptr + 1, ptr, 1)
  {
    if ptr > 0 {
      assert whole[..ptr][ptr - 1] == whole[ptr - 1];
      assert whole[..ptr - 1] <= whole[..ptr];
    }
  }

  lemma GatheredPiece(whole: string, maxlen: nat, n: nat, ptr: nat, rc: int)
    requires Gathered(whole, maxlen, n, ptr, rc) && rc >= 0
    ensures IsPiece(whole, Limit(maxlen), ptr)
    ensures (if rc == 0 then n - 1 else n) == if ptr == Limit(maxlen) && !EndsLine(whole[..ptr]) then ptr + 1 else ptr
  {
  }

  /** The caller's view of a stored piece. */
  lemma StoredPiece(whole: string, got: nat, was: string, text: string)
    requires got <= |whole| && got < |was| && text == Overlay(whole, got, was)[got := '\0']
    ensures |text| == |was| && text[..got] == whole[..got] && text[..got] + whole[got..] == whole
  {
  }

  class LineBuffer {
    var readCnt: int
    var readPtr: nat
    const readBuf: array<char>
    ghost var source: Descriptor?  // the one that was read last

    constructor ()
      ensures Valid() && fresh(readBuf) && Buffered() == "" && source == null
    {
      readCnt, readPtr, source := 0, 0, null;
      readBuf := new char[READ_BUF_SIZE](_ => '\0');
    }

    ghost predicate Valid()
      reads this
    {
      readBuf.Length == READ_BUF_SIZE && (readCnt > 0 ==> readPtr + readCnt <= READ_BUF_SIZE)
    }

    ghost function Buffered(): string
      requires Valid()
      reads this, readBuf
    {
      if readCnt > 0 then readBuf[readPtr..readPtr + readCnt] else ""
    }

    /** What is still to come on a descriptor: what is buffered, from whatever descriptor
        it was read, then the rest of the stream. */
    ghost function Pending(fd: Descriptor): string
      requires Valid()
      reads this, readBuf, fd
    {
      Buffered() + fd.rest
    }

    /** What a descriptor has sent and no caller has received. */
    ghost function Own(fd: Descriptor): string
      requires Valid()
      reads this, readBuf, fd
    {
      if source == fd then Buffered() + fd.rest else fd.rest
    }

    /** Reads into the buffer until a read is not interrupted. */
    method Refill(fd: Descriptor) returns (rc: int)
      requires Valid() && readCnt <= 0
      modifies this, readBuf, fd`rest, fd`interrupts, fd`failures
      ensures Valid() && Pending(fd) == old(fd.rest)
      ensures rc == 1 || rc == 0 || rc == -1
      ensures rc == 1 ==> readCnt > 0
      ensures rc == 0 ==> Pending(fd) == ""
      ensures fd.failures == old(fd.failures) + if rc == -1 then 1 else 0
      ensures source == fd
      ensures fd.manner.Eager? ==> rc != -1 && (|old(fd.rest)| <= READ_BUF_SIZE ==> fd.rest == "")
      ensures fd.manner.Breaks? ==> rc != 0 && (rc == -1 ==> old(fd.rest) == "")
    {
      source := fd;
      var again := true;
      while again
        invariant source == fd && (again ==> fd.rest == old(fd.rest))
        invariant !again ==> 0 <= readCnt <= READ_BUF_SIZE && readBuf[..readCnt] + fd.rest == old(fd.rest)
        invariant !again && readCnt == 0 ==> fd.rest == ""
        invariant fd.failures == old(fd.failures)
        invariant !again && fd.manner.Eager? && |old(fd.rest)| <= READ_BUF_SIZE ==> fd.rest == ""
        invariant !again && fd.manner.Breaks? ==> readCnt > 0
        decreases again, fd.interrupts
      {
        var cnt, interrupted := fd.Read(readBuf, 0, READ_BUF_SIZE);
        readCnt := cnt;
        if readCnt >= 0 {
          again := false;
        } else if !interrupted {
          return -1;
        }
      }
      if readCnt == 0 {
        return 0;
      }
      readPtr := 0;
      rc := 1;
    }

    /** The front of the buffer. */
    method Pop() returns (c: char)
      requires Valid() && readCnt > 0
      modifies this`readCnt, this`readPtr
      ensures Valid() && old(Buffered()) == [c] + Buffered()
    {
      readCnt := readCnt - 1;
      c := readBuf[readPtr];
      readPtr := readPtr + 1;
    }

    /** The next byte of what is pending. It is the descriptor's own next byte if and only if
        nothing was left over from another one. */
    method MyRead(fd: Descriptor) returns (rc: int, c: char)
      requires Valid()
      modifies this, readBuf, fd`rest, fd`interrupts, fd`failures
      ensures Valid()
      ensures rc == 1 || rc == 0 || rc == -1
      ensures rc == 1 ==> old(Pending(fd)) == [c] + Pending(fd)
      ensures rc == 1 ==> (old(Own(fd)) == [c] + Own(fd) <==> old(Buffered()) == "" || old(source) == fd)
      ensures rc == 0 ==> Pending(fd) == "" && old(Pending(fd)) == ""
      ensures rc == -1 ==> Pending(fd) == old(Pending(fd))
      ensures fd.failures == old(fd.failures) + if rc == -1 then 1 else 0
      ensures old(Buffered()) != "" ==> rc == 1 && fd.rest == old(fd.rest) && source == old(source)
      ensures old(Buffered()) == "" ==> source == fd
      ensures fd.manner.Eager? ==> rc != -1 && (old(fd.rest) != "" ==> rc == 1)
      ensures old(Buffered()) == "" && fd.manner.Eager? && |old(fd.rest)| <= READ_BUF_SIZE ==> fd.rest == ""
      ensures fd.manner.Breaks? ==> rc != 0 && (rc == -1 ==> old(Pending(fd)) == "")
    {
      c, rc := '\0', 1;
      ghost var whole := Pending(fd);
      if readCnt <= 0 {
        assert whole == fd.rest;
        rc := Refill(fd);
      }
      if rc == 1 {
        c := Pop();
        ConcatAssoc([c], Buffered(), fd.rest);
      }
    }

    /** One byte of a stream `whole`, stored behind the `ptr` bytes already taken. */
    method TakeOne(fd: Descriptor, vptr: array<char>, ptr: nat, ghost whole: string, ghost was: string)
      returns (rc: int, c: char)
      requires Valid() && vptr != readBuf && ptr < vptr.Length == |was|
      requires OneLine(whole, ptr) && Transferred(whole, was, ptr, Pending(fd), vptr[..])
      modifies this, readBuf, vptr, fd`rest, fd`interrupts, fd`failures
      ensures Valid() && (rc == 1 || rc == 0 || rc == -1)
      ensures rc == 1 ==> Transferred(whole, was, ptr + 1, Pending(fd), vptr[..]) && ptr < |whole| && c == whole[ptr]
      ensures rc == 1 && c != '\n' ==> OneLine(whole, ptr + 1)
      ensures rc != 1 ==> Transferred(whole, was, ptr, Pending(fd), vptr[..])
      ensures rc == 0 ==> ptr == |whole|
      ensures fd.failures == old(fd.failures) + if rc == -1 then 1 else 0
      ensures (fd.manner.Eager? ==> rc != -1) && (fd.manner.Breaks? ==> rc != 0 && (rc == -1 ==> ptr == |whole|))
    {
      rc, c := MyRead(fd);
      if rc == 1 {
        OneMore(whole, ptr, c, Pending(fd));
        assert Overlay(whole, ptr + 1, was) == Overlay(whole, ptr, was)[ptr := whole[ptr]];
        vptr[ptr] := c;
      }
    }

    /** The loop of `Readline`, for a stream `whole`: stores bytes until a newline, the
        bound, the end of the stream (0) or an error (-1). */
    method Gather(fd: Descriptor, vptr: array<char>, maxlen: nat, ghost whole: string)
      returns (n: nat, ptr: nat, rc: int)
      requires Valid() && vptr != readBuf && maxlen <= vptr.Length && whole == Pending(fd)
      modifies this, readBuf, vptr, fd`rest, fd`interrupts, fd`failures
      ensures Valid() && Transferred(whole, old(vptr[..]), ptr, Pending(fd), vptr[..])
      ensures Gathered(whole, maxlen, n, ptr, rc)
      ensures fd.failures == old(fd.failures) + if rc == -1 then 1 else 0
      ensures (fd.manner.Eager? ==> rc != -1) && (fd.manner.Breaks? ==> rc != 0 && (rc == -1 ==> ptr == |whole|))
    {
      n, ptr, rc := 1, 0, 1;
      ghost var was := vptr[..];
      while n < maxlen
        invariant Valid() && n == ptr + 1 && ptr <= Limit(maxlen) && rc == 1
        invariant Transferred(whole, was, ptr, Pending(fd), vptr[..]) && OneLine(whole, ptr)
        invariant fd.failures == old(fd.failures)
        decreases maxlen - n
      {
        var c;
        rc, c := TakeOne(fd, vptr, ptr, whole, was);
        if rc != 1 {
          StopsEarly(whole, maxlen, ptr, rc);
          return;
        }
        ptr := ptr + 1;
        if c == '\n' {
          StopsAtNewline(whole, maxlen, ptr);
          return;
        }
        n := n + 1;
      }
      StopsFull(whole, maxlen, ptr);
    }

    /** Stores the next piece of at most `maxlen - 1` bytes, with a zero byte behind it.
        Returns its length, except that a full piece without a newline is reported as
        `maxlen`, one more than was stored. After an error the `got` bytes read so far are
        stored, without the zero byte, and gone from the stream. */
    method Readline(fd: Descriptor, vptr: array<char>, maxlen: nat) returns (r: int, ghost got: nat)
      requires Valid() && vptr != readBuf
      requires maxlen <= vptr.Length && vptr.Length > 0
      modifies this, readBuf, vptr, fd`rest, fd`interrupts, fd`failures
      ensures Valid() && got <= |old(Pending(fd))| && got < vptr.Length
      ensures Pending(fd) == old(Pending(fd))[got..]
      ensures r >= 0 ==> vptr[..] == Overlay(old(Pending(fd)), got, old(vptr[..]))[got := '\0']
      ensures r >= 0 ==> IsPiece(old(Pending(fd)), Limit(maxlen), got)
      ensures r >= 0 ==> r == if got == Limit(maxlen) && !EndsLine(old(Pending(fd))[..got]) then got + 1 else got
      ensures r < 0 ==> r == -1 && got < Limit(maxlen) && OneLine(old(Pending(fd)), got)
      ensures r < 0 ==> vptr[..] == Overlay(old(Pending(fd)), got, old(vptr[..]))
      ensures fd.failures == old(fd.failures) + if r < 0 then 1 else 0
      ensures fd.manner.Eager? ==> r >= 0
      ensures fd.manner.Breaks? ==>
        if r >= 0 then got == Limit(maxlen) || EndsLine(old(Pending(fd))[..got]) else got == |old(Pending(fd))|
    {
      ghost var whole := Pending(fd);
      var n, ptr, rc := Gather(fd, vptr, maxlen, whole);
      if rc == -1 {
        return -1, ptr;
      }
      GatheredPiece(whole, maxlen, n, ptr, rc);
      vptr[ptr] := '\0';
      return if rc == 0 then n - 1 else n, ptr;
    }

    /** What a caller makes of one call: the stored bytes as a string. */
    method NextLine(fd: Descriptor, vptr: array<char>, maxlen: nat) returns (r: int, line: string)
      requires Valid() && vptr != readBuf && 2 <= maxlen <= vptr.Length
      modifies this, readBuf, vptr, fd`rest, fd`interrupts, fd`failures
      ensures Valid() && -1 <= r
      ensures fd.failures == old(fd.failures) + if r < 0 then 1 else 0
      ensures r >= 0 ==> old(Pending(fd)) == line + Pending(fd)
      ensures r >= 0 ==> IsPiece(line + Pending(fd), maxlen - 1, |line|)
      ensures r == 0 <==> r >= 0 && old(Pending(fd)) == ""
    {
      ghost var whole, was := Pending(fd), vptr[..];
      ghost var got;
      r, got := Readline(fd, vptr, maxlen);
      var stored := if r == maxlen then r - 1 else r;
      line := "";
      if r >= 0 {
        StoredPiece(whole, got, was, vptr[..]);
        line := vptr[..stored];
      }
    }

    /** A caller that reads lines until the end of the stream or an error. */
    method ReadLines(fd: Descriptor, vptr: array<char>, maxlen: nat) returns (lines: seq<string>, ok: bool)
      requires Valid() && vptr != readBuf && 2 <= maxlen <= vptr.Length
      modifies this, readBuf, vptr, fd`rest, fd`interrupts, fd`failures
      ensures Valid()
      ensures ok ==> lines == Pieces(old(Pending(fd)), maxlen - 1)
      ensures !ok ==> lines <= Pieces(old(Pending(fd)), maxlen - 1)
      ensures ok <==> fd.failures == old(fd.failures)
    {
      lines, ok := [], true;
      ghost var todo := Pending(fd);
      ghost var all := Pieces(todo, maxlen - 1);
      while true
        invariant Valid() && fd.failures == old(fd.failures) && todo == Pending(fd)
        invariant lines + Pieces(todo, maxlen - 1) == all
        decreases |todo|
      {
        var r, line := NextLine(fd, vptr, maxlen);
        if r < 0 {
          return lines, false;
        }
        if r == 0 {
          return;
        }
        PiecesStep(lines, line, Pending(fd), maxlen - 1);
        lines := lines + [line];
        todo := Pending(fd);
      }
    }
  }

  /** Two descriptors read in turn: the second caller receives the first one's byte, and its
      own stream is untouched. */
  method Crosstalk() returns (c: char, second: Descriptor)
    ensures c == 'y' && second.rest == "z"
  {
    var first := new Descriptor("xy", 0, Eager);
    second := new Descriptor("z", 0, Eager);
    var buffer := new LineBuffer();
    var rc, x := buffer.MyRead(first);
    FirstByte(x, buffer.Pending(first), "xy");
    rc, c := buffer.MyRead(second);
    FirstByte(c, buffer.Pending(second), "yz");
  }

  /** A piece that fills the buffer is reported as one byte longer than it is. */
  method OneTooMany() returns (r: int, text: string, left: string)
    ensures r == 2 && text == "a\0" && left == "b"
  {
    var fd := new Descriptor("ab", 0, Eager);
    var buffer := new LineBuffer();
    var vptr := new char[2](_ => '?');
    assert buffer.Pending(fd) == "ab";
    ghost var got;
    r, got := buffer.Readline(fd, vptr, 2);
    text := vptr[..];
    var rc, c := buffer.MyRead(fd);
    left := [c];
  }

  /** The bytes read before an error are neither returned nor left in the stream. */
  method LostBytes() returns (r: int, rest: string, left: int)
    ensures r == -1 && rest == "" && left <= 0
  {
    var fd := new Descriptor("a", 0, Breaks);
    var buffer := new LineBuffer();
    var vptr := new char[8](_ => '?');
    assert buffer.Pending(fd) == "a";
    ghost var got;
    r, got := buffer.Readline(fd, vptr, 8);
    assert |buffer.Pending(fd)| == |buffer.Buffered()| + |fd.rest|;
    rest, left := fd.rest, buffer.readCnt;
  }

  lemma FirstByte(c: char, rest: string, whole: string)
    requires whole != "" && [c] + rest == whole
    ensures c == whole[0] && rest == whole[1..]
  {
    assert ([c] + rest)[1..] == rest;
  }
}
