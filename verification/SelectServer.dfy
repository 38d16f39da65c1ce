/** The bookkeeping of the select() echo server in
    Linux_Net/concurrent/moreIO_concurrent/select_concurrent/server.c: the `client` array,
    the set of watched descriptors, the bounds `maxi` and `maxfd`, and the early exit when
    `nready` reaches zero. */
module SelectServer {
  import opened Common

  const FD_SETSIZE := 1024

  /** The watched set is the listening descriptor and the used entries, all distinct; unused
      entries hold -1; `maxi` and `maxfd` bound them. */
  ghost predicate Book(client: seq<int>, allset: set<int>, listenfd: int, maxi: int, maxfd: int) {
    && |client| == FD_SETSIZE
    && -1 <= maxi < FD_SETSIZE
    && (forall i :: 0 <= i < |client| ==> -1 <= client[i] && client[i] != listenfd)
    && UsedOnce(client)
    && (forall i :: maxi < i < |client| ==> client[i] == -1)
    && (forall i :: 0 <= i < |client| && client[i] >= 0 ==> client[i] in allset)
    && (forall f :: f in allset ==> 0 <= f < FD_SETSIZE && f <= maxfd && (f == listenfd || f in client))
    && listenfd in allset
  }

  predicate IsFirstFree(client: seq<int>, i: nat) {
    i < |client| && client[i] < 0 && forall k :: 0 <= k < i ==> client[k] >= 0
  }

  ghost predicate UsedOnce(client: seq<int>) {
    forall i, j :: 0 <= i < j < |client| && client[i] >= 0 ==> client[i] != client[j]
  }

  lemma AddKeepsBook(client: seq<int>, allset: set<int>, listenfd: int, maxi: int, maxfd: int, i: nat, fd: int)
    requires Book(client, allset, listenfd, maxi, maxfd)
    requires i < |client| && client[i] < 0 && 0 <= fd < FD_SETSIZE && fd !in allset
    ensures Book(client[i := fd], allset + {fd}, listenfd, if i > maxi then i else maxi, if fd > maxfd then fd else maxfd)
  {
    var now := client[i := fd];
    assert fd !in client;
    forall f | f in allset && f != listenfd
      ensures f in now
    {
      var k :| 0 <= k < |client| && client[k] == f;
      assert now[k] == f;
    }
    assert now[i] == fd;
  }

  lemma ClearKeepsBook(client: seq<int>, allset: set<int>, listenfd: int, maxi: int, maxfd: int, i: nat)
    requires Book(client, allset, listenfd, maxi, maxfd)
    requires i < |client| && client[i] >= 0
    ensures Book(client[i := -1], allset - {client[i]}, listenfd, maxi, maxfd)
  {
    var now := client[i := -1];
    forall f | f in allset && f != listenfd && f != client[i]
      ensures f in now
    {
      var k :| 0 <= k < |client| && client[k] == f;
      assert now[k] == f;
    }
  }

  /** Descriptors in range cannot use up all entries, since the listening one has none: the
      branch for too many clients is never taken. */
  lemma SomeEntryIsFree(client: seq<int>, allset: set<int>, listenfd: int, maxi: int, maxfd: int)
    requires Book(client, allset, listenfd, maxi, maxfd)
    ensures exists i :: 0 <= i < |client| && client[i] < 0
  {
    if forall i :: 0 <= i < |client| ==> client[i] >= 0 {
      forall i | 0 <= i < |client|
        ensures 0 <= client[i] < FD_SETSIZE && client[i] != listenfd
      {
        assert client[i] in allset;
      }
      FewDescriptors(client, listenfd, FD_SETSIZE);
    }
  }

  lemma FewDescriptors(used: seq<int>, listenfd: int, n: nat)
    requires NoRepeat(used) && 0 <= listenfd < n
    requires forall i :: 0 <= i < |used| ==> 0 <= used[i] < n && used[i] != listenfd
    ensures |used| < n
  {
    var elements := set f | f in used;
    DistinctSize(used, elements);
    SubsetSize(elements, Range(n) - {listenfd});
  }

  ghost function Range(n: nat): (s: set<int>)
    ensures |s| == n && forall f :: f in s <==> 0 <= f < n
  {
    if n == 0 then {} else Range(n - 1) + {n - 1}
  }

  /** Distinct members of a set, as many as it has: all of them. */
  lemma AllServed(served: seq<int>, ready: set<int>)
    requires NoRepeat(served)
    requires forall f :: f in served ==> f in ready
    ensures |served| <= |ready|
    ensures |served| == |ready| ==> forall f :: f in ready ==> f in served
  {
    var elements := set f | f in served;
    DistinctSize(served, elements);
    SubsetSize(elements, ready);
  }

  /** After serving, what was watched is watched, except clients at their end. */
  ghost predicate Watching(before: set<int>, now: set<int>, served: seq<int>, length: int -> int) {
    forall f :: f in now <==> f in before && !(f in served && length(f) == 0)
  }

  /** How far one pass over the entries has come: the ready ones before `i`, once each. */
  ghost predicate Passed(entries: seq<int>, ready: set<int>, i: nat, served: seq<int>) {
    && i <= |entries| && NoRepeat(served)
    && (forall k :: 0 <= k < i && entries[k] in ready ==> entries[k] in served)
    && (forall f :: f in served ==> f in ready && f !in entries[i..])
  }

  lemma PassOne(entries: seq<int>, ready: set<int>, i: nat, served: seq<int>)
    requires Passed(entries, ready, i, served) && i < |entries|
    requires UsedOnce(entries) && forall f :: f in ready ==> f >= 0
    ensures Passed(entries, ready, i + 1, if entries[i] in ready then served + [entries[i]] else served)
  {
    var f := entries[i];
    assert entries[i..] == [f] + entries[i + 1..];
    if f in ready {
      assert f in entries[i..] && f !in served;
      assert f !in entries[i + 1..];
    }
  }

  lemma PassedAll(entries: seq<int>, ready: set<int>, i: nat, served: seq<int>)
    requires Passed(entries, ready, i, served)
    requires forall f :: f in ready ==> f in entries && f !in entries[i..]
    ensures forall f :: f in ready <==> f in served
  {
    forall f | f in ready
      ensures f in served
    {
      assert entries == entries[..i] + entries[i..];
      var k :| 0 <= k < i && entries[..i][k] == f;
    }
  }

  class Server {
    const listenfd: int
    const client: array<int>
    var allset: set<int>
    var maxi: int
    var maxfd: int

    ghost predicate Valid()
      reads this, client
    {
      Book(client[..], allset, listenfd, maxi, maxfd)
    }

    constructor (listenfd: int)
      requires 0 <= listenfd < FD_SETSIZE
      ensures Valid() && fresh(client) && allset == {listenfd} && this.listenfd == listenfd
    {
      this.listenfd := listenfd;
      maxfd := listenfd;
      maxi := -1;
      client := new int[FD_SETSIZE](_ => -1);
      allset := {listenfd};
    }

    /** A new connection takes the first free entry. There is one, so the program's exit for
        too many clients has no branch here. */
    method AddClient(connfd: int) returns (i: nat)
      requires Valid() && 0 <= connfd < FD_SETSIZE && connfd !in allset
      modifies this`allset, this`maxi, this`maxfd, client
      ensures Valid() && allset == old(allset) + {connfd}
      ensures IsFirstFree(old(client[..]), i) && client[..] == old(client[..])[i := connfd]
    {
      SomeEntryIsFree(client[..], allset, listenfd, maxi, maxfd);
      ghost var free :| 0 <= free < FD_SETSIZE && client[..][free] < 0;
      i := 0;
      while i < FD_SETSIZE && client[i] >= 0
        invariant 0 <= i <= free
        invariant forall k :: 0 <= k < i ==> client[..][k] >= 0
      {
        i := i + 1;
      }
      AddKeepsBook(client[..], allset, listenfd, maxi, maxfd, i, connfd);
      client[i] := connfd;
      assert client[..] == old(client[..])[i := connfd];
      allset := allset + {connfd};
      maxfd := if connfd > maxfd then connfd else maxfd;
      maxi := if i > maxi then i else maxi;
    }

    /** One turn of the event loop, for the set `select` reported: a pending connection is
        accepted as `connfd`, and `Read` answers `length(fd)` on a client, 0 at its end.
        Every ready client is read from exactly once, whatever is skipped. */
    method Turn(rset: set<int>, connfd: int, length: int -> int) returns (served: seq<int>)
      requires Valid() && rset != {} && rset <= allset
      requires listenfd in rset ==> 0 <= connfd < FD_SETSIZE && connfd !in allset
      modifies this`allset, this`maxi, this`maxfd, client
      ensures Valid()
      ensures forall f :: f in served <==> f in rset && f != listenfd
      ensures NoRepeat(served)
      ensures Watching(old(allset) + (if listenfd in rset then {connfd} else {}), allset, served, length)
    {
      served := [];
      var nready := |rset|;
      ghost var ready := rset - {listenfd};
      if listenfd in rset {
        var _ := AddClient(connfd);
        nready := nready - 1;
        if nready == 0 {
          return;
        }
      }
      served := Serve(rset, nready, length);
    }

    method Serve(rset: set<int>, nready: nat, length: int -> int) returns (served: seq<int>)
      requires Valid() && nready == |rset - {listenfd}| > 0 && rset <= allset
      modifies this`allset, client
      ensures Valid()
      ensures forall f :: f in served <==> f in rset && f != listenfd
      ensures NoRepeat(served)
      ensures Watching(old(allset), allset, served, length)
    {
      served := [];
      var left: int := nready;
      ghost var ready, was, watched := rset - {listenfd}, client[..], allset;
      var i := 0;
      while i <= maxi
        invariant 0 <= i <= maxi + 1
        invariant Valid() && client[..][i..] == was[i..]
        invariant Passed(was, ready, i, served)
        invariant left + |served| == |ready| && left > 0
        invariant Watching(watched, allset, served, length)
      {
        var hit, sockfd := Look(i, rset, length, was, watched, served);
        if hit {
          served := served + [sockfd];
          left := left - 1;
          if left == 0 {
            AllServed(served, ready);
            return;
          }
        }
        i := i + 1;
      }
      assert forall f :: f in ready ==> f in was && f !in was[i..];
      PassedAll(was, ready, i, served);
    }

    /** One entry: read from if it is used and its descriptor is ready. */
    method Look(i: nat, rset: set<int>, length: int -> int,
                ghost was: seq<int>, ghost watched: set<int>, ghost served: seq<int>)
      returns (hit: bool, sockfd: int)
      requires Valid() && i <= maxi && i < |was| && client[..][i..] == was[i..] && UsedOnce(was)
      requires Passed(was, rset - {listenfd}, i, served) && Watching(watched, allset, served, length)
      requires rset <= watched && forall f :: f in watched ==> f >= 0
      modifies this`allset, client
      ensures Valid() && client[..][i + 1..] == was[i + 1..]
      ensures Passed(was, rset - {listenfd}, i + 1, if hit then served + [sockfd] else served)
      ensures Watching(watched, allset, if hit then served + [sockfd] else served, length)
    {
      PassOne(was, rset - {listenfd}, i, served);
      assert client[..][i..][0] == was[i..][0];
      assert was[i..][1..] == was[i + 1..] && client[..][i..][1..] == client[..][i + 1..];
      sockfd := client[i];
      hit := sockfd >= 0 && sockfd in rset;
      if hit {
        ReadFrom(i, length, watched, served + [sockfd]);
      }
    }

    /** A client at its end is closed and forgotten. */
    method ReadFrom(i: nat, length: int -> int, ghost watched: set<int>, ghost served: seq<int>)
      requires Valid() && i < FD_SETSIZE && client[i] >= 0 && served != [] && served[|served| - 1] == client[i]
      requires Watching(watched, allset, served[..|served| - 1], length)
      modifies this`allset, client
      ensures Valid() && client[..][i + 1..] == old(client[..])[i + 1..]
      ensures Watching(watched, allset, served, length)
    {
      var sockfd := client[i];
      assert served == served[..|served| - 1] + [sockfd];
      if length(sockfd) == 0 {
        ClearKeepsBook(client[..], allset, listenfd, maxi, maxfd, i);
        allset := allset - {sockfd};
        client[i] := -1;
        assert client[..] == old(client[..])[i := -1];
      }
    }
  }
}
