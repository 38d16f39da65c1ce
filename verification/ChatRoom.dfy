/** The chat room of boost/3.chat_server.cpp: sessions join with a replay of the recent
    messages, every delivered message is queued at every participant, and each session
    writes its queue one message at a time.

    Every method is one handler of the event loop; calling them in any order is a run. */
module ChatRooms {
  import opened ChatMessage
  import opened Common

  const MAX_RECENT := 100

  class ChatSession {
    var writeMsgs: seq<Message>  // front is being written
    var writing: bool            // an asynchronous write has been started and not answered
    var failed: bool             // a write was answered with an error
    ghost var sent: seq<Message>
    ghost var start: nat         // where its messages begin in the room's log
    ghost var end: int           // where they end; -1 while it is a participant

    constructor ()
      ensures writeMsgs == [] && !writing && !failed && sent == [] && end == -1
    {
      writeMsgs, writing, failed, sent, start, end := [], false, false, [], 0, -1;
    }

    /** At most one write is in flight, and one is exactly while the queue is not empty,
        unless a write has failed. */
    ghost predicate OneWrite()
      reads this
    {
      if failed then !writing else writing <==> writeMsgs != []
    }

    method DoWrite()
      requires !writing && writeMsgs != []
      modifies this`writing
      ensures writing
    {
      writing := true;
    }

    method Deliver(msg: Message)
      requires OneWrite() && !failed
      modifies this`writeMsgs, this`writing
      ensures OneWrite() && writeMsgs == old(writeMsgs) + [msg]
    {
      var writeInProgress := writeMsgs != [];
      writeMsgs := writeMsgs + [msg];
      if !writeInProgress {
        DoWrite();
      }
    }

    /** The handler of a finished write: the front message is gone, the next one starts. */
    method Written(ok: bool)
      requires OneWrite() && writing
      modifies this`writeMsgs, this`writing, this`failed, this`sent
      ensures OneWrite() && (failed <==> !ok)
      ensures ok ==> sent == old(sent) + [old(writeMsgs)[0]] && writeMsgs == old(writeMsgs)[1..]
      ensures !ok ==> sent == old(sent) && writeMsgs == old(writeMsgs)
      ensures sent + writeMsgs == old(sent + writeMsgs)
    {
      writing := false;
      if ok {
        assert (sent + [writeMsgs[0]]) + writeMsgs[1..] == sent + writeMsgs;
        sent := sent + [writeMsgs[0]];
        writeMsgs := writeMsgs[1..];
        if writeMsgs != [] {
          DoWrite();
        }
      } else {
        failed := true;
      }
    }
  }

  /** The messages from a position on, at most the last `MAX_RECENT` before it. */
  function Window(n: nat): nat {
    if n > MAX_RECENT then n - MAX_RECENT else 0
  }

  lemma LongerTail(log: seq<Message>, msg: Message, start: nat)
    requires start <= |log|
    ensures (log + [msg])[start..] == log[start..] + [msg]
  {
  }

  class ChatRoom {
    var participants: set<ChatSession>
    var recent: seq<Message>
    ghost var log: seq<Message>             // everything delivered, in order
    ghost var sessions: set<ChatSession>    // everyone who ever joined

    constructor ()
      ensures Valid() && log == [] && sessions == {}
    {
      participants, recent, log, sessions := {}, [], [], {};
    }

    /** What a session has written, followed by what it still has queued, is a contiguous
        segment of the room's log: from its start to where it left, or to the end. */
    ghost predicate Ordered(s: ChatSession)
      reads s, this
    {
      && s.start <= (if s.end < 0 then |log| else s.end) <= |log|
      && s.sent + s.writeMsgs == log[s.start..if s.end < 0 then |log| else s.end]
      && s.OneWrite()
      && (s in participants <==> s.end < 0)
      && (s.failed ==> s.end >= 0)
    }

    ghost predicate Valid()
      reads this, sessions
    {
      && participants <= sessions
      && recent == log[Window(|log|)..]
      && (forall i :: 0 <= i < |log| ==> log[i].Valid())
      && forall s :: s in sessions ==> Ordered(s)
    }

    /** The newcomer starts at most `MAX_RECENT` messages back. */
    method Join(participant: ChatSession)
      requires Valid() && participant !in sessions
      requires participant.writeMsgs == [] && participant.sent == [] && !participant.writing && !participant.failed
      modifies this`participants, this`sessions, participant
      ensures Valid() && log == old(log) && sessions == old(sessions) + {participant}
      ensures participant in participants && participant.start == Window(|log|) && participant.end == -1
      ensures participant.sent == [] && !participant.failed
    {
      participants := participants + {participant};
      sessions := sessions + {participant};
      participant.start, participant.end := Window(|log|), -1;
      Replay(participant);
    }

    method Replay(participant: ChatSession)
      requires participant.OneWrite() && !participant.failed && participant.sent == participant.writeMsgs == []
      modifies participant
      ensures participant.OneWrite() && !participant.failed && participant.sent == []
      ensures participant.writeMsgs == recent
      ensures participant.start == old(participant.start) && participant.end == old(participant.end)
    {
      for i := 0 to |recent|
        invariant participant.OneWrite() && !participant.failed && participant.sent == []
        invariant participant.writeMsgs == recent[..i]
        invariant participant.start == old(participant.start) && participant.end == old(participant.end)
      {
        participant.Deliver(recent[i]);
      }
    }

    method Leave(participant: ChatSession)
      requires Valid() && participant in sessions
      modifies this`participants, participant`end
      ensures Valid() && log == old(log)
      ensures participants == old(participants) - {participant} && participant.end >= 0
      ensures participant.end == if participant in old(participants) then |log| else old(participant.end)
    {
      if participant in participants {
        participant.end := |log|;
      }
      participants := participants - {participant};
    }

    /** The history keeps the last `MAX_RECENT` messages. */
    method Remember(msg: Message)
      requires recent == log[Window(|log|)..]
      modifies this`recent, this`log
      ensures log == old(log) + [msg] && recent == log[Window(|log|)..]
    {
      LongerTail(log, msg, Window(|log|));
      log := log + [msg];
      recent := recent + [msg];
      while |recent| > MAX_RECENT
        modifies this`recent
        invariant |log| - Window(|log|) <= |recent| <= |log| && recent == log[|log| - |recent|..]
      {
        assert recent[1..] == log[|log| - |recent| + 1..];
        recent := recent[1..];
      }
    }

    /** One message for all: the log grows by it, and so does every participant's queue.
        The read loop delivers only valid frames. */
    method Deliver(msg: Message)
      requires Valid() && msg.Valid()
      modifies this`recent, this`log, participants
      ensures Valid() && log == old(log) + [msg]
      ensures forall s :: s in participants ==> s.writeMsgs == old(s.writeMsgs) + [msg]
      ensures forall s :: s in participants ==> s.sent == old(s.sent) && s.failed == old(s.failed)
      ensures forall s :: s in participants ==> s.start == old(s.start) && s.end == old(s.end)
    {
      assert forall s :: s in participants ==> Ordered(s) && s.OneWrite() && !s.failed;
      Remember(msg);
      Broadcast(msg);
      forall s | s in sessions
        ensures Ordered(s)
      {
        assert old(Ordered(s));
        if s in participants {
          assert Received(s, msg);
          LongerTail(old(log), msg, s.start);
          assert s.sent + s.writeMsgs == old(s.sent + s.writeMsgs) + [msg];
        } else {
          assert log[s.start..s.end] == old(log)[s.start..s.end];
        }
      }
    }

    method Broadcast(msg: Message)
      requires forall s :: s in participants ==> s.OneWrite() && !s.failed
      modifies participants
      ensures forall s :: s in participants ==> Received(s, msg)
    {
      var todo := participants;
      while todo != {}
        invariant todo <= participants
        invariant forall s :: s in todo ==> unchanged(s)
        invariant forall s :: s in participants && s !in todo ==> Received(s, msg)
        decreases todo
      {
        ghost var some := AnElement(todo);
        var s :| s in todo;
        s.Deliver(msg);
        todo := todo - {s};
      }
    }

    twostate predicate Received(s: ChatSession, msg: Message)
      reads s
    {
      && s.OneWrite() && s.writeMsgs == old(s.writeMsgs) + [msg]
      && s.failed == old(s.failed) && s.sent == old(s.sent) && s.start == old(s.start) && s.end == old(s.end)
    }

    /** The event loop answers a session's write; after an error the session leaves. */
    method WriteDone(session: ChatSession, ok: bool)
      requires Valid() && session in sessions && session.writing
      modifies this`participants, session
      ensures Valid() && log == old(log)
      ensures session.failed <==> !ok
      ensures ok ==> session.sent == old(session.sent) + [old(session.writeMsgs)[0]]
      ensures session.writeMsgs == if ok then old(session.writeMsgs)[1..] else old(session.writeMsgs)
      ensures !ok ==> session.sent == old(session.sent)
      ensures participants == if ok then old(participants) else old(participants) - {session}
      ensures session.start == old(session.start)
      ensures session.end == if !ok && session in old(participants) then |log| else old(session.end)
    {
      if !ok {
        Leave(session);
      }
      session.Written(ok);
    }
  }

  /** What the other end of a session reads back from the bytes written to it, broken off
      anywhere inside the next message, is the room's log from where the session starts. */
  lemma ClientReadsTheLog(room: ChatRoom, s: ChatSession, partial: string)
    requires room.Valid() && s in room.sessions
    requires partial == "" || (s.writeMsgs != [] && partial < s.writeMsgs[0].Bytes())
    ensures s.start + |s.sent| <= |room.log|
    ensures ReadFrames(Stream(s.sent) + partial).0 == room.log[s.start..s.start + |s.sent|]
  {
    assert room.Ordered(s);
    ReadsSegment(room.log, s.start, if s.end < 0 then |room.log| else s.end, s.sent, s.writeMsgs, partial);
  }

  lemma ReadsSegment(log: seq<Message>, start: nat, end: nat, sent: seq<Message>, queue: seq<Message>, partial: string)
    requires start <= end <= |log| && sent + queue == log[start..end]
    requires forall i :: 0 <= i < |log| ==> log[i].Valid()
    requires partial == "" || (queue != [] && partial < queue[0].Bytes())
    ensures start + |sent| <= |log|
    ensures ReadFrames(Stream(sent) + partial).0 == log[start..start + |sent|]
  {
    assert sent == (sent + queue)[..|sent|] == log[start..start + |sent|];
    FramesAreRead(sent, partial);
    if partial != "" {
      assert queue[0] == (sent + queue)[|sent|] == log[start + |sent|];
      Unfinished(queue[0], partial);
    }
    assert sent + [] == sent;
  }

  lemma Unfinished(m: Message, partial: string)
    requires m.Valid() && partial < m.Bytes()
    ensures ReadFrames(partial).0 == []
  {
    if |partial| >= HEADER_LENGTH {
      assert partial[..HEADER_LENGTH] == m.Bytes()[..HEADER_LENGTH] == m.header;
    }
  }

  /** Any two sessions agree on every message both have written: one order for all. */
  lemma OneOrder(room: ChatRoom, a: ChatSession, b: ChatSession, k: nat)
    requires room.Valid() && a in room.sessions && b in room.sessions
    requires a.start <= k < a.start + |a.sent| && b.start <= k < b.start + |b.sent|
    ensures a.sent[k - a.start] == b.sent[k - b.start]
  {
    assert room.Ordered(a) && room.Ordered(b);
    forall s | s in {a, b}
      ensures s.sent[k - s.start] == room.log[k]
    {
      assert s.sent[k - s.start] == (s.sent + s.writeMsgs)[k - s.start];
    }
  }

  // ----- Whole runs

  /** What the event loop may be told: a connection, a read that ended the connection, a
      message read, a write answered. */
  datatype Event = Joins | Leaves(i: nat) | Says(msg: Message) | WriteEnds(i: nat, ok: bool)

  /** The messages delivered, in order; the read loop hands on valid ones only. */
  function Said(script: seq<Event>): seq<Message> {
    if script == [] then []
    else
      var before, e := Said(script[..|script| - 1]), script[|script| - 1];
      if e.Says? && e.msg.Valid() then before + [e.msg] else before
  }

  function JoinsIn(script: seq<Event>): nat {
    if script == [] then 0
    else JoinsIn(script[..|script| - 1]) + (if script[|script| - 1].Joins? then 1 else 0)
  }

  // ----- The room without its queues

  /** A session as positions in the log: where its messages begin and end, -1 while it is in
      the room, how many have been written, and whether a write has failed. */
  datatype Member = Member(start: nat, end: int, sent: nat, failed: bool)

  /** A write is in flight, `said` messages having been delivered. */
  predicate Writing(m: Member, said: nat) {
    !m.failed && m.start + m.sent < if m.end < 0 then said else m.end
  }

  predicate Answered(ms: seq<Member>, e: Event, said: nat) {
    e.WriteEnds? && e.i < |ms| && Writing(ms[e.i], said)
  }

  function Gone(m: Member, said: nat): Member {
    if m.end < 0 then m.(end := said) else m
  }

  /** One event. Events for sessions that do not exist, and answers to writes that are not
      in flight, change nothing. */
  function After(ms: seq<Member>, e: Event, said: nat): seq<Member> {
    if e.Joins? then ms + [Member(Window(said), -1, 0, false)]
    else if e.Leaves? && e.i < |ms| then ms[e.i := Gone(ms[e.i], said)]
    else if Answered(ms, e, said) then
      ms[e.i := if e.ok then ms[e.i].(sent := ms[e.i].sent + 1) else Gone(ms[e.i], said).(failed := true)]
    else ms
  }

  function Members(script: seq<Event>): seq<Member> {
    if script == [] then []
    else
      var before := script[..|script| - 1];
      After(Members(before), script[|script| - 1], |Said(before)|)
  }

  /** Event `r` puts session `i` out of the room, if it is still in: it leaves, or a write that
      was in flight fails. */
  predicate Goes(script: seq<Event>, r: nat, i: nat)
    requires r < |script|
  {
    script[r] == Leaves(i) ||
    (script[r] == WriteEnds(i, false) && Answered(Members(script[..r]), script[r], |Said(script[..r])|))
  }

  /** Session `i` joins at event `p`, as the `i`-th, and goes at event `q`, the first that puts
      it out, or never (-1). Its messages begin at most `MAX_RECENT` before it joined, and end
      where it went. */
  ghost predicate Part(script: seq<Event>, i: nat, p: nat, q: int, m: Member) {
    && p < |script| && script[p].Joins? && JoinsIn(script[..p]) == i
    && m.start == Window(|Said(script[..p])|)
    && (if q < 0 then q == m.end == -1 else p < q < |script| && Goes(script, q, i) && m.end == |Said(script[..q])|)
    && forall r :: p < r < |script| && Goes(script, r, i) ==> 0 <= q <= r
  }

  lemma {:induction false} MembersJoined(script: seq<Event>)
    ensures |Members(script)| == JoinsIn(script)
  {
    if script != [] {
      MembersJoined(script[..|script| - 1]);
    }
  }

  lemma GoesBefore(script: seq<Event>, e: Event, r: nat, i: nat)
    requires r < |script|
    ensures Goes(script + [e], r, i) <==> Goes(script, r, i)
  {
    assert (script + [e])[..r] == script[..r];
  }

  /** What a session's positions mean, for every script. */
  lemma {:induction false} MemberHistory(script: seq<Event>, i: nat)
    requires i < |Members(script)|
    ensures exists p: nat, q: int :: Part(script, i, p, q, Members(script)[i])
  {
    var n := |script| - 1;
    var before, e := script[..n], script[n];
    assert script == before + [e];
    MembersJoined(before);
    if i == |Members(before)| {
      assert Part(script, i, n, -1, Members(script)[i]);
    } else {
      MemberHistory(before, i);
      var p: nat, q :| Part(before, i, p, q, Members(before)[i]);
      MemberStep(before, e, i, p, q);
    }
  }

  lemma MemberStep(script: seq<Event>, e: Event, i: nat, p: nat, q: int)
    requires i < |Members(script)| && Part(script, i, p, q, Members(script)[i])
    ensures i < |Members(script + [e])|
    ensures var gone := q < 0 && Goes(script + [e], |script|, i);
      Part(script + [e], i, p, if gone then |script| else q, Members(script + [e])[i])
  {
    var more, q' := script + [e], if q < 0 && Goes(script + [e], |script|, i) then |script| else q;
    assert more[..|script|] == script && more[..p] == script[..p];
    if q >= 0 {
      assert more[..q] == script[..q];
      GoesBefore(script, e, q, i);
    }
    var was, now := Members(script)[i], Members(more)[i];
    assert now.start == was.start && now.end == if q' == q then was.end else |Said(script)|;
    forall r | p < r < |more| && Goes(more, r, i)
      ensures 0 <= q' <= r
    {
      if r < |script| {
        GoesBefore(script, e, r, i);
      }
    }
  }

  // ----- The room follows

  ghost predicate AllIn(all: seq<ChatSession>, room: ChatRoom)
    reads room
  {
    && (forall i :: 0 <= i < |all| ==> all[i] in room.sessions)
    && (forall i, j :: 0 <= i < j < |all| ==> all[i] != all[j])
  }

  ghost predicate IsMember(s: ChatSession, m: Member)
    reads s
  {
    s.start == m.start && s.end == m.end && |s.sent| == m.sent && s.failed == m.failed
  }

  ghost predicate At(all: seq<ChatSession>, ms: seq<Member>)
    reads all
  {
    |all| == |ms| && forall i :: 0 <= i < |all| ==> IsMember(all[i], ms[i])
  }

  lemma InFlight(room: ChatRoom, s: ChatSession, m: Member)
    requires room.Ordered(s) && IsMember(s, m)
    ensures s.writing <==> Writing(m, |room.log|)
  {
    var end := if s.end < 0 then |room.log| else s.end;
    assert |s.sent| + |s.writeMsgs| == |room.log[s.start..end]|;
  }

  method HandleJoin(room: ChatRoom, all: seq<ChatSession>, ghost ms: seq<Member>) returns (now: seq<ChatSession>)
    requires room.Valid() && AllIn(all, room) && At(all, ms)
    modifies room, room.sessions
    ensures room.Valid() && AllIn(now, room) && fresh(room.sessions - old(room.sessions)) && room.log == old(room.log)
    ensures At(now, ms + [Member(Window(|room.log|), -1, 0, false)])
  {
    var s := new ChatSession();
    room.Join(s);
    now := all + [s];
  }

  method HandleLeave(room: ChatRoom, all: seq<ChatSession>, i: nat, ghost ms: seq<Member>)
    requires room.Valid() && AllIn(all, room) && At(all, ms) && i < |all|
    modifies room, room.sessions
    ensures room.Valid() && AllIn(all, room) && room.sessions == old(room.sessions) && room.log == old(room.log)
    ensures At(all, ms[i := Gone(ms[i], |room.log|)])
  {
    assert room.Ordered(all[i]) && IsMember(all[i], ms[i]);
    room.Leave(all[i]);
  }

  method HandleWrite(room: ChatRoom, all: seq<ChatSession>, i: nat, ok: bool, ghost ms: seq<Member>)
    requires room.Valid() && AllIn(all, room) && At(all, ms) && i < |all|
    modifies room, room.sessions
    ensures room.Valid() && AllIn(all, room) && room.sessions == old(room.sessions) && room.log == old(room.log)
    ensures At(all, After(ms, WriteEnds(i, ok), |room.log|))
  {
    assert room.Ordered(all[i]) && IsMember(all[i], ms[i]);
    InFlight(room, all[i], ms[i]);
    if all[i].writing {
      room.WriteDone(all[i], ok);
    }
  }

  method Handle(room: ChatRoom, all: seq<ChatSession>, e: Event, ghost ms: seq<Member>) returns (now: seq<ChatSession>)
    requires room.Valid() && AllIn(all, room) && At(all, ms)
    modifies room, room.sessions
    ensures room.Valid() && AllIn(now, room) && fresh(room.sessions - old(room.sessions))
    ensures room.log == if e.Says? && e.msg.Valid() then old(room.log) + [e.msg] else old(room.log)
    ensures At(now, After(ms, e, |old(room.log)|))
  {
    now := all;
    match e {
      case Joins =>
        now := HandleJoin(room, all, ms);
      case Leaves(i) =>
        if i < |all| {
          HandleLeave(room, all, i, ms);
        }
      case Says(msg) =>
        if msg.Valid() {
          room.Deliver(msg);
        }
      case WriteEnds(i, ok) =>
        if i < |all| {
          HandleWrite(room, all, i, ok, ms);
        }
    }
  }

  /** What a session has written, what it has queued and whether a write is in flight, by
      its positions among the messages said. */
  ghost predicate Heard(said: seq<Message>, s: ChatSession, m: Member)
    reads s
  {
    var end := if m.end < 0 then |said| else m.end;
    && m.start + m.sent <= end <= |said|
    && s.sent == said[m.start..m.start + m.sent] && s.writeMsgs == said[m.start + m.sent..end]
    && (s.writing <==> Writing(m, |said|))
  }

  lemma MemberHeard(room: ChatRoom, s: ChatSession, m: Member)
    requires room.Ordered(s) && IsMember(s, m)
    ensures Heard(room.log, s, m)
  {
    InFlight(room, s, m);
    var segment := room.log[s.start..if s.end < 0 then |room.log| else s.end];
    assert s.sent == (s.sent + s.writeMsgs)[..m.sent] == segment[..m.sent];
    assert s.writeMsgs == (s.sent + s.writeMsgs)[m.sent..] == segment[m.sent..];
  }

  lemma OneEvent(script: seq<Event>, n: nat)
    requires n < |script|
    ensures Members(script[..n + 1]) == After(Members(script[..n]), script[n], |Said(script[..n])|)
    ensures Said(script[..n + 1]) ==
      Said(script[..n]) + if script[n].Says? && script[n].msg.Valid() then [script[n].msg] else []
  {
    assert script[..n + 1][..n] == script[..n];
  }

  lemma MembersHeard(room: ChatRoom, all: seq<ChatSession>, ms: seq<Member>)
    requires room.Valid() && AllIn(all, room) && At(all, ms)
    ensures forall i :: 0 <= i < |all| ==> Heard(room.log, all[i], ms[i])
  {
    forall i | 0 <= i < |all|
      ensures Heard(room.log, all[i], ms[i])
    {
      assert room.Ordered(all[i]) && IsMember(all[i], ms[i]);
      MemberHeard(room, all[i], ms[i]);
    }
  }

  /** Ordered broadcast, in every run of the event loop from an empty room: the log is what
      was said, and each session has written, and has queued, exactly its part of it;
      `MemberHistory` says which part. */
  method Play(script: seq<Event>) returns (room: ChatRoom, all: seq<ChatSession>)
    ensures room.Valid() && AllIn(all, room) && room.log == Said(script)
    ensures |all| == JoinsIn(script) && At(all, Members(script))
    ensures forall i :: 0 <= i < |all| ==> Heard(Said(script), all[i], Members(script)[i])
  {
    room := new ChatRoom();
    all := [];
    ghost var ms := [];
    for n := 0 to |script|
      invariant room.Valid() && AllIn(all, room) && At(all, ms)
      invariant fresh(room) && fresh(room.sessions)
      invariant room.log == Said(script[..n]) && ms == Members(script[..n])
    {
      OneEvent(script, n);
      ghost var before := |room.log|;
      all := Handle(room, all, script[n], ms);
      ms := After(ms, script[n], before);
    }
    assert script[..|script|] == script;
    MembersJoined(script);
    MembersHeard(room, all, Members(script));
  }
}
