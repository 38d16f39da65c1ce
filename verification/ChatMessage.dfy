/** The wire format of boost/3.chat_message.hpp: a header of four characters giving the
    length of the body in decimal, then the body; and the loop that reads such frames. */
module ChatMessage {
  import opened Common

  const HEADER_LENGTH := 4
  const MAX_BODY_LENGTH := 512

  // ----- `sprintf("%4d")` and `atoi`

  predicate IsSpace(c: char) {
    c == ' ' || '\t' <= c <= '\r'
  }

  function PadLeft(s: string, width: nat): string
    decreases width - |s|
  {
    if |s| >= width then s else PadLeft([' '] + s, width)
  }

  /** The digits at the front, as a number; `acc` holds those already read. */
  function Digits(s: string, acc: nat): nat {
    if s == "" || !IsDigit(s[0]) then acc
    else Digits(s[1..], acc * 10 + (s[0] as int - '0' as int))
  }

  /** Leading white space, an optional sign, then digits; anything else ends the number. */
  function Atoi(s: string): int {
    if s == "" then 0
    else if IsSpace(s[0]) then Atoi(s[1..])
    else if s[0] == '-' then 0 - Digits(s[1..], 0)
    else if s[0] == '+' then Digits(s[1..], 0)
    else Digits(s, 0)
  }

  /** `strncat` stops at a zero byte. */
  function UpToNul(s: string): string {
    if s == "" || s[0] == '\0' then "" else [s[0]] + UpToNul(s[1..])
  }

  function EncodeLength(n: nat): string {
    PadLeft(Decimal(n), HEADER_LENGTH)
  }

  /** The length a header announces; a negative number becomes a very large one. */
  function HeaderValue(header: string): nat {
    var n := Atoi(UpToNul(header));
    if n < 0 then MAX_BODY_LENGTH + 1 else n
  }

  lemma {:induction false} DigitsAppend(s: string, c: char, acc: nat)
    requires (forall i :: 0 <= i < |s| ==> IsDigit(s[i])) && IsDigit(c)
    ensures Digits(s + [c], acc) == Digits(s, acc) * 10 + (c as int - '0' as int)
  {
    if s == "" {
      assert (s + [c])[1..] == "";
    } else {
      assert (s + [c])[1..] == s[1..] + [c];
      DigitsAppend(s[1..], c, acc * 10 + (s[0] as int - '0' as int));
    }
  }

  lemma {:induction false} DecimalDigits(n: nat)
    ensures Decimal(n) != "" && (forall i :: 0 <= i < |Decimal(n)| ==> IsDigit(Decimal(n)[i]))
    ensures Digits(Decimal(n), 0) == n
    ensures n < 1000 ==> |Decimal(n)| <= 3
  {
    if n >= 10 {
      DecimalDigits(n / 10);
      DigitsAppend(Decimal(n / 10), ('0' as int + n % 10) as char, 0);
      if n < 1000 {
        SmallDecimal(n);
      }
    } else {
      assert Decimal(n)[1..] == "";
    }
  }

  lemma SmallDecimal(n: nat)
    requires n < 1000
    ensures |Decimal(n)| <= 3
  {
    if n >= 100 {
      assert |Decimal(n / 10 / 10)| == 1;
      assert |Decimal(n / 10)| == 2;
    }
  }

  lemma {:induction false} PadKeepsValue(s: string, width: nat)
    requires s != "" && forall i :: 0 <= i < |s| ==> s[i] == ' ' || IsDigit(s[i])
    ensures Atoi(PadLeft(s, width)) == Atoi(s) && |PadLeft(s, width)| == (if |s| >= width then |s| else width)
    ensures forall i :: 0 <= i < |PadLeft(s, width)| ==> PadLeft(s, width)[i] == ' ' || IsDigit(PadLeft(s, width)[i])
    decreases width - |s|
  {
    if |s| < width {
      assert ([' '] + s)[1..] == s;
      PadKeepsValue([' '] + s, width);
    }
  }

  lemma {:induction false} NoNul(s: string)
    requires forall i :: 0 <= i < |s| ==> s[i] != '\0'
    ensures UpToNul(s) == s
  {
    if s != "" {
      NoNul(s[1..]);
    }
  }

  /** Every legal body length survives the header. */
  lemma HeaderRoundTrip(n: nat)
    requires n <= MAX_BODY_LENGTH
    ensures |EncodeLength(n)| == HEADER_LENGTH && HeaderValue(EncodeLength(n)) == n
  {
    DecimalDigits(n);
    PadKeepsValue(Decimal(n), HEADER_LENGTH);
    NoNul(EncodeLength(n));
  }

  // ----- Frames

  /** A message as it travels: the four header bytes as received, and the body. */
  datatype Message = Message(header: string, body: string)
  {
    predicate Valid() {
      |header| == HEADER_LENGTH && HeaderValue(header) == |body| <= MAX_BODY_LENGTH
    }

    function Bytes(): string {
      header + body
    }
  }

  /** What a client sends for a line of text. */
  function Compose(body: string): (m: Message)
    requires |body| <= MAX_BODY_LENGTH
    ensures m.Valid() && m.body == body
  {
    HeaderRoundTrip(|body|);
    Message(EncodeLength(|body|), body)
  }

  function Stream(messages: seq<Message>): string {
    if messages == [] then "" else messages[0].Bytes() + Stream(messages[1..])
  }

  /** Why reading ended: the bytes ran out between frames or inside one, or a header
      announced too long a body. */
  datatype Ending = AtFrameEnd | Truncated | BadHeader

  /** The read loop: four bytes, decode, that many bytes, again. */
  function ReadFrames(bytes: string): (r: (seq<Message>, Ending)) {
    if bytes == "" then ([], AtFrameEnd)
    else if |bytes| < HEADER_LENGTH then ([], Truncated)
    else
      var header, rest := bytes[..HEADER_LENGTH], bytes[HEADER_LENGTH..];
      var n := HeaderValue(header);
      if n > MAX_BODY_LENGTH then ([], BadHeader)
      else if |rest| < n then ([], Truncated)
      else
        var (messages, ending) := ReadFrames(rest[n..]);
        ([Message(header, rest[..n])] + messages, ending)
  }

  lemma OneFrame(m: Message, tail: string)
    requires m.Valid()
    ensures ReadFrames(m.header + (m.body + tail)) == ([m] + ReadFrames(tail).0, ReadFrames(tail).1)
  {
    var bytes := m.header + (m.body + tail);
    assert bytes[..HEADER_LENGTH] == m.header && bytes[HEADER_LENGTH..] == m.body + tail;
    assert (m.body + tail)[..|m.body|] == m.body && (m.body + tail)[|m.body|..] == tail;
  }

  /** Framing loses nothing: frames written one after the other are read back as they
      were, and reading goes on with whatever bytes follow. */
  lemma {:induction false} FramesAreRead(messages: seq<Message>, rest: string)
    requires forall i :: 0 <= i < |messages| ==> messages[i].Valid()
    ensures ReadFrames(Stream(messages) + rest) == (messages + ReadFrames(rest).0, ReadFrames(rest).1)
  {
    if messages == [] {
      assert Stream(messages) + rest == rest;
      assert messages + ReadFrames(rest).0 == ReadFrames(rest).0;
    } else {
      FramesAreRead(messages[1..], rest);
      StreamStart(messages, rest);
      OneFrame(messages[0], Stream(messages[1..]) + rest);
      HeadAndTail(messages, ReadFrames(rest).0);
    }
  }

  /** What a client sends for its lines, one frame each. */
  function Composed(lines: seq<string>): (messages: seq<Message>)
    requires forall i :: 0 <= i < |lines| ==> |lines[i]| <= MAX_BODY_LENGTH
    ensures |messages| == |lines| && forall i :: 0 <= i < |lines| ==> messages[i].Valid() && messages[i].body == lines[i]
  {
    if lines == [] then [] else Composed(lines[..|lines| - 1]) + [Compose(lines[|lines| - 1])]
  }

  /** The lines a client sends are the bodies the server reads. */
  lemma LinesArrive(lines: seq<string>)
    requires forall i :: 0 <= i < |lines| ==> |lines[i]| <= MAX_BODY_LENGTH
    ensures ReadFrames(Stream(Composed(lines))) == (Composed(lines), AtFrameEnd)
  {
    var messages := Composed(lines);
    FramesAreRead(messages, "");
    assert Stream(messages) + "" == Stream(messages) && messages + [] == messages;
  }

  lemma StreamStart(messages: seq<Message>, rest: string)
    requires messages != []
    ensures Stream(messages) + rest == messages[0].header + (messages[0].body + (Stream(messages[1..]) + rest))
  {
  }

  lemma HeadAndTail(messages: seq<Message>, more: seq<Message>)
    requires messages != []
    ensures [messages[0]] + (messages[1..] + more) == messages + more
  {
  }

  /** Conversely what is read is valid, and the frames read are the bytes up to where
      reading ended; all of them if it ended between frames. */
  lemma {:induction false} ReadFramesAreValid(bytes: string) returns (tail: string)
    ensures forall i :: 0 <= i < |ReadFrames(bytes).0| ==> ReadFrames(bytes).0[i].Valid()
    ensures bytes == Stream(ReadFrames(bytes).0) + tail
    ensures ReadFrames(bytes).1.AtFrameEnd? <==> tail == ""
  {
    tail := bytes;
    if |bytes| >= HEADER_LENGTH {
      var header, rest := bytes[..HEADER_LENGTH], bytes[HEADER_LENGTH..];
      var n := HeaderValue(header);
      if n <= MAX_BODY_LENGTH && n <= |rest| {
        tail := ReadFramesAreValid(rest[n..]);
        Reassembled(bytes, n, ReadFrames(rest[n..]).0, tail);
      }
    }
  }

  lemma Reassembled(bytes: string, n: nat, messages: seq<Message>, tail: string)
    requires |bytes| >= HEADER_LENGTH + n && bytes[HEADER_LENGTH..][n..] == Stream(messages) + tail
    ensures bytes == Stream([Message(bytes[..HEADER_LENGTH], bytes[HEADER_LENGTH..][..n])] + messages) + tail
  {
    var m := Message(bytes[..HEADER_LENGTH], bytes[HEADER_LENGTH..][..n]);
    assert ([m] + messages)[1..] == messages;
    assert bytes == m.Bytes() + bytes[HEADER_LENGTH..][n..];
    assert m.Bytes() + (Stream(messages) + tail) == (m.Bytes() + Stream(messages)) + tail;
  }

  // ----- The message as a buffer

  class ChatMessageBuffer {
    const data: array<char>
    var bodyLength: nat

    ghost predicate Valid()
      reads this
    {
      data.Length == HEADER_LENGTH + MAX_BODY_LENGTH && bodyLength <= MAX_BODY_LENGTH
    }

    constructor ()
      ensures Valid() && fresh(data) && bodyLength == 0
    {
      data := new char[HEADER_LENGTH + MAX_BODY_LENGTH](_ => '\0');
      bodyLength := 0;
    }

    method SetBodyLength(newLength: nat)
      requires Valid()
      modifies this
      ensures Valid() && bodyLength == if newLength <= MAX_BODY_LENGTH then newLength else MAX_BODY_LENGTH
    {
      bodyLength := newLength;
      if bodyLength > MAX_BODY_LENGTH {
        bodyLength := MAX_BODY_LENGTH;
      }
    }

    method DecodeHeader() returns (ok: bool)
      requires Valid()
      modifies this
      ensures Valid() && (ok <==> HeaderValue(data[..HEADER_LENGTH]) <= MAX_BODY_LENGTH)
      ensures bodyLength == if ok then HeaderValue(data[..HEADER_LENGTH]) else 0
    {
      bodyLength := HeaderValue(data[..HEADER_LENGTH]);
      ok := bodyLength <= MAX_BODY_LENGTH;
      if !ok {
        bodyLength := 0;
      }
    }

    /** What it writes is what `DecodeHeader` reads back. */
    method EncodeHeader()
      requires Valid()
      modifies data
      ensures Valid() && data[..HEADER_LENGTH] == EncodeLength(bodyLength)
      ensures data[HEADER_LENGTH..] == old(data[HEADER_LENGTH..])
      ensures HeaderValue(data[..HEADER_LENGTH]) == bodyLength
    {
      HeaderRoundTrip(bodyLength);
      var header := EncodeLength(bodyLength);
      for i := 0 to HEADER_LENGTH
        invariant data[..i] == header[..i]
        invariant data[HEADER_LENGTH..] == old(data[HEADER_LENGTH..])
      {
        data[i] := header[i];
      }
      assert header[..HEADER_LENGTH] == header;
    }
  }
}
