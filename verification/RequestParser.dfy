/** The incremental HTTP/1.0 request parser of boost/http_server: a machine of twenty states
    that is fed one byte at a time.

    Bytes are written as characters; every byte above 127 is treated alike, whether `char`
    is signed or not. Version numbers are unbounded integers. */
module RequestParser {
  import opened Common

  // ----- Character classes (RFC 1945, section 2.2)

  predicate IsChar(c: char) {
    c as int <= 127
  }

  predicate IsCtl(c: char) {
    c as int <= 31 || c as int == 127
  }

  predicate IsTspecial(c: char) {
    c in "()<>@,;:\\\"/[]?={} \t"
  }

  predicate IsToken(c: char) {
    IsChar(c) && !IsCtl(c) && !IsTspecial(c)
  }

  // ----- The machine

  datatype Header = Header(name: string, value: string)

  datatype Request = Request(verb: string, uri: string, major: nat, minor: nat, headers: seq<Header>)

  const EMPTY_REQUEST := Request("", "", 0, 0, [])

  datatype State =
    | MethodStart | Method | Uri
    | VersionH | VersionT1 | VersionT2 | VersionP | VersionSlash
    | MajorStart | Major | MinorStart | Minor
    | Newline1
    | LineStart | Lws | Name | SpaceBeforeValue | Value
    | Newline2 | Newline3

  datatype Verdict = Good | Bad | Indeterminate

  datatype Step = Step(verdict: Verdict, state: State, req: Request)

  /** `req.headers.back()` exists wherever the machine uses it. */
  predicate Placed(st: State, req: Request) {
    st.Lws? || st.Name? || st.SpaceBeforeValue? || st.Value? || st.Newline2? ==> req.headers != []
  }

  function AddToName(req: Request, c: char): Request
    requires req.headers != []
  {
    var last := req.headers[|req.headers| - 1];
    req.(headers := req.headers[..|req.headers| - 1] + [last.(name := last.name + [c])])
  }

  function AddToValue(req: Request, c: char): Request
    requires req.headers != []
  {
    var last := req.headers[|req.headers| - 1];
    req.(headers := req.headers[..|req.headers| - 1] + [last.(value := last.value + [c])])
  }

  function Digit(c: char): nat
    requires IsDigit(c)
  {
    c as int - '0' as int
  }

  function Consume(st: State, req: Request, c: char): (r: Step)
    requires Placed(st, req)
    ensures Placed(r.state, r.req)
    ensures !r.verdict.Indeterminate? ==> r.state == st && r.req == req
  {
    var bad := Step(Bad, st, req);
    match st
    case MethodStart =>
      if !IsToken(c) then bad else Step(Indeterminate, Method, req.(verb := req.verb + [c]))
    case Method =>
      if c == ' ' then Step(Indeterminate, Uri, req)
      else if !IsToken(c) then bad
      else Step(Indeterminate, Method, req.(verb := req.verb + [c]))
    case Uri =>
      if c == ' ' then Step(Indeterminate, VersionH, req)
      else if IsCtl(c) then bad
      else Step(Indeterminate, Uri, req.(uri := req.uri + [c]))
    case VersionH => if c == 'H' then Step(Indeterminate, VersionT1, req) else bad
    case VersionT1 => if c == 'T' then Step(Indeterminate, VersionT2, req) else bad
    case VersionT2 => if c == 'T' then Step(Indeterminate, VersionP, req) else bad
    case VersionP => if c == 'P' then Step(Indeterminate, VersionSlash, req) else bad
    case VersionSlash =>
      if c == '/' then Step(Indeterminate, MajorStart, req.(major := 0, minor := 0)) else bad
    case MajorStart =>
      if IsDigit(c) then Step(Indeterminate, Major, req.(major := req.major * 10 + Digit(c))) else bad
    case Major =>
      if c == '.' then Step(Indeterminate, MinorStart, req)
      else if IsDigit(c) then Step(Indeterminate, Major, req.(major := req.major * 10 + Digit(c)))
      else bad
    case MinorStart =>
      if IsDigit(c) then Step(Indeterminate, Minor, req.(minor := req.minor * 10 + Digit(c))) else bad
    case Minor =>
      if c == '\r' then Step(Indeterminate, Newline1, req)
      else if IsDigit(c) then Step(Indeterminate, Minor, req.(minor := req.minor * 10 + Digit(c)))
      else bad
    case Newline1 => if c == '\n' then Step(Indeterminate, LineStart, req) else bad
    case LineStart =>
      if c == '\r' then Step(Indeterminate, Newline3, req)
      else if req.headers != [] && (c == ' ' || c == '\t') then Step(Indeterminate, Lws, req)
      else if !IsToken(c) then bad
      else Step(Indeterminate, Name, req.(headers := req.headers + [Header([c], "")]))
    case Lws =>
      if c == '\r' then Step(Indeterminate, Newline2, req)
      else if c == ' ' || c == '\t' then Step(Indeterminate, Lws, req)
      else if IsCtl(c) then bad
      else Step(Indeterminate, Value, AddToValue(req, c))
    case Name =>
      if c == ':' then Step(Indeterminate, SpaceBeforeValue, req)
      else if !IsToken(c) then bad
      else Step(Indeterminate, Name, AddToName(req, c))
    case SpaceBeforeValue => if c == ' ' then Step(Indeterminate, Value, req) else bad
    case Value =>
      if c == '\r' then Step(Indeterminate, Newline2, req)
      else if IsCtl(c) then bad
      else Step(Indeterminate, Value, AddToValue(req, c))
    case Newline2 => if c == '\n' then Step(Indeterminate, LineStart, req) else bad
    case Newline3 => if c == '\n' then Step(Good, st, req) else bad
  }

  datatype Outcome = Outcome(verdict: Verdict, consumed: nat, state: State, req: Request)

  /** The loop of `parse`: feed until a verdict or the end of the input. */
  function Feed(st: State, req: Request, input: string): (o: Outcome)
    requires Placed(st, req)
    ensures o.consumed <= |input| && Placed(o.state, o.req)
    ensures o.verdict.Indeterminate? ==> o.consumed == |input|
    decreases |input|
  {
    if input == [] then Outcome(Indeterminate, 0, st, req)
    else
      var step := Consume(st, req, input[0]);
      if step.verdict.Indeterminate? then
        var o := Feed(step.state, step.req, input[1..]);
        o.(consumed := o.consumed + 1)
      else Outcome(step.verdict, 1, step.state, step.req)
  }

  /** A fresh parser on a fresh request. */
  function Parse(input: string): Outcome {
    Feed(MethodStart, EMPTY_REQUEST, input)
  }

  // ----- Chunks

  lemma {:induction false} FeedAppend(st: State, req: Request, a: string, b: string)
    requires Placed(st, req)
    ensures var o := Feed(st, req, a);
      Feed(st, req, a + b) ==
      if o.verdict.Indeterminate? then
        var p := Feed(o.state, o.req, b);
        p.(consumed := |a| + p.consumed)
      else o
    decreases |a|
  {
    if a == [] {
      assert a + b == b;
    } else {
      assert (a + b)[0] == a[0] && (a + b)[1..] == a[1..] + b;
      var step := Consume(st, req, a[0]);
      if step.verdict.Indeterminate? {
        FeedAppend(step.state, step.req, a[1..], b);
      }
    }
  }

  /** A connection: each read hands the parser one more chunk, until there is a verdict. */
  function FeedChunks(st: State, req: Request, chunks: seq<string>): Outcome
    requires Placed(st, req)
    decreases |chunks|
  {
    if chunks == [] then Outcome(Indeterminate, 0, st, req)
    else
      var o := Feed(st, req, chunks[0]);
      if o.verdict.Indeterminate? then
        var p := FeedChunks(o.state, o.req, chunks[1..]);
        p.(consumed := |chunks[0]| + p.consumed)
      else o
  }

  /** Chunk independence: however the bytes are split over reads, verdict, number of bytes
      consumed, parser state and request are those of feeding them whole. */
  lemma {:induction false} ChunksDoNotMatter(st: State, req: Request, chunks: seq<string>)
    requires Placed(st, req)
    ensures FeedChunks(st, req, chunks) == Feed(st, req, Concat(chunks))
    decreases |chunks|
  {
    if chunks != [] {
      FeedAppend(st, req, chunks[0], Concat(chunks[1..]));
      var o := Feed(st, req, chunks[0]);
      if o.verdict.Indeterminate? {
        ChunksDoNotMatter(o.state, o.req, chunks[1..]);
      }
    }
  }

  // ----- The grammar

  /** A continuation line: its leading blanks and the rest. */
  datatype Fold = Fold(blanks: string, text: string)

  datatype HeaderTree = HeaderTree(name: string, text: string, folds: seq<Fold>)

  /** The parts of a request as they are written, versions as digits, headers as lines. */
  datatype Tree = Tree(verb: string, uri: string, major: string, minor: string, headers: seq<HeaderTree>)

  const EMPTY_TREE := Tree("", "", "", "", [])

  predicate IsTokens(s: string) {
    forall i :: 0 <= i < |s| ==> IsToken(s[i])
  }

  predicate IsUri(s: string) {
    forall i :: 0 <= i < |s| ==> s[i] != ' ' && !IsCtl(s[i])
  }

  predicate IsDigits(s: string) {
    forall i :: 0 <= i < |s| ==> IsDigit(s[i])
  }

  predicate IsText(s: string) {
    forall i :: 0 <= i < |s| ==> !IsCtl(s[i])
  }

  predicate IsBlanks(s: string) {
    forall i :: 0 <= i < |s| ==> s[i] == ' ' || s[i] == '\t'
  }

  predicate FoldOk(f: Fold) {
    f.blanks != "" && IsBlanks(f.blanks) && IsText(f.text) && (f.text != "" ==> f.text[0] != ' ')
  }

  predicate HeaderOk(h: HeaderTree) {
    h.name != "" && IsTokens(h.name) && IsText(h.text) && forall i :: 0 <= i < |h.folds| ==> FoldOk(h.folds[i])
  }

  /** A whole request: Request-Line, header lines, folded or not. */
  predicate WellFormed(x: Tree) {
    && x.verb != "" && IsTokens(x.verb) && IsUri(x.uri)
    && x.major != "" && IsDigits(x.major) && x.minor != "" && IsDigits(x.minor)
    && forall i :: 0 <= i < |x.headers| ==> HeaderOk(x.headers[i])
  }

  function PrintFolds(folds: seq<Fold>): string {
    if folds == [] then ""
    else
      var last := folds[|folds| - 1];
      PrintFolds(folds[..|folds| - 1]) + "\r\n" + last.blanks + last.text
  }

  /** A header up to, not including, the line end that closes it. */
  function PrintHeader(h: HeaderTree): string {
    h.name + ": " + h.text + PrintFolds(h.folds)
  }

  function PrintHeaders(headers: seq<HeaderTree>): string {
    if headers == [] then ""
    else PrintHeaders(headers[..|headers| - 1]) + PrintHeader(headers[|headers| - 1]) + "\r\n"
  }

  function PrintTarget(x: Tree): string {
    x.verb + " " + x.uri + " "
  }

  function PrintVersion(x: Tree): string {
    PrintTarget(x) + "HTTP/" + x.major + "." + x.minor
  }

  function Print(x: Tree): string {
    PrintVersion(x) + "\r\n" + PrintHeaders(x.headers) + "\r\n"
  }

  // ----- What a tree means

  function Number(digits: string): nat
    requires IsDigits(digits)
  {
    if digits == "" then 0
    else Number(digits[..|digits| - 1]) * 10 + Digit(digits[|digits| - 1])
  }

  /** The value with its continuation lines appended, leading blanks dropped. */
  function FoldedText(folds: seq<Fold>): string {
    if folds == [] then "" else FoldedText(folds[..|folds| - 1]) + folds[|folds| - 1].text
  }

  function HeaderMeaning(h: HeaderTree): Header {
    Header(h.name, h.text + FoldedText(h.folds))
  }

  function Meanings(headers: seq<HeaderTree>): seq<Header> {
    seq(|headers|, i requires 0 <= i < |headers| => HeaderMeaning(headers[i]))
  }

  function Meaning(x: Tree): Request
    requires IsDigits(x.major) && IsDigits(x.minor)
  {
    Request(x.verb, x.uri, Number(x.major), Number(x.minor), Meanings(x.headers))
  }

  // ----- Trees under construction

  function Rank(st: State): nat {
    match st
    case MethodStart => 0
    case Method => 1
    case Uri => 2
    case VersionH => 3
    case VersionT1 => 4
    case VersionT2 => 5
    case VersionP => 6
    case VersionSlash => 7
    case MajorStart => 8
    case Major => 9
    case MinorStart => 10
    case Minor => 11
    case Newline1 => 12
    case Lws => 13
    case Name => 13
    case SpaceBeforeValue => 14
    case Value => 15
    case Newline2 => 16
    case LineStart => 17
    case Newline3 => 18
  }

  /** In the header section: Newline1 has been left. */
  predicate InHeaders(st: State) {
    Rank(st) > 12
  }

  predicate LineUpTo(st: State, x: Tree) {
    && IsTokens(x.verb) && IsUri(x.uri) && IsDigits(x.major) && IsDigits(x.minor)
    && (x.verb == "" <==> st.MethodStart?)
    && (Rank(st) < 2 ==> x.uri == "")
    && (x.major == "" <==> Rank(st) < 9)
    && (x.minor == "" <==> Rank(st) < 11)
    && (!InHeaders(st) ==> x.headers == [])
  }

  /** The last header is as far as the state says; all before it are whole. */
  predicate HeadersUpTo(st: State, headers: seq<HeaderTree>) {
    var n := |headers|;
    if st.Name? || st.SpaceBeforeValue? then
      n > 0 && (forall i :: 0 <= i < n - 1 ==> HeaderOk(headers[i])) &&
      headers[n - 1].name != "" && IsTokens(headers[n - 1].name) &&
      headers[n - 1].text == "" && headers[n - 1].folds == []
    else
      (forall i :: 0 <= i < n ==> HeaderOk(headers[i])) &&
      (st.Lws? || st.Value? || st.Newline2? ==> n > 0) &&
      (st.Lws? ==> headers[n - 1].folds != [] && LastFold(headers[n - 1]).text == "") &&
      (st.Value? && headers[n - 1].folds != [] ==> LastFold(headers[n - 1]).text != "")
  }

  function LastFold(h: HeaderTree): Fold
    requires h.folds != []
  {
    h.folds[|h.folds| - 1]
  }

  predicate UpTo(st: State, x: Tree) {
    LineUpTo(st, x) && HeadersUpTo(st, x.headers)
  }

  function PrintLine(st: State, x: Tree): string
    requires !InHeaders(st)
  {
    match st
    case MethodStart => ""
    case Method => x.verb
    case Uri => x.verb + " " + x.uri
    case VersionH => PrintTarget(x)
    case VersionT1 => PrintTarget(x) + "H"
    case VersionT2 => PrintTarget(x) + "HT"
    case VersionP => PrintTarget(x) + "HTT"
    case VersionSlash => PrintTarget(x) + "HTTP"
    case MajorStart => PrintTarget(x) + "HTTP/"
    case Major => PrintTarget(x) + "HTTP/" + x.major
    case MinorStart => PrintTarget(x) + "HTTP/" + x.major + "."
    case Minor => PrintVersion(x)
    case Newline1 => PrintVersion(x) + "\r"
  }

  function PrintSection(st: State, headers: seq<HeaderTree>): string
    requires InHeaders(st) && HeadersUpTo(st, headers)
  {
    if st.LineStart? then PrintHeaders(headers)
    else if st.Newline3? then PrintHeaders(headers) + "\r"
    else
      var last := headers[|headers| - 1];
      PrintHeaders(headers[..|headers| - 1]) +
      (match st
       case Name => last.name
       case SpaceBeforeValue => last.name + ":"
       case Newline2 => PrintHeader(last) + "\r"
       case _ => PrintHeader(last))
  }

  /** What has been read when the machine is in this state with this tree. */
  function PrintUpTo(st: State, x: Tree): string
    requires UpTo(st, x)
  {
    if InHeaders(st) then PrintVersion(x) + "\r\n" + PrintSection(st, x.headers) else PrintLine(st, x)
  }

  // ----- One byte forward

  function ReplaceLast(headers: seq<HeaderTree>, h: HeaderTree): seq<HeaderTree>
    requires headers != []
  {
    headers[..|headers| - 1] + [h]
  }

  function AddText(h: HeaderTree, c: char): HeaderTree {
    if h.folds == [] then h.(text := h.text + [c])
    else h.(folds := h.folds[..|h.folds| - 1] + [LastFold(h).(text := LastFold(h).text + [c])])
  }

  function AddBlank(h: HeaderTree, c: char): HeaderTree
    requires h.folds != []
  {
    h.(folds := h.folds[..|h.folds| - 1] + [LastFold(h).(blanks := LastFold(h).blanks + [c])])
  }

  function ExtendHeaders(st: State, headers: seq<HeaderTree>, c: char): seq<HeaderTree>
    requires InHeaders(st) && HeadersUpTo(st, headers)
  {
    if c == '\r' || c == '\n' then headers
    else if st.LineStart? then
      if headers != [] && (c == ' ' || c == '\t') then
        var last := headers[|headers| - 1];
        ReplaceLast(headers, last.(folds := last.folds + [Fold([c], "")]))
      else headers + [HeaderTree([c], "", [])]
    else if headers == [] then headers
    else
      var last := headers[|headers| - 1];
      match st
      case Name => if c == ':' then headers else ReplaceLast(headers, last.(name := last.name + [c]))
      case Lws => ReplaceLast(headers, if c == ' ' || c == '\t' then AddBlank(last, c) else AddText(last, c))
      case Value => ReplaceLast(headers, AddText(last, c))
      case _ => headers
  }

  function Extend(st: State, x: Tree, c: char): Tree
    requires UpTo(st, x)
  {
    match st
    case MethodStart => x.(verb := [c])
    case Method => if c == ' ' then x else x.(verb := x.verb + [c])
    case Uri => if c == ' ' then x else x.(uri := x.uri + [c])
    case MajorStart => x.(major := [c])
    case Major => if c == '.' then x else x.(major := x.major + [c])
    case MinorStart => x.(minor := [c])
    case Minor => if c == '\r' then x else x.(minor := x.minor + [c])
    case _ => if InHeaders(st) then x.(headers := ExtendHeaders(st, x.headers, c)) else x
  }

  /** The tree grows with the machine: it prints as one byte more and means what the
      machine has stored. */
  predicate Grows(st: State, x: Tree, c: char)
    requires UpTo(st, x)
  {
    var step := Consume(st, Meaning(x), c);
    step.verdict.Indeterminate? ==>
      UpTo(step.state, Extend(st, x, c)) &&
      Meaning(Extend(st, x, c)) == step.req &&
      PrintUpTo(step.state, Extend(st, x, c)) == PrintUpTo(st, x) + [c]
  }

  lemma NumberAppend(digits: string, c: char)
    requires IsDigits(digits) && IsDigit(c)
    ensures IsDigits(digits + [c]) && Number(digits + [c]) == Number(digits) * 10 + Digit(c)
  {
    assert (digits + [c])[..|digits|] == digits;
  }

  lemma TargetGrows(st: State, x: Tree, c: char)
    requires UpTo(st, x) && Rank(st) < 3
    ensures Grows(st, x, c)
  {
  }

  lemma ProtocolGrows(st: State, x: Tree, c: char)
    requires UpTo(st, x) && 3 <= Rank(st) < 8
    ensures Grows(st, x, c)
  {
  }

  lemma NumberOfOne(c: char)
    requires IsDigit(c)
    ensures IsDigits([c]) && Number([c]) == Digit(c)
  {
    assert [c][..0] == "";
  }

  lemma MajorStarts(x: Tree, c: char)
    requires UpTo(MajorStart, x)
    ensures Grows(MajorStart, x, c)
  {
    if IsDigit(c) { NumberOfOne(c); }
  }

  lemma MinorStarts(x: Tree, c: char)
    requires UpTo(MinorStart, x)
    ensures Grows(MinorStart, x, c)
  {
    if IsDigit(c) { NumberOfOne(c); }
  }

  lemma MajorGrows(x: Tree, c: char)
    requires UpTo(Major, x)
    ensures Grows(Major, x, c)
  {
    if IsDigit(c) {
      NumberAppend(x.major, c);
      ConcatAssoc(PrintTarget(x) + "HTTP/", x.major, [c]);
    }
  }

  lemma MinorGrows(x: Tree, c: char)
    requires UpTo(Minor, x)
    ensures Grows(Minor, x, c)
  {
    if IsDigit(c) {
      NumberAppend(x.minor, c);
      ConcatAssoc(PrintTarget(x) + "HTTP/" + x.major + ".", x.minor, [c]);
    }
  }

  lemma LineEndGrows(x: Tree, c: char)
    requires UpTo(Newline1, x)
    ensures Grows(Newline1, x, c)
  {
    ConcatAssoc(PrintVersion(x), "\r", [c]);
  }

  lemma FoldsAppend(folds: seq<Fold>, f: Fold)
    ensures PrintFolds(folds + [f]) == PrintFolds(folds) + "\r\n" + f.blanks + f.text
    ensures FoldedText(folds + [f]) == FoldedText(folds) + f.text
  {
    assert (folds + [f])[..|folds|] == folds;
  }

  lemma TextFoldGrows(folds: seq<Fold>, c: char)
    requires folds != []
    ensures var last := folds[|folds| - 1];
      var after := folds[..|folds| - 1] + [last.(text := last.text + [c])];
      PrintFolds(after) == PrintFolds(folds) + [c] && FoldedText(after) == FoldedText(folds) + [c]
  {
    var init, last := folds[..|folds| - 1], folds[|folds| - 1];
    FoldsAppend(init, last.(text := last.text + [c]));
    ConcatAssoc(PrintFolds(init) + "\r\n" + last.blanks, last.text, [c]);
    ConcatAssoc(FoldedText(init), last.text, [c]);
  }

  lemma BlankFoldGrows(folds: seq<Fold>, c: char)
    requires folds != [] && folds[|folds| - 1].text == ""
    ensures var last := folds[|folds| - 1];
      var after := folds[..|folds| - 1] + [last.(blanks := last.blanks + [c])];
      PrintFolds(after) == PrintFolds(folds) + [c] && FoldedText(after) == FoldedText(folds)
  {
    var init, last := folds[..|folds| - 1], folds[|folds| - 1];
    FoldsAppend(init, last.(blanks := last.blanks + [c]));
    ConcatAssoc(PrintFolds(init) + "\r\n", last.blanks, [c]);
  }

  lemma FoldReplacedOk(h: HeaderTree, f: Fold)
    requires h.folds != [] && HeaderOk(h) && FoldOk(f)
    ensures HeaderOk(h.(folds := h.folds[..|h.folds| - 1] + [f]))
  {
  }

  lemma TextGrows(h: HeaderTree, c: char)
    requires HeaderOk(h) && !IsCtl(c) && (h.folds != [] && LastFold(h).text == "" ==> c != ' ')
    ensures HeaderOk(AddText(h, c)) && PrintHeader(AddText(h, c)) == PrintHeader(h) + [c]
    ensures HeaderMeaning(AddText(h, c)) == Header(h.name, HeaderMeaning(h).value + [c])
    ensures h.folds != [] ==> LastFold(AddText(h, c)).text != ""
  {
    if h.folds != [] {
      FoldReplacedOk(h, LastFold(h).(text := LastFold(h).text + [c]));
      TextFoldGrows(h.folds, c);
      ConcatAssoc(h.name + ": " + h.text, PrintFolds(h.folds), [c]);
      ConcatAssoc(h.text, FoldedText(h.folds), [c]);
    } else {
      ConcatAssoc(h.name + ": ", h.text, [c]);
    }
  }

  lemma BlankGrows(h: HeaderTree, c: char)
    requires HeaderOk(h) && h.folds != [] && LastFold(h).text == "" && (c == ' ' || c == '\t')
    ensures HeaderOk(AddBlank(h, c)) && PrintHeader(AddBlank(h, c)) == PrintHeader(h) + [c]
    ensures HeaderMeaning(AddBlank(h, c)) == HeaderMeaning(h) && LastFold(AddBlank(h, c)).text == ""
  {
    FoldReplacedOk(h, LastFold(h).(blanks := LastFold(h).blanks + [c]));
    BlankFoldGrows(h.folds, c);
    ConcatAssoc(h.name + ": " + h.text, PrintFolds(h.folds), [c]);
  }

  lemma FoldAppendedOk(h: HeaderTree, f: Fold)
    requires HeaderOk(h) && FoldOk(f)
    ensures HeaderOk(h.(folds := h.folds + [f]))
  {
  }

  lemma FoldStarts(h: HeaderTree, c: char)
    ensures var f := h.(folds := h.folds + [Fold([c], "")]);
      PrintHeader(f) == (PrintHeader(h) + "\r\n") + [c] && HeaderMeaning(f) == HeaderMeaning(h)
  {
    FoldsAppend(h.folds, Fold([c], ""));
    ConcatAssoc(PrintFolds(h.folds), "\r\n", [c]);
    ConcatAssoc(h.name + ": " + h.text, PrintFolds(h.folds), "\r\n");
    ConcatAssoc(h.name + ": " + h.text, PrintFolds(h.folds) + "\r\n", [c]);
    ConcatNil(PrintFolds(h.folds) + "\r\n" + [c]);
    ConcatNil(FoldedText(h.folds));
  }

  lemma ConcatNil(s: string)
    ensures s + "" == s
  {
  }

  lemma LastReplaced(headers: seq<HeaderTree>, h: HeaderTree)
    requires headers != []
    ensures var n, after := |headers|, ReplaceLast(headers, h);
      |after| == n && after[n - 1] == h && after[..n - 1] == headers[..n - 1] &&
      (forall i :: 0 <= i < n - 1 ==> after[i] == headers[i]) &&
      Meanings(after) == Meanings(headers)[..n - 1] + [HeaderMeaning(h)]
  {
  }

  lemma MeaningsKept(headers: seq<HeaderTree>, h: HeaderTree)
    requires headers != [] && HeaderMeaning(h) == HeaderMeaning(headers[|headers| - 1])
    ensures Meanings(ReplaceLast(headers, h)) == Meanings(headers)
  {
    LastReplaced(headers, h);
    var all := Meanings(headers);
    assert all == all[..|headers| - 1] + [all[|headers| - 1]];
  }

  /** In the header section the Request-Line stays; only the headers need looking at. */
  lemma SectionGrows(st: State, x: Tree, c: char, st': State, headers: seq<HeaderTree>)
    requires UpTo(st, x) && InHeaders(st) && InHeaders(st') && HeadersUpTo(st', headers)
    requires ExtendHeaders(st, x.headers, c) == headers
    requires PrintSection(st', headers) == PrintSection(st, x.headers) + [c]
    requires Consume(st, Meaning(x), c) == Step(Indeterminate, st', Meaning(x).(headers := Meanings(headers)))
    ensures Grows(st, x, c)
  {
    var y := x.(headers := headers);
    assert Extend(st, x, c) == y && UpTo(st', y);
    ConcatAssoc(PrintVersion(x) + "\r\n", PrintSection(st, x.headers), [c]);
    assert PrintUpTo(st', y) == PrintUpTo(st, x) + [c];
  }

  /** Bytes that change nothing in the stored request. */
  lemma SectionGrowsSilently(st: State, x: Tree, c: char, st': State, headers: seq<HeaderTree>)
    requires UpTo(st, x) && InHeaders(st) && InHeaders(st') && HeadersUpTo(st', headers)
    requires ExtendHeaders(st, x.headers, c) == headers && Meanings(headers) == Meanings(x.headers)
    requires PrintSection(st', headers) == PrintSection(st, x.headers) + [c]
    requires Consume(st, Meaning(x), c) == Step(Indeterminate, st', Meaning(x))
    ensures Grows(st, x, c)
  {
    assert Meaning(x) == Meaning(x).(headers := Meanings(headers));
    SectionGrows(st, x, c, st', headers);
  }

  /** A header replaced by one that prints as one byte more. */
  lemma LastHeaderGrows(headers: seq<HeaderTree>, st: State, h: HeaderTree, c: char)
    requires headers != [] && HeadersUpTo(st, headers) && (st.Value? || st.Lws?)
    requires HeaderOk(h) && PrintHeader(h) == PrintHeader(headers[|headers| - 1]) + [c]
    requires h.folds != [] && LastFold(h).text == "" ==> st.Lws?
    ensures var st' := if h.folds != [] && LastFold(h).text == "" then Lws else Value;
      HeadersUpTo(st', ReplaceLast(headers, h)) &&
      PrintSection(st', ReplaceLast(headers, h)) == PrintSection(st, headers) + [c]
  {
    LastReplaced(headers, h);
    ConcatAssoc(PrintHeaders(headers[..|headers| - 1]), PrintHeader(headers[|headers| - 1]), [c]);
  }

  /** Text added to the last header, in the tree and in the stored request. */
  lemma TextAdded(st: State, x: Tree, c: char)
    requires UpTo(st, x) && (st.Value? || st.Lws?) && !IsCtl(c) && (st.Lws? ==> c != ' ')
    ensures var after := ReplaceLast(x.headers, AddText(x.headers[|x.headers| - 1], c));
      HeadersUpTo(Value, after) &&
      PrintSection(Value, after) == PrintSection(st, x.headers) + [c] &&
      AddToValue(Meaning(x), c) == Meaning(x).(headers := Meanings(after))
  {
    var last := x.headers[|x.headers| - 1];
    TextGrows(last, c);
    LastReplaced(x.headers, AddText(last, c));
    LastHeaderGrows(x.headers, st, AddText(last, c), c);
  }

  lemma TextConsumed(st: State, x: Tree, c: char)
    requires UpTo(st, x) && (st.Value? || st.Lws?) && !IsCtl(c) && (st.Lws? ==> c != ' ')
    ensures Consume(st, Meaning(x), c) == Step(Indeterminate, Value, AddToValue(Meaning(x), c))
    ensures ExtendHeaders(st, x.headers, c) == ReplaceLast(x.headers, AddText(x.headers[|x.headers| - 1], c))
  {
    assert c != '\r' && c != '\n' && c != '\t';
  }

  lemma TextOfValueGrows(st: State, x: Tree, c: char)
    requires UpTo(st, x) && (st.Value? || st.Lws?) && !IsCtl(c) && (st.Lws? ==> c != ' ')
    ensures Grows(st, x, c)
  {
    TextAdded(st, x, c);
    TextConsumed(st, x, c);
    SectionGrows(st, x, c, Value, ReplaceLast(x.headers, AddText(x.headers[|x.headers| - 1], c)));
  }

  lemma ValueEnds(st: State, x: Tree)
    requires UpTo(st, x) && (st.Value? || st.Lws?)
    ensures Grows(st, x, '\r')
  {
    var n := |x.headers| - 1;
    ConcatAssoc(PrintHeaders(x.headers[..n]), PrintHeader(x.headers[n]), "\r");
    SectionGrowsSilently(st, x, '\r', Newline2, x.headers);
  }

  lemma ValueGrows(x: Tree, c: char)
    requires UpTo(Value, x)
    ensures Grows(Value, x, c)
  {
    if c == '\r' {
      ValueEnds(Value, x);
    } else if !IsCtl(c) {
      TextOfValueGrows(Value, x, c);
    }
  }

  lemma LwsBlankGrows(x: Tree, c: char)
    requires UpTo(Lws, x) && (c == ' ' || c == '\t')
    ensures Grows(Lws, x, c)
  {
    var headers := x.headers;
    var h := AddBlank(headers[|headers| - 1], c);
    BlankGrows(headers[|headers| - 1], c);
    LastReplaced(headers, h);
    LastHeaderGrows(headers, Lws, h, c);
    MeaningsKept(headers, h);
    SectionGrowsSilently(Lws, x, c, Lws, ReplaceLast(headers, h));
  }

  lemma LwsGrows(x: Tree, c: char)
    requires UpTo(Lws, x)
    ensures Grows(Lws, x, c)
  {
    if c == ' ' || c == '\t' {
      LwsBlankGrows(x, c);
    } else if c == '\r' {
      ValueEnds(Lws, x);
    } else if !IsCtl(c) {
      TextOfValueGrows(Lws, x, c);
    }
  }

  lemma NameEnds(x: Tree)
    requires UpTo(Name, x)
    ensures Grows(Name, x, ':')
  {
    var headers := x.headers;
    ConcatAssoc(PrintHeaders(headers[..|headers| - 1]), headers[|headers| - 1].name, ":");
    SectionGrowsSilently(Name, x, ':', SpaceBeforeValue, headers);
  }

  lemma NameTokenConsumed(x: Tree, c: char)
    requires UpTo(Name, x) && IsToken(c)
    ensures var last := x.headers[|x.headers| - 1];
      var after := ReplaceLast(x.headers, last.(name := last.name + [c]));
      ExtendHeaders(Name, x.headers, c) == after &&
      Consume(Name, Meaning(x), c) == Step(Indeterminate, Name, Meaning(x).(headers := Meanings(after)))
  {
    var last := x.headers[|x.headers| - 1];
    LastReplaced(x.headers, last.(name := last.name + [c]));
  }

  lemma NameTokenGrows(x: Tree, c: char)
    requires UpTo(Name, x) && IsToken(c)
    ensures Grows(Name, x, c)
  {
    var headers := x.headers;
    var last := headers[|headers| - 1];
    var h := last.(name := last.name + [c]);
    ConcatAssoc(PrintHeaders(headers[..|headers| - 1]), last.name, [c]);
    LastReplaced(headers, h);
    NameTokenConsumed(x, c);
    SectionGrows(Name, x, c, Name, ReplaceLast(headers, h));
  }

  lemma NameGrows(x: Tree, c: char)
    requires UpTo(Name, x)
    ensures Grows(Name, x, c)
  {
    if c == ':' {
      NameEnds(x);
    } else if IsToken(c) {
      NameTokenGrows(x, c);
    }
  }

  lemma SpaceGrows(x: Tree, c: char)
    requires UpTo(SpaceBeforeValue, x)
    ensures Grows(SpaceBeforeValue, x, c)
  {
    var headers := x.headers;
    var last := headers[|headers| - 1];
    if c == ' ' {
      ConcatAssoc(PrintHeaders(headers[..|headers| - 1]), last.name + ":", [c]);
      assert PrintHeader(last) == last.name + ":" + [c];
      SectionGrows(SpaceBeforeValue, x, c, Value, headers);
    }
  }

  function WithFold(h: HeaderTree, c: char): HeaderTree {
    h.(folds := h.folds + [Fold([c], "")])
  }

  lemma FoldKeepsSection(headers: seq<HeaderTree>, c: char)
    requires HeadersUpTo(LineStart, headers) && headers != [] && (c == ' ' || c == '\t')
    ensures HeadersUpTo(Lws, ReplaceLast(headers, WithFold(headers[|headers| - 1], c)))
  {
    var last := headers[|headers| - 1];
    FoldAppendedOk(last, Fold([c], ""));
    LastReplaced(headers, WithFold(last, c));
    assert LastFold(WithFold(last, c)) == Fold([c], "");
  }

  lemma FoldKeepsMeanings(headers: seq<HeaderTree>, c: char)
    requires headers != []
    ensures Meanings(ReplaceLast(headers, WithFold(headers[|headers| - 1], c))) == Meanings(headers)
  {
    FoldStarts(headers[|headers| - 1], c);
    MeaningsKept(headers, WithFold(headers[|headers| - 1], c));
  }

  lemma BlankConsumed(st: State, x: Tree, c: char)
    requires UpTo(st, x) && (st.Lws? || st.LineStart?) && x.headers != [] && (c == ' ' || c == '\t')
    ensures Consume(st, Meaning(x), c) == Step(Indeterminate, Lws, Meaning(x))
    ensures var last := x.headers[|x.headers| - 1];
      ExtendHeaders(st, x.headers, c) ==
      ReplaceLast(x.headers, if st.Lws? then AddBlank(last, c) else WithFold(last, c))
  {
  }

  lemma FoldGrows(x: Tree, c: char)
    requires UpTo(LineStart, x) && x.headers != [] && (c == ' ' || c == '\t')
    ensures Grows(LineStart, x, c)
  {
    BlankConsumed(LineStart, x, c);
    FoldKeepsSection(x.headers, c);
    FoldKeepsMeanings(x.headers, c);
    FoldPrints(x.headers, c);
    SectionGrowsSilently(LineStart, x, c, Lws, ReplaceLast(x.headers, WithFold(x.headers[|x.headers| - 1], c)));
  }

  lemma FoldPrints(headers: seq<HeaderTree>, c: char)
    requires HeadersUpTo(LineStart, headers) && headers != [] && (c == ' ' || c == '\t')
    ensures var after := ReplaceLast(headers, WithFold(headers[|headers| - 1], c));
      HeadersUpTo(Lws, after) && PrintSection(Lws, after) == PrintSection(LineStart, headers) + [c]
  {
    FoldKeepsSection(headers, c);
    FoldStarts(headers[|headers| - 1], c);
    FoldSectionPrints(headers, WithFold(headers[|headers| - 1], c), c);
  }

  lemma FoldSectionPrints(headers: seq<HeaderTree>, h: HeaderTree, c: char)
    requires headers != [] && HeadersUpTo(Lws, ReplaceLast(headers, h)) && HeadersUpTo(LineStart, headers)
    requires PrintHeader(h) == (PrintHeader(headers[|headers| - 1]) + "\r\n") + [c]
    ensures PrintSection(Lws, ReplaceLast(headers, h)) == PrintSection(LineStart, headers) + [c]
  {
    var last := headers[|headers| - 1];
    LastReplaced(headers, h);
    ConcatAssoc(PrintHeaders(headers[..|headers| - 1]), PrintHeader(last) + "\r\n", [c]);
    ConcatAssoc(PrintHeaders(headers[..|headers| - 1]), PrintHeader(last), "\r\n");
  }

  lemma NewHeader(headers: seq<HeaderTree>, c: char)
    ensures var after := headers + [HeaderTree([c], "", [])];
      after[..|headers|] == headers && Meanings(after) == Meanings(headers) + [Header([c], "")]
  {
    assert HeaderMeaning(HeaderTree([c], "", [])) == Header([c], "");
  }

  lemma NameStarts(x: Tree, c: char)
    requires UpTo(LineStart, x) && IsToken(c)
    ensures Grows(LineStart, x, c)
  {
    NewHeader(x.headers, c);
    SectionGrows(LineStart, x, c, Name, x.headers + [HeaderTree([c], "", [])]);
  }

  lemma LineStartGrows(x: Tree, c: char)
    requires UpTo(LineStart, x)
    ensures Grows(LineStart, x, c)
  {
    var headers := x.headers;
    if c == '\r' {
      SectionGrows(LineStart, x, c, Newline3, headers);
    } else if headers != [] && (c == ' ' || c == '\t') {
      FoldGrows(x, c);
    } else if IsToken(c) {
      NameStarts(x, c);
    }
  }

  lemma NewlineGrows(x: Tree, c: char)
    requires UpTo(Newline2, x)
    ensures Grows(Newline2, x, c)
  {
    var headers := x.headers;
    var last := headers[|headers| - 1];
    if c == '\n' {
      ConcatAssoc(PrintHeaders(headers[..|headers| - 1]), PrintHeader(last) + "\r", [c]);
      ConcatAssoc(PrintHeader(last), "\r", [c]);
      ConcatAssoc(PrintHeaders(headers[..|headers| - 1]), PrintHeader(last), "\r\n");
      SectionGrows(Newline2, x, c, LineStart, headers);
    }
  }

  lemma TreeGrows(st: State, x: Tree, c: char)
    requires UpTo(st, x)
    ensures Grows(st, x, c)
  {
    match st
    case MethodStart => TargetGrows(st, x, c);
    case Method => TargetGrows(st, x, c);
    case Uri => TargetGrows(st, x, c);
    case MajorStart => MajorStarts(x, c);
    case Major => MajorGrows(x, c);
    case MinorStart => MinorStarts(x, c);
    case Minor => MinorGrows(x, c);
    case Newline1 => LineEndGrows(x, c);
    case LineStart => LineStartGrows(x, c);
    case Lws => LwsGrows(x, c);
    case Name => NameGrows(x, c);
    case SpaceBeforeValue => SpaceGrows(x, c);
    case Value => ValueGrows(x, c);
    case Newline2 => NewlineGrows(x, c);
    case Newline3 =>
    case _ => ProtocolGrows(st, x, c);
  }

  // ----- One byte back

  /** The state and tree one byte earlier, and that byte. */
  predicate Precedes(st0: State, x0: Tree, c: char, st: State, x: Tree)
    requires UpTo(st0, x0)
  {
    Consume(st0, Meaning(x0), c).verdict.Indeterminate? &&
    Consume(st0, Meaning(x0), c).state == st && Extend(st0, x0, c) == x
  }

  function Init(s: string): string
    requires s != ""
  {
    s[..|s| - 1]
  }

  function Last(s: string): char
    requires s != ""
  {
    s[|s| - 1]
  }

  lemma TargetShrinks(st: State, x: Tree) returns (st0: State, x0: Tree, c: char)
    requires UpTo(st, x) && (st.Method? || st.Uri?)
    ensures UpTo(st0, x0) && Precedes(st0, x0, c, st, x)
  {
    if st.Method? {
      assert x.verb == Init(x.verb) + [Last(x.verb)];
      st0, x0, c := if |x.verb| == 1 then MethodStart else Method, x.(verb := Init(x.verb)), Last(x.verb);
    } else if x.uri == "" {
      st0, x0, c := Method, x, ' ';
    } else {
      assert x.uri == Init(x.uri) + [Last(x.uri)];
      st0, x0, c := Uri, x.(uri := Init(x.uri)), Last(x.uri);
    }
  }

  lemma MajorShrinks(x: Tree) returns (st0: State, x0: Tree, c: char)
    requires UpTo(Major, x)
    ensures UpTo(st0, x0) && Precedes(st0, x0, c, Major, x)
  {
    assert x.major == Init(x.major) + [Last(x.major)];
    st0, x0, c := if |x.major| == 1 then MajorStart else Major, x.(major := Init(x.major)), Last(x.major);
    MajorDigitRead(st0, x0, c);
  }

  lemma MajorDigitRead(st: State, x: Tree, c: char)
    requires UpTo(st, x) && (st.MajorStart? || st.Major?) && IsDigit(c)
    ensures Consume(st, Meaning(x), c).verdict.Indeterminate? && Consume(st, Meaning(x), c).state == Major
    ensures Extend(st, x, c) == x.(major := x.major + [c])
  {
  }

  lemma MinorShrinks(x: Tree) returns (st0: State, x0: Tree, c: char)
    requires UpTo(Minor, x)
    ensures UpTo(st0, x0) && Precedes(st0, x0, c, Minor, x)
  {
    assert x.minor == Init(x.minor) + [Last(x.minor)];
    st0, x0, c := if |x.minor| == 1 then MinorStart else Minor, x.(minor := Init(x.minor)), Last(x.minor);
    MinorDigitRead(st0, x0, c);
  }

  lemma MinorDigitRead(st: State, x: Tree, c: char)
    requires UpTo(st, x) && (st.MinorStart? || st.Minor?) && IsDigit(c)
    ensures Consume(st, Meaning(x), c).verdict.Indeterminate? && Consume(st, Meaning(x), c).state == Minor
    ensures Extend(st, x, c) == x.(minor := x.minor + [c])
  {
  }

  /** Bytes that leave the tree alone, in the Request-Line. */
  lemma LineDelimiterShrinks(st: State, x: Tree) returns (st0: State, c: char)
    requires UpTo(st, x) && !InHeaders(st)
    requires !st.MethodStart? && !st.Method? && !st.Uri? && !st.Major? && !st.Minor?
    ensures UpTo(st0, x) && Precedes(st0, x, c, st, x)
  {
    match st
    case VersionH => st0, c := Uri, ' ';
    case VersionT1 => st0, c := VersionH, 'H';
    case VersionT2 => st0, c := VersionT1, 'T';
    case VersionP => st0, c := VersionT2, 'T';
    case VersionSlash => st0, c := VersionP, 'P';
    case MajorStart => st0, c := VersionSlash, '/';
    case MinorStart => st0, c := Major, '.';
    case Newline1 => st0, c := Minor, '\r';
  }

  /** And in the headers. */
  lemma HeaderDelimiterShrinks(st: State, x: Tree) returns (st0: State, c: char)
    requires UpTo(st, x) && InHeaders(st) && !st.Lws? && !st.Name? && !st.Value?
    ensures UpTo(st0, x) && Precedes(st0, x, c, st, x)
  {
    match st
    case LineStart => st0, c := if x.headers == [] then Newline1 else Newline2, '\n';
    case SpaceBeforeValue => st0, c := Name, ':';
    case Newline2 => st0, c := LineEndShrinks(x);
    case Newline3 => st0, c := LineStart, '\r';
  }

  lemma LineEndShrinks(x: Tree) returns (st0: State, c: char)
    requires UpTo(Newline2, x)
    ensures UpTo(st0, x) && Precedes(st0, x, c, Newline2, x)
  {
    var last := x.headers[|x.headers| - 1];
    st0, c := if last.folds != [] && LastFold(last).text == "" then Lws else Value, '\r';
  }

  lemma FirstNameByte(x: Tree) returns (x0: Tree, c: char)
    requires UpTo(Name, x) && |x.headers[|x.headers| - 1].name| == 1
    ensures UpTo(LineStart, x0) && Precedes(LineStart, x0, c, Name, x)
  {
    var headers := x.headers;
    var last := headers[|headers| - 1];
    c := last.name[0];
    x0 := x.(headers := headers[..|headers| - 1]);
    assert last == HeaderTree([c], "", []);
    assert x0.headers + [last] == headers;
  }

  lemma NextNameByte(x: Tree) returns (x0: Tree, c: char)
    requires UpTo(Name, x) && |x.headers[|x.headers| - 1].name| > 1
    ensures UpTo(Name, x0) && Precedes(Name, x0, c, Name, x)
  {
    var headers := x.headers;
    var last := headers[|headers| - 1];
    c := Last(last.name);
    assert last.name == Init(last.name) + [c];
    var h := last.(name := Init(last.name));
    x0 := x.(headers := ReplaceLast(headers, h));
    LastReplaced(headers, h);
    assert ReplaceLast(x0.headers, last) == headers;
  }

  lemma NameShrinks(x: Tree) returns (st0: State, x0: Tree, c: char)
    requires UpTo(Name, x)
    ensures UpTo(st0, x0) && Precedes(st0, x0, c, Name, x)
  {
    if |x.headers[|x.headers| - 1].name| == 1 {
      st0 := LineStart;
      x0, c := FirstNameByte(x);
    } else {
      st0 := Name;
      x0, c := NextNameByte(x);
    }
  }

  /** A header with its last fold's text or blanks cut short by one byte, or without its
      last fold. */
  function CutHeader(h: HeaderTree): HeaderTree {
    if h.folds == [] then (if h.text == "" then h else h.(text := Init(h.text)))
    else
      var f := LastFold(h);
      var rest := h.folds[..|h.folds| - 1];
      if f.text != "" then h.(folds := rest + [f.(text := Init(f.text))])
      else if |f.blanks| > 1 then h.(folds := rest + [f.(blanks := Init(f.blanks))])
      else h.(folds := rest)
  }

  lemma CutHeaderOk(h: HeaderTree)
    requires HeaderOk(h)
    ensures HeaderOk(CutHeader(h))
  {
    if h.folds != [] {
      var f := LastFold(h);
      if f.text != "" {
        FoldReplacedOk(h, f.(text := Init(f.text)));
      } else if |f.blanks| > 1 {
        FoldReplacedOk(h, f.(blanks := Init(f.blanks)));
      }
    }
  }

  lemma CutTextRestored(h: HeaderTree)
    requires if h.folds == [] then h.text != "" else LastFold(h).text != ""
    ensures AddText(CutHeader(h), if h.folds == [] then Last(h.text) else Last(LastFold(h).text)) == h
  {
    if h.folds == [] {
      assert h.text == Init(h.text) + [Last(h.text)];
    } else {
      var f := LastFold(h);
      assert f.text == Init(f.text) + [Last(f.text)];
      assert h.folds == h.folds[..|h.folds| - 1] + [f];
    }
  }

  lemma CutBlankRestored(h: HeaderTree)
    requires h.folds != [] && LastFold(h).text == "" && LastFold(h).blanks != ""
    ensures var f := LastFold(h);
      if |f.blanks| > 1 then AddBlank(CutHeader(h), Last(f.blanks)) == h
      else WithFold(CutHeader(h), f.blanks[0]) == h
  {
    var f := LastFold(h);
    assert f.blanks == Init(f.blanks) + [Last(f.blanks)];
    assert h.folds == h.folds[..|h.folds| - 1] + [f];
    if |f.blanks| == 1 {
      assert f == Fold([f.blanks[0]], "");
    }
  }

  /** Cutting the last header and putting it back. */
  lemma LastRestored(headers: seq<HeaderTree>, h: HeaderTree)
    requires headers != []
    ensures ReplaceLast(headers, h) != [] && ReplaceLast(ReplaceLast(headers, h), headers[|headers| - 1]) == headers
  {
    LastReplaced(headers, h);
  }

  lemma CutIsUpTo(x: Tree, st0: State)
    requires UpTo(Value, x) || UpTo(Lws, x)
    requires var h := CutHeader(x.headers[|x.headers| - 1]);
      if st0.Lws? then h.folds != [] && LastFold(h).text == ""
      else st0.LineStart? || (st0.Value? && (h.folds != [] ==> LastFold(h).text != ""))
    ensures UpTo(st0, x.(headers := ReplaceLast(x.headers, CutHeader(x.headers[|x.headers| - 1]))))
  {
    var last := x.headers[|x.headers| - 1];
    CutHeaderOk(last);
    LastReplaced(x.headers, CutHeader(last));
  }

  lemma TextShrinks(x: Tree) returns (st0: State, x0: Tree, c: char)
    requires UpTo(Value, x)
    requires x.headers[|x.headers| - 1].folds != [] || x.headers[|x.headers| - 1].text != ""
    ensures UpTo(st0, x0) && Precedes(st0, x0, c, Value, x)
  {
    var headers := x.headers;
    var last := headers[|headers| - 1];
    c := if last.folds == [] then Last(last.text) else Last(LastFold(last).text);
    st0 := if last.folds != [] && |LastFold(last).text| == 1 then Lws else Value;
    x0 := x.(headers := ReplaceLast(headers, CutHeader(last)));
    CutIsUpTo(x, st0);
    CutTextRestored(last);
    LastReplaced(headers, CutHeader(last));
    LastRestored(headers, CutHeader(last));
    LastTextByte(last);
    TextConsumed(st0, x0, c);
  }

  lemma LastTextByte(h: HeaderTree)
    requires HeaderOk(h) && (if h.folds == [] then h.text != "" else LastFold(h).text != "")
    ensures !IsCtl(if h.folds == [] then Last(h.text) else Last(LastFold(h).text))
    ensures h.folds != [] && |LastFold(h).text| == 1 ==> Last(LastFold(h).text) != ' '
  {
  }

  lemma ValueShrinks(x: Tree) returns (st0: State, x0: Tree, c: char)
    requires UpTo(Value, x)
    ensures UpTo(st0, x0) && Precedes(st0, x0, c, Value, x)
  {
    var last := x.headers[|x.headers| - 1];
    if last.folds == [] && last.text == "" {
      st0, x0, c := SpaceBeforeValue, x, ' ';
    } else {
      st0, x0, c := TextShrinks(x);
    }
  }

  lemma LwsShrinks(x: Tree) returns (st0: State, x0: Tree, c: char)
    requires UpTo(Lws, x)
    ensures UpTo(st0, x0) && Precedes(st0, x0, c, Lws, x)
  {
    var headers := x.headers;
    var last := headers[|headers| - 1];
    c := Last(LastFold(last).blanks);
    st0 := if |LastFold(last).blanks| == 1 then LineStart else Lws;
    x0 := x.(headers := ReplaceLast(headers, CutHeader(last)));
    CutIsUpTo(x, st0);
    CutBlankRestored(last);
    LastReplaced(headers, CutHeader(last));
    LastRestored(headers, CutHeader(last));
    BlankConsumed(st0, x0, c);
  }

  lemma TreeShrinks(st: State, x: Tree) returns (st0: State, x0: Tree, c: char)
    requires UpTo(st, x) && !st.MethodStart?
    ensures UpTo(st0, x0) && Precedes(st0, x0, c, st, x)
  {
    match st
    case Method => st0, x0, c := TargetShrinks(st, x);
    case Uri => st0, x0, c := TargetShrinks(st, x);
    case Major => st0, x0, c := MajorShrinks(x);
    case Minor => st0, x0, c := MinorShrinks(x);
    case Name => st0, x0, c := NameShrinks(x);
    case Value => st0, x0, c := ValueShrinks(x);
    case Lws => st0, x0, c := LwsShrinks(x);
    case _ =>
      x0 := x;
      if InHeaders(st) {
        st0, c := HeaderDelimiterShrinks(st, x);
      } else {
        st0, c := LineDelimiterShrinks(st, x);
      }
  }

  // ----- The language

  lemma FeedOne(st: State, req: Request, a: string, c: char)
    requires Placed(st, req) && Feed(st, req, a).verdict.Indeterminate?
    ensures var o := Feed(st, req, a);
      var step := Consume(o.state, o.req, c);
      Feed(st, req, a + [c]) == Outcome(step.verdict, |a| + 1, step.state, step.req)
  {
    var o := Feed(st, req, a);
    FeedAppend(st, req, a, [c]);
    assert [c][1..] == "";
  }

  /** Every tree under construction is reached by reading what it prints as. */
  lemma {:induction false} PrintedIsRead(st: State, x: Tree)
    requires UpTo(st, x)
    ensures Parse(PrintUpTo(st, x)) == Outcome(Indeterminate, |PrintUpTo(st, x)|, st, Meaning(x))
    decreases |PrintUpTo(st, x)|
  {
    if st.MethodStart? {
      assert x == EMPTY_TREE;
    } else {
      var st0, x0, c := TreeShrinks(st, x);
      TreeGrows(st0, x0, c);
      PrintedIsRead(st0, x0);
      FeedOne(MethodStart, EMPTY_REQUEST, PrintUpTo(st0, x0), c);
    }
  }

  /** Whatever has been read without a verdict is a tree under construction. */
  lemma {:induction false} ReadIsPrinted(input: string) returns (x: Tree)
    requires Parse(input).verdict.Indeterminate?
    ensures var o := Parse(input);
      UpTo(o.state, x) && PrintUpTo(o.state, x) == input && Meaning(x) == o.req
    decreases |input|
  {
    if input == "" {
      x := EMPTY_TREE;
    } else {
      var a, c := Init(input), Last(input);
      assert input == a + [c];
      FeedAppend(MethodStart, EMPTY_REQUEST, a, [c]);
      var x0 := ReadIsPrinted(a);
      FeedOne(MethodStart, EMPTY_REQUEST, a, c);
      TreeGrows(Parse(a).state, x0, c);
      x := Extend(Parse(a).state, x0, c);
    }
  }

  lemma WholePrints(x: Tree)
    ensures UpTo(Newline3, x) <==> WellFormed(x)
    ensures WellFormed(x) ==> Print(x) == PrintUpTo(Newline3, x) + "\n"
  {
    if WellFormed(x) {
      ConcatAssoc(PrintVersion(x) + "\r\n" + PrintHeaders(x.headers), "\r", "\n");
      ConcatAssoc(PrintVersion(x) + "\r\n", PrintHeaders(x.headers), "\r");
    }
  }

  /** Completeness: a printed request is accepted, whatever follows it; exactly its bytes
      are consumed, and its parts are the request's fields. */
  lemma PrintedIsAccepted(x: Tree, rest: string)
    requires WellFormed(x)
    ensures Parse(Print(x) + rest) == Outcome(Good, |Print(x)|, Newline3, Meaning(x))
  {
    WholeIsRead(x);
    FeedAppend(MethodStart, EMPTY_REQUEST, Print(x), rest);
  }

  lemma WholeIsRead(x: Tree)
    requires WellFormed(x)
    ensures Parse(Print(x)) == Outcome(Good, |Print(x)|, Newline3, Meaning(x))
  {
    WholePrints(x);
    PrintedIsRead(Newline3, x);
    FeedOne(MethodStart, EMPTY_REQUEST, PrintUpTo(Newline3, x), '\n');
  }

  /** Up to its last byte a verdict is still open. */
  lemma {:induction false} VerdictIsOnLastByte(input: string)
    requires !Parse(input).verdict.Indeterminate?
    ensures var n := Parse(input).consumed;
      n > 0 && Parse(input[..n - 1]).verdict.Indeterminate? && Parse(input[..n]) == Parse(input)
    decreases |input|
  {
    var a, c := Init(input), Last(input);
    assert input == a + [c];
    FeedAppend(MethodStart, EMPTY_REQUEST, a, [c]);
    if Parse(a).verdict.Indeterminate? {
      FeedOne(MethodStart, EMPTY_REQUEST, a, c);
      assert input[..|input|] == input;
    } else {
      VerdictIsOnLastByte(a);
      var n := Parse(a).consumed;
      assert a[..n] == input[..n] && a[..n - 1] == input[..n - 1];
    }
  }

  lemma GoodIsNewline(st: State, req: Request, c: char)
    requires Placed(st, req) && Consume(st, req, c).verdict.Good?
    ensures st.Newline3? && c == '\n'
  {
  }

  /** Soundness: what is accepted is a printed request. */
  lemma AcceptedIsPrinted(input: string) returns (x: Tree)
    requires Parse(input).verdict.Good?
    ensures WellFormed(x) && Print(x) == input[..Parse(input).consumed] && Meaning(x) == Parse(input).req
  {
    VerdictIsOnLastByte(input);
    var n := Parse(input).consumed;
    var a, c := input[..n - 1], input[n - 1];
    x := ReadIsPrinted(a);
    assert input[..n] == a + [c];
    FeedOne(MethodStart, EMPTY_REQUEST, a, c);
    GoodIsNewline(Parse(a).state, Parse(a).req, c);
    WholePrints(x);
  }

  /** The exact language: `parse` answers good on exactly the inputs that begin with a
      request of the grammar, and then it has consumed that request and stored its parts. */
  lemma ExactLanguage(input: string)
    ensures Parse(input).verdict.Good? <==> exists x :: WellFormed(x) && Print(x) <= input
    ensures forall x :: WellFormed(x) && Print(x) <= input ==>
      Parse(input).consumed == |Print(x)| && Parse(input).req == Meaning(x)
  {
    if Parse(input).verdict.Good? {
      var x := AcceptedIsPrinted(input);
      assert WellFormed(x) && Print(x) <= input;
    }
    forall x | WellFormed(x) && Print(x) <= input
      ensures Parse(input) == Outcome(Good, |Print(x)|, Newline3, Meaning(x))
    {
      PrintedIsAccepted(x, input[|Print(x)|..]);
      assert Print(x) + input[|Print(x)|..] == input;
    }
  }

  // ----- Every open verdict can still become good

  function NextByte(st: State): char {
    match st
    case MethodStart => 'G'
    case Method => ' '
    case Uri => ' '
    case VersionH => 'H'
    case VersionT1 => 'T'
    case VersionT2 => 'T'
    case VersionP => 'P'
    case VersionSlash => '/'
    case MajorStart => '1'
    case Major => '.'
    case MinorStart => '0'
    case Minor => '\r'
    case Newline1 => '\n'
    case LineStart => '\r'
    case Lws => '\r'
    case Name => ':'
    case SpaceBeforeValue => ' '
    case Value => '\r'
    case Newline2 => '\n'
    case Newline3 => '\n'
  }

  lemma NextByteAdvances(st: State, req: Request)
    requires Placed(st, req) && !st.Newline3?
    ensures var step := Consume(st, req, NextByte(st));
      step.verdict.Indeterminate? && Rank(step.state) > Rank(st)
  {
  }

  lemma {:induction false} Completable(st: State, x: Tree) returns (y: Tree)
    requires UpTo(st, x)
    ensures WellFormed(y) && PrintUpTo(st, x) < Print(y)
    decreases 20 - Rank(st)
  {
    if st.Newline3? {
      y := x;
      WholePrints(x);
    } else {
      var c := NextByte(st);
      NextByteAdvances(st, Meaning(x));
      TreeGrows(st, x, c);
      y := Completable(Consume(st, Meaning(x), c).state, Extend(st, x, c));
    }
  }

  /** Errors are reported at the first byte that rules every request out: no verdict means
      some request still begins this way, bad means none does. */
  lemma FirstErrorIsReported(input: string)
    ensures Parse(input).verdict.Indeterminate? ==> exists y :: WellFormed(y) && input < Print(y)
    ensures Parse(input).verdict.Bad? ==>
      !exists y :: WellFormed(y) && input[..Parse(input).consumed] <= Print(y)
  {
    var o := Parse(input);
    if o.verdict.Indeterminate? {
      var x := ReadIsPrinted(input);
      var y := Completable(o.state, x);
      assert WellFormed(y) && input < Print(y);
    } else if o.verdict.Bad? {
      VerdictIsOnLastByte(input);
      forall y | WellFormed(y) && input[..o.consumed] <= Print(y) ensures false {
        PrefixIsNotBad(input[..o.consumed], y);
      }
    }
  }

  lemma PrefixIsNotBad(a: string, y: Tree)
    requires WellFormed(y) && a <= Print(y)
    ensures !Parse(a).verdict.Bad?
  {
    var rest := Print(y)[|a|..];
    assert Print(y) + "" == a + rest;
    PrintedIsAccepted(y, "");
    FeedAppend(MethodStart, EMPTY_REQUEST, a, rest);
  }

  // ----- Round trip

  lemma {:induction false} DecimalIsRead(n: nat)
    ensures Decimal(n) != "" && IsDigits(Decimal(n)) && Number(Decimal(n)) == n
  {
    if n < 10 {
      NumberOfOne(('0' as int + n) as char);
    } else {
      DecimalIsRead(n / 10);
      NumberAppend(Decimal(n / 10), ('0' as int + n % 10) as char);
    }
  }

  /** A request written without continuation lines, versions in decimal: the form the
      client of ad_system/server3 sends. */
  function Canonical(req: Request): Tree {
    Tree(req.verb, req.uri, Decimal(req.major), Decimal(req.minor),
         seq(|req.headers|, i requires 0 <= i < |req.headers| => HeaderTree(req.headers[i].name, req.headers[i].value, [])))
  }

  function PrintRequest(req: Request): string {
    Print(Canonical(req))
  }

  /** What a request's fields must look like to be written at all. */
  predicate Printable(req: Request) {
    && req.verb != "" && IsTokens(req.verb) && IsUri(req.uri)
    && forall i :: 0 <= i < |req.headers| ==>
         req.headers[i].name != "" && IsTokens(req.headers[i].name) && IsText(req.headers[i].value)
  }

  lemma CanonicalMeaning(req: Request)
    requires Printable(req)
    ensures WellFormed(Canonical(req)) && Meaning(Canonical(req)) == req
  {
    DecimalIsRead(req.major);
    DecimalIsRead(req.minor);
    forall i | 0 <= i < |req.headers|
      ensures HeaderMeaning(HeaderTree(req.headers[i].name, req.headers[i].value, [])) == req.headers[i]
    {
      ConcatNil(req.headers[i].value);
    }
  }

  /** Printing a request and parsing it gives the request back and consumes every byte. */
  lemma RoundTrip(req: Request, rest: string)
    requires Printable(req)
    ensures Parse(PrintRequest(req) + rest) == Outcome(Good, |PrintRequest(req)|, Newline3, req)
  {
    CanonicalMeaning(req);
    PrintedIsAccepted(Canonical(req), rest);
  }

  lemma {:induction false} FoldedTextIsText(folds: seq<Fold>)
    requires forall i :: 0 <= i < |folds| ==> FoldOk(folds[i])
    ensures IsText(FoldedText(folds))
  {
    if folds != [] {
      FoldedTextIsText(folds[..|folds| - 1]);
    }
  }

  lemma MeaningIsPrintable(x: Tree)
    requires WellFormed(x)
    ensures Printable(Meaning(x))
  {
    forall i | 0 <= i < |x.headers| ensures IsText(HeaderMeaning(x.headers[i]).value) {
      assert HeaderOk(x.headers[i]);
      FoldedTextIsText(x.headers[i].folds);
    }
  }

  /** Whatever form a request came in, folded headers included, rewriting the accepted
      request in canonical form and parsing that gives the same request. */
  lemma Rewriting(input: string)
    requires Parse(input).verdict.Good?
    ensures var req := Parse(input).req;
      Printable(req) && Parse(PrintRequest(req)) == Outcome(Good, |PrintRequest(req)|, Newline3, req)
  {
    var x := AcceptedIsPrinted(input);
    MeaningIsPrintable(x);
    RoundTrip(Meaning(x), "");
    ConcatNil(PrintRequest(Meaning(x)));
  }

  // ----- The parser as an object

  class HttpRequest {
    var verb: string
    var uri: string
    var major: nat
    var minor: nat
    var headers: seq<Header>

    ghost function View(): Request
      reads this
    {
      Request(verb, uri, major, minor, headers)
    }

    constructor ()
      ensures View() == EMPTY_REQUEST
    {
      verb, uri, major, minor, headers := "", "", 0, 0, [];
    }

    /** `headers.back().name.push_back(c)` */
    method PushToName(c: char)
      requires headers != []
      modifies this`headers
      ensures View() == AddToName(old(View()), c)
    {
      var last := headers[|headers| - 1];
      headers := headers[..|headers| - 1] + [last.(name := last.name + [c])];
    }

    /** `headers.back().value.push_back(c)` */
    method PushToValue(c: char)
      requires headers != []
      modifies this`headers
      ensures View() == AddToValue(old(View()), c)
    {
      var last := headers[|headers| - 1];
      headers := headers[..|headers| - 1] + [last.(value := last.value + [c])];
    }
  }

  class HttpParser {
    var state: State

    constructor ()
      ensures state == MethodStart
    {
      state := MethodStart;
    }

    method ConsumeByte(req: HttpRequest, input: char) returns (verdict: Verdict)
      requires Placed(state, req.View())
      modifies this, req
      ensures Step(verdict, state, req.View()) == Consume(old(state), old(req.View()), input)
    {
      match state {
        case MethodStart =>
          if !IsToken(input) { return Bad; }
          state, req.verb := Method, req.verb + [input];
        case Method =>
          if input == ' ' { state := Uri; return Indeterminate; }
          if !IsToken(input) { return Bad; }
          req.verb := req.verb + [input];
        case Uri =>
          if input == ' ' { state := VersionH; return Indeterminate; }
          if IsCtl(input) { return Bad; }
          req.uri := req.uri + [input];
        case VersionH =>
          if input != 'H' { return Bad; }
          state := VersionT1;
        case VersionT1 =>
          if input != 'T' { return Bad; }
          state := VersionT2;
        case VersionT2 =>
          if input != 'T' { return Bad; }
          state := VersionP;
        case VersionP =>
          if input != 'P' { return Bad; }
          state := VersionSlash;
        case VersionSlash =>
          if input != '/' { return Bad; }
          req.major, req.minor := 0, 0;
          state := MajorStart;
        case MajorStart =>
          if !IsDigit(input) { return Bad; }
          state, req.major := Major, req.major * 10 + Digit(input);
        case Major =>
          if input == '.' { state := MinorStart; return Indeterminate; }
          if !IsDigit(input) { return Bad; }
          req.major := req.major * 10 + Digit(input);
        case MinorStart =>
          if !IsDigit(input) { return Bad; }
          state, req.minor := Minor, req.minor * 10 + Digit(input);
        case Minor =>
          if input == '\r' { state := Newline1; return Indeterminate; }
          if !IsDigit(input) { return Bad; }
          req.minor := req.minor * 10 + Digit(input);
        case Newline1 =>
          if input != '\n' { return Bad; }
          state := LineStart;
        case LineStart =>
          if input == '\r' { state := Newline3; return Indeterminate; }
          if req.headers != [] && (input == ' ' || input == '\t') { state := Lws; return Indeterminate; }
          if !IsToken(input) { return Bad; }
          state, req.headers := Name, req.headers + [Header([input], "")];
        case Lws =>
          if input == '\r' { state := Newline2; return Indeterminate; }
          if input == ' ' || input == '\t' { return Indeterminate; }
          if IsCtl(input) { return Bad; }
          state := Value;
          req.PushToValue(input);
        case Name =>
          if input == ':' { state := SpaceBeforeValue; return Indeterminate; }
          if !IsToken(input) { return Bad; }
          req.PushToName(input);
        case SpaceBeforeValue =>
          if input != ' ' { return Bad; }
          state := Value;
        case Value =>
          if input == '\r' { state := Newline2; return Indeterminate; }
          if IsCtl(input) { return Bad; }
          req.PushToValue(input);
        case Newline2 =>
          if input != '\n' { return Bad; }
          state := LineStart;
        case Newline3 =>
          return if input == '\n' then Good else Bad;
      }
      return Indeterminate;
    }

    /** The loop over the input; `consumed` is where the iterator ends up. */
    method Parse(req: HttpRequest, input: string) returns (verdict: Verdict, consumed: nat)
      requires Placed(state, req.View())
      modifies this, req
      ensures Outcome(verdict, consumed, state, req.View()) == Feed(old(state), old(req.View()), input)
    {
      ghost var st, r := state, req.View();
      verdict, consumed := Indeterminate, 0;
      assert input[..0] == "";
      while consumed < |input|
        invariant consumed <= |input| && Placed(state, req.View()) && verdict == Indeterminate
        invariant Outcome(Indeterminate, consumed, state, req.View()) == Feed(st, r, input[..consumed])
      {
        ghost var a, rest := input[..consumed], input[consumed + 1..];
        FeedOne(st, r, a, input[consumed]);
        assert a + [input[consumed]] == input[..consumed + 1];
        verdict := ConsumeByte(req, input[consumed]);
        consumed := consumed + 1;
        if verdict.Good? || verdict.Bad? {
          FeedAppend(st, r, input[..consumed], rest);
          assert input[..consumed] + rest == input;
          return;
        }
      }
      assert input[..consumed] == input;
    }
  }
}
