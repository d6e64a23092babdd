/** A request on its way from the client, which prints it, to the server, which reads the header
    line by line, then waits for as many bytes as the header announces. */
module HttpRequest {
  import opened Sequences
  import opened Text
  import opened Numerals
  import opened ByteStream
  import opened HttpHeader

  datatype Request = Request(verb: string, path: string, version: string, fields: seq<Field>)

  // ---------------------------------------------------------------- the client's side

  function CorrectedPath(path: string): string {
    if path == "" then "/" else path
  }

  function RequestLine(verb: string, path: string): string {
    verb + " " + (CorrectedPath(path) + " HTTP/1.1")
  }

  function LengthFields(body: string): seq<Field> {
    if body == "" then [] else [Field("Content-Length", Print(|body|, 10))]
  }

  function Outgoing(host: string, headers: seq<Field>, body: string): seq<Field> {
    [Field("Host", host)] + headers + LengthFields(body)
  }

  function PrintRequest(verb: string, path: string, host: string, headers: seq<Field>, body: string): string {
    Block([RequestLine(verb, path)] + FieldLines(Outgoing(host, headers, body))) + (CRLF + body)
  }

  lemma {:induction false} BlockAppend(lines: seq<string>, line: string)
    ensures Block(lines + [line]) == Block(lines) + (line + CRLF)
  {
    if lines == [] {
      assert ([line])[1..] == [] && [] + [line] == [line];
      assert line + CRLF + "" == "" + (line + CRLF);
    } else {
      BlockAppend(lines[1..], line);
      assert lines + [line] == [lines[0]] + (lines[1..] + [line]);
      BlockHead(lines[0], lines[1..] + [line]);
      assert lines[0] + CRLF + (Block(lines[1..]) + (line + CRLF)) == (lines[0] + CRLF + Block(lines[1..])) + (line + CRLF);
    }
  }

  lemma {:induction false} FieldLinesAppend(fs: seq<Field>, f: Field)
    ensures FieldLines(fs + [f]) == FieldLines(fs) + [FieldLine(f)]
  {
    hide FieldLine;
    if fs == [] {
      assert fs + [f] == [f] && [f][1..] == [];
    } else {
      FieldLinesAppend(fs[1..], f);
      assert fs + [f] == [fs[0]] + (fs[1..] + [f]);
      assert ([fs[0]] + (fs[1..] + [f]))[1..] == fs[1..] + [f];
    }
  }

  lemma OneFieldMore(first: string, fs: seq<Field>, f: Field)
    ensures Block([first] + FieldLines(fs + [f])) == Block([first] + FieldLines(fs)) + (FieldLine(f) + CRLF)
  {
    hide FieldLine, Block;
    FieldLinesAppend(fs, f);
    BlockAppend([first] + FieldLines(fs), FieldLine(f));
    assert [first] + (FieldLines(fs) + [FieldLine(f)]) == ([first] + FieldLines(fs)) + [FieldLine(f)];
  }

  lemma FirstLineOnly(first: string)
    ensures Block([first] + FieldLines([])) == first + CRLF
  {
    assert [first] + FieldLines([]) == [first] && [first][1..] == [];
    assert first + CRLF + "" == first + CRLF;
  }

  lemma FirstLineText(verb: string, path: string)
    ensures verb + " " + CorrectedPath(path) + " HTTP/1.1" + CRLF == RequestLine(verb, path) + CRLF
  {
  }

  lemma AllFields(host: string, headers: seq<Field>, body: string)
    ensures Outgoing(host, headers, body) ==
      if |body| > 0 then ([Field("Host", host)] + headers) + [Field("Content-Length", Print(|body|, 10))]
      else [Field("Host", host)] + headers
  {
    hide Print;
  }

  /** `create_request_header`. */
  method CreateRequestHeader(verb: string, path: string, host: string, headers: seq<Field>) returns (out: string)
    ensures out == Block([RequestLine(verb, path)] + FieldLines([Field("Host", host)] + headers))
  {
    hide Block, FieldLines, RequestLine;
    var corrected := path;
    if corrected == "" {
      corrected := "/";
    }
    ghost var first := RequestLine(verb, path);
    out := verb + " " + corrected + " HTTP/1.1" + CRLF;
    FirstLineText(verb, path);
    FirstLineOnly(first);
    OneFieldMore(first, [], Field("Host", host));
    out := out + ("Host: " + host + CRLF);
    ghost var sent := [] + [Field("Host", host)];
    assert sent == [Field("Host", host)] + headers[..0];
    for i := 0 to |headers|
      invariant sent == [Field("Host", host)] + headers[..i]
      invariant out == Block([first] + FieldLines(sent))
    {
      OneFieldMore(first, sent, headers[i]);
      NextSent([Field("Host", host)], headers, i);
      sent := sent + [headers[i]];
      out := out + (headers[i].name + ": " + headers[i].value + CRLF);
    }
    assert headers[..|headers|] == headers;
  }

  lemma NextSent(a: seq<Field>, headers: seq<Field>, i: nat)
    requires i < |headers|
    ensures (a + headers[..i]) + [headers[i]] == a + headers[..i + 1]
  {
  }

  /** What `request` sends: the header, the length unless the content is empty, the content. */
  method WriteRequest(verb: string, path: string, host: string, headers: seq<Field>, body: string) returns (out: string)
    ensures out == PrintRequest(verb, path, host, headers, body)
  {
    hide Block, FieldLines, RequestLine, Outgoing;
    out := CreateRequestHeader(verb, path, host, headers);
    AllFields(host, headers, body);
    if |body| > 0 {
      OneFieldMore(RequestLine(verb, path), [Field("Host", host)] + headers, Field("Content-Length", Print(|body|, 10)));
      out := out + ("Content-Length: " + Print(|body|, 10) + CRLF);
    }
    out := out + (CRLF + body);
  }

  // ---------------------------------------------------------------- the server's side

  datatype StartLine = BadLine | StartLine(verb: string, path: string, version: string)

  /** The first line, with the character before its newline still there. */
  function ParseStartLine(line: string): StartLine {
    var verbEnd := Find(line, ' ', 0);
    if verbEnd < 0 then BadLine
    else
      var pathEnd := Find(line, ' ', verbEnd + 1);
      if pathEnd < 0 then BadLine
      else
        var slash := Find(line, '/', pathEnd + 1);
        if slash < 0 || line[pathEnd + 1..slash] != "HTTP" then BadLine
        else
          StartLine(line[..verbEnd], line[verbEnd + 1..pathEnd],
                    if slash + 1 < |line| then line[slash + 1..|line| - 1] else "")
  }

  datatype ParsedRequest = Bad | Good(request: Request, rest: string)

  ghost predicate Readable(s: string) {
    var nl := Find(s, '\n', 0);
    nl >= 0 && Terminated(s[nl + 1..])
  }

  function ParseRequest(s: string): ParsedRequest
    requires Readable(s)
  {
    var nl := Find(s, '\n', 0);
    match ParseStartLine(s[..nl])
    case BadLine => Bad
    case StartLine(verb, path, version) =>
      var header := ParseFields(s[nl + 1..]);
      Good(Request(verb, path, version, header.fields), header.rest)
  }

  method ReadStartLine(line: string) returns (r: StartLine)
    ensures r == ParseStartLine(line)
  {
    hide Find;
    var verbEnd := Find(line, ' ', 0);
    if verbEnd < 0 {
      return BadLine;
    }
    var pathEnd := Find(line, ' ', verbEnd + 1);
    if pathEnd < 0 {
      return BadLine;
    }
    var verb, path := line[..verbEnd], line[verbEnd + 1..pathEnd];
    var slash := Find(line, '/', pathEnd + 1);
    if slash < 0 || line[pathEnd + 1..slash] != "HTTP" {
      return BadLine;
    }
    return StartLine(verb, path, if slash + 1 < |line| then line[slash + 1..|line| - 1] else "");
  }

  /** `parse_request`; only a good request leaves the buffer behind the header. */
  method ReadHeader(b: Buffer) returns (r: ParsedRequest)
    requires Readable(b.content)
    modifies b`content
    ensures ParseRequest(old(b.content)) == r && (r.Good? ==> b.content == r.rest)
  {
    hide ParseFields, Find, ParseStartLine, Terminated;
    var line := b.GetLine();
    var start := ReadStartLine(line);
    if start.BadLine? {
      return Bad;
    }
    var fields := ReadFields(b);
    return Good(Request(start.verb, start.path, start.version, fields), b.content);
  }

  /** What became of a connection's next request. */
  datatype Served = ReadError | Dropped | Handled(request: Request)

  /** Handed over once the bytes that were announced are there: the buffer then starts behind the
      header that was read, and holds at least all up to the end of the announced body. */
  ghost predicate Handed(s: string, parsed: ParsedRequest, end: nat, r: Served, content: string, wire: string)
    requires parsed.Good?
  {
    && r == Handled(parsed.request)
    && content + wire == parsed.rest
    && |content| >= |parsed.rest| - (|s| - end)
  }

  /** What follows a good header that may be read to announce `l`, and ends at `p + 4`. */
  ghost predicate ServedWith(s: string, p: nat, parsed: ParsedRequest, l: Length, r: Served, content: string, wire: string)
    requires parsed.Good?
  {
    match l
    case BadLength => r == ReadError
    case NoLength => Handed(s, parsed, p + 4, r, content, wire)
    case Length(n) =>
      if |s| < p + 4 + n then r == ReadError else Handed(s, parsed, p + 4 + n, r, content, wire)
  }

  /** The only outcomes the server may have on the stream `s`: one for each length that it may read. */
  ghost predicate ServedAs(s: string, r: Served, content: string, wire: string) {
    var p := FindText(s, BLANK_LINE, 0);
    if p < 0 then r == ReadError
    else
      BlankIsReadable(s);
      var parsed := ParseRequest(s);
      match parsed
      case Bad => r == Dropped
      case Good(request, _) =>
        exists l :: Announces(request.fields, l) && ServedWith(s, p, parsed, l, r, content, wire)
  }

  lemma BlankIsReadable(s: string)
    requires FindText(s, BLANK_LINE, 0) >= 0
    ensures Readable(s)
  {
    hide Terminated, ParseFields, At;
    BlankTerminates(s, FindText(s, BLANK_LINE, 0));
  }

  lemma ReadableEarly(a: string, b: string)
    requires Readable(a)
    ensures Readable(a + b)
    ensures match ParseRequest(a)
      case Bad => ParseRequest(a + b) == Bad
      case Good(request, rest) => ParseRequest(a + b) == Good(request, rest + b)
  {
    hide Terminated, ParseFields, ParseStartLine;
    var nl := Find(a, '\n', 0);
    FindEarly(a, b, '\n');
    assert (a + b)[..nl] == a[..nl] && (a + b)[nl + 1..] == a[nl + 1..] + b;
    ParseFieldsEarly(a[nl + 1..], b);
  }

  lemma FindEarly(a: string, b: string, c: char)
    requires Find(a, c, 0) >= 0
    ensures Find(a + b, c, 0) == Find(a, c, 0)
  {
    var k := Find(a, c, 0);
    assert (a + b)[0..k] == a[..k];
    FindAt(a + b, c, 0, k);
  }

  /** What the parse leaves unread of the header, the bytes received beyond it, the wire. */
  lemma LeftOver(s: string, p: nat)
    requires FindText(s, BLANK_LINE, 0) == p
    ensures Readable(s) && (ParseRequest(s).Good? ==> |ParseRequest(s).rest| >= |s| - p - 4)
  {
    hide Terminated, ParseFields, At;
    BlankTerminates(s, p);
  }

  lemma UpToBlank(s: string, k: nat)
    requires FindText(s, BLANK_LINE, 0) >= 0 && FindText(s, BLANK_LINE, 0) + 4 <= k <= |s|
    ensures FindText(s[..k], BLANK_LINE, 0) == FindText(s, BLANK_LINE, 0)
  {
    var p := FindText(s, BLANK_LINE, 0);
    assert s == s[..k] + s[k..];
    AtPrefix(s[..k], s[k..], BLANK_LINE, p);
    forall q | 0 <= q < p
      ensures !At(s[..k], BLANK_LINE, q)
    {
      AtPrefix(s[..k], s[k..], BLANK_LINE, q);
    }
    FirstAt(s[..k], BLANK_LINE, p);
  }

  /** `read_request_and_content`, up to the handler. */
  method ReadRequestAndContent(b: Buffer) returns (r: Served)
    modifies b
    ensures ServedAs(old(b.Stream()), r, b.content, b.wire)
  {
    hide ParseRequest, Readable, FindText, Announces;
    ghost var s := b.Stream();
    var ok, n := b.ReadUntil(BLANK_LINE);
    if !ok {
      return ReadError;
    }
    ghost var received, wire := b.content, b.wire;
    assert s[..|received|] == received;
    UpToBlank(s, |received|);
    LeftOver(received, n - 4);
    ReadableEarly(received, wire);
    var additional := |b.content| - n;
    var parsed := ReadHeader(b);
    if parsed.Bad? {
      return Dropped;
    }
    var length := ReadLength(parsed.request.fields);
    match length
    case BadLength =>
      return ReadError;
    case NoLength =>
      return Handled(parsed.request);
    case Length(bytes) =>
      if bytes > additional {
        ok := b.ReadExactly(bytes - additional);
        if !ok {
          return ReadError;
        }
      }
      return Handled(parsed.request);
  }

  // ---------------------------------------------------------------- the round trip

  ghost predicate PlainRequest(verb: string, path: string, host: string, headers: seq<Field>) {
    && ' ' !in verb && '\n' !in verb && ' ' !in path && '\n' !in path && '\n' !in host
    && forall i :: 0 <= i < |headers| ==> PlainField(headers[i])
  }

  lemma StartLineSplit(verb: string, path: string, a: string, b: string)
    ensures verb + " " + (path + a) + b == (verb + " ") + path + (a + b) == "" + verb + (" " + path + (a + b))
  {
  }

  lemma StartLineSlices(verb: string, path: string, tail: string)
    ensures var line, p := (verb + " ") + path + tail, |verb| + 1 + |path|;
      line[..|verb|] == verb && line[|verb| + 1..p] == path && p <= |line| && line[p..] == tail
  {
    Middle(verb + " ", path, tail);
    assert ((verb + " ") + path + tail)[..|verb|] == verb;
  }

  lemma StartLineFinds(verb: string, path: string, tail: string)
    requires ' ' !in verb && ' ' !in path && tail != "" && tail[0] == ' '
    ensures Find((verb + " ") + path + tail, ' ', |verb| + 1) == |verb| + 1 + |path|
    ensures Find("" + verb + (" " + path + tail), ' ', 0) == |verb|
  {
    hide Find;
    FindPast(verb + " ", path, tail, ' ');
    FindPast("", verb, " " + path + tail, ' ');
  }

  lemma StartLineRead(verb: string, path: string)
    requires ' ' !in verb && ' ' !in path
    ensures ParseStartLine(verb + " " + (path + " HTTP/1.1") + "\r") == StartLine(verb, path, "1.1")
  {
    hide Find;
    var tail := " HTTP/1.1" + "\r";
    var line, p := (verb + " ") + path + tail, |verb| + 1 + |path|;
    StartLineSplit(verb, path, " HTTP/1.1", "\r");
    StartLineSlices(verb, path, tail);
    StartLineFinds(verb, path, tail);
    assert tail == " HTTP/1.1\r";
    HttpVersion(line, p);
    StartLineParsed(line, |verb|, p);
  }

  lemma StartLineParsed(line: string, v: nat, p: nat)
    requires Find(line, ' ', 0) == v && v < p && p + 6 < |line| && Find(line, ' ', v + 1) == p
    requires Find(line, '/', p + 1) == p + 5 && line[p + 1..p + 5] == "HTTP"
    ensures ParseStartLine(line) == StartLine(line[..v], line[v + 1..p], line[p + 6..|line| - 1])
  {
    hide Find;
  }

  lemma HttpVersion(line: string, p: nat)
    requires p <= |line| && line[p..] == " HTTP/1.1\r"
    ensures p + 6 < |line| && Find(line, '/', p + 1) == p + 5
    ensures line[p + 1..p + 5] == "HTTP" && line[p + 6..|line| - 1] == "1.1"
  {
    var w := line[p..];
    assert line[p + 1..p + 5] == w[1..5] == "HTTP";
    assert line[p + 5] == w[5] == '/';
    assert '/' !in "HTTP";
    FindAt(line, '/', p + 1, p + 5);
    assert line[p + 6..|line| - 1] == w[6..9] == "1.1";
  }

  lemma OutgoingPlain(host: string, headers: seq<Field>, body: string)
    requires '\n' !in host && forall i :: 0 <= i < |headers| ==> PlainField(headers[i])
    ensures forall i :: 0 <= i < |Outgoing(host, headers, body)| ==> PlainField(Outgoing(host, headers, body)[i])
  {
    hide Print;
    if body != "" {
      var digits := Print(|body|, 10);
      assert forall i :: 0 <= i < |digits| ==> '0' <= digits[i] <= '9';
    }
  }

  lemma {:induction false} LinesPlain(fs: seq<Field>)
    requires forall i :: 0 <= i < |fs| ==> PlainField(fs[i])
    ensures forall i :: 0 <= i < |FieldLines(fs)| ==> PlainLine(FieldLines(fs)[i])
  {
    if fs != [] {
      LinesPlain(fs[1..]);
      assert PlainLine(FieldLine(fs[0]));
    }
  }

  /** Where the header that was sent ends, and what reading it gives. */
  lemma HeaderRoundTrip(verb: string, path: string, fs: seq<Field>, t: string)
    requires ' ' !in verb && '\n' !in verb && ' ' !in path && '\n' !in path
    requires forall i :: 0 <= i < |fs| ==> PlainField(fs[i])
    ensures var s := Block([RequestLine(verb, path)] + FieldLines(fs)) + (CRLF + t);
      && FindText(s, BLANK_LINE, 0) >= 0 && FindText(s, BLANK_LINE, 0) + 4 == |s| - |t|
      && Readable(s)
      && ParseRequest(s) == Good(Request(verb, CorrectedPath(path), "1.1", fs), t)
  {
    hide PlainField, Block, FieldLines, Terminated, ParseFields, ParseStartLine, FindText;
    var line := RequestLine(verb, path);
    var lines := [line] + FieldLines(fs);
    LinesPlain(fs);
    assert PlainLine(line);
    BlankEndsBlock(lines, t);
    BlockHead(line, FieldLines(fs));
    var more := Block(FieldLines(fs)) + (CRLF + t);
    OneLineMore(line, Block(FieldLines(fs)), CRLF + t);
    LineAtHead(line + "\r", more);
    FieldsRoundTrip(fs, t);
    StartLineRead(verb, CorrectedPath(path));
  }

  /** What the server may take the length of a request to be whose caller announced it rightly or
      not at all. */
  lemma OutgoingLength(host: string, headers: seq<Field>, body: string, l: Length)
    requires |body| <= ULONG_MAX && Agrees(headers, |body|) && Announces(Outgoing(host, headers, body), l)
    ensures l == Length(|body|) || (l == NoLength && body == "")
  {
    hide SameName, LengthOf, Announces, Print;
    var fs := Outgoing(host, headers, body);
    OutgoingAgrees(host, headers, body);
    SameNameSelf("Content-Length");
    if body != "" {
      assert SameName(fs[|fs| - 1].name, "Content-Length");
    }
    if HasField(fs, "Content-Length") {
      AgreedLength(fs, |body|, l);
    } else {
      NoLengthAnnounced(fs, l);
    }
  }

  lemma SameNameSelf(name: string)
    ensures SameName(name, name)
  {
  }

  /** The lengths of a request agree exactly when the caller's do. */
  lemma OutgoingAgrees(host: string, headers: seq<Field>, body: string)
    requires |body| <= ULONG_MAX
    ensures Agrees(Outgoing(host, headers, body), |body|) <==> Agrees(headers, |body|)
  {
    hide LengthOf, Print;
    var fs := Outgoing(host, headers, body);
    assert forall i :: 0 <= i < |headers| ==> fs[i + 1] == headers[i];
    assert forall i :: 0 < i <= |headers| ==> fs[i] == headers[i - 1];
    PrintedLength(|body|);
  }

  lemma GoodRequestServed(s: string, q: Request, l: Length, body: string, t: string, r: Served, content: string, wire: string)
    requires FindText(s, BLANK_LINE, 0) + 4 == |s| - |body + t| && FindText(s, BLANK_LINE, 0) >= 0
    requires l == Length(|body|) || (l == NoLength && body == "")
    requires ServedWith(s, FindText(s, BLANK_LINE, 0), Good(q, body + t), l, r, content, wire)
    ensures r == Handled(q) && content + wire == body + t && |content| >= |body|
  {
    hide FindText;
  }

  /** However the bytes of a printed request arrive and whatever follows them, the server's handler
      sees the method, the path, version "1.1" and the fields in order that the client sent, and a
      content that starts with the body; it is exactly the body when nothing follows. A length that
      the caller gives must read as the body's. */
  lemma RequestRoundTrip(verb: string, path: string, host: string, headers: seq<Field>, body: string, t: string,
                         r: Served, content: string, wire: string)
    requires PlainRequest(verb, path, host, headers) && |body| <= ULONG_MAX && Agrees(headers, |body|)
    requires ServedAs(PrintRequest(verb, path, host, headers, body) + t, r, content, wire)
    ensures r == Handled(Received(verb, path, host, headers, body))
    ensures r.request.verb == verb && r.request.path == (if path == "" then "/" else path) && r.request.version == "1.1"
    ensures r.request.fields == [Field("Host", host)] + headers +
      (if body == "" then [] else [Field("Content-Length", Print(|body|, 10))])
    ensures body <= content && content + wire == body + t
    ensures t == "" ==> content == body
  {
    hide Outgoing, ParseRequest, Readable, FindText, Announces, Agrees, ServedWith, PrintRequest;
    var q := Received(verb, path, host, headers, body);
    var s := PrintRequest(verb, path, host, headers, body) + t;
    PrintedParse(verb, path, host, headers, body, t);
    var l :| Announces(q.fields, l) && ServedWith(s, FindText(s, BLANK_LINE, 0), ParseRequest(s), l, r, content, wire);
    OutgoingLength(host, headers, body, l);
    GoodRequestServed(s, q, l, body, t, r, content, wire);
    BodyFirst(content, wire, body, t);
    OutgoingIs(host, headers, body);
  }

  lemma OutgoingIs(host: string, headers: seq<Field>, body: string)
    ensures Outgoing(host, headers, body) == [Field("Host", host)] + headers +
      (if body == "" then [] else [Field("Content-Length", Print(|body|, 10))])
  {
    hide Print;
  }

  /** The request as the handler sees it. */
  function Received(verb: string, path: string, host: string, headers: seq<Field>, body: string): Request {
    Request(verb, CorrectedPath(path), "1.1", Outgoing(host, headers, body))
  }

  lemma PrintedParse(verb: string, path: string, host: string, headers: seq<Field>, body: string, t: string)
    requires PlainRequest(verb, path, host, headers)
    ensures var s := PrintRequest(verb, path, host, headers, body) + t;
      && FindText(s, BLANK_LINE, 0) >= 0 && FindText(s, BLANK_LINE, 0) + 4 == |s| - |body + t|
      && Readable(s) && ParseRequest(s) == Good(Received(verb, path, host, headers, body), body + t)
  {
    hide Block, FieldLines, Outgoing, ParseRequest, Readable, FindText;
    var fs := Outgoing(host, headers, body);
    OutgoingPlain(host, headers, body);
    HeaderRoundTrip(verb, path, fs, body + t);
    FollowedBy(Block([RequestLine(verb, path)] + FieldLines(fs)), body, t);
  }

  /** Nothing but the body follows the header: the outcome for a length that is not the body's. */
  lemma WrongLength(s: string, q: Request, l: Length, body: string) returns (r: Served, content: string, wire: string)
    requires FindText(s, BLANK_LINE, 0) >= 0 && FindText(s, BLANK_LINE, 0) + 4 == |s| - |body|
    requires l != Length(|body|) && l != NoLength
    ensures ServedWith(s, FindText(s, BLANK_LINE, 0), Good(q, body), l, r, content, wire)
    ensures r == ReadError || |content| < |body|
  {
    hide FindText;
    r, content, wire := ReadError, "", "";
    if l.Length? && l.n < |body| {
      r, content, wire := Handled(q), body[..l.n], body[l.n..];
      assert body[..l.n] + body[l.n..] == body;
    }
  }

  /** With nothing behind it, a request reaches the handler with exactly its body, in every arrival
      and whichever length field is looked up, exactly when every length the caller gave reads as
      the body's. */
  lemma ExactlyTheBody(verb: string, path: string, host: string, headers: seq<Field>, body: string)
    requires PlainRequest(verb, path, host, headers) && |body| <= ULONG_MAX
    ensures (forall r, content, wire :: ServedAs(PrintRequest(verb, path, host, headers, body), r, content, wire) ==>
              r == Handled(Received(verb, path, host, headers, body)) && content == body)
       <==> Agrees(headers, |body|)
  {
    hide Outgoing, ParseRequest, Readable, FindText, Announces, Agrees, ServedWith, PrintRequest, PlainRequest;
    var q := Received(verb, path, host, headers, body);
    var s := PrintRequest(verb, path, host, headers, body);
    assert s + "" == s && body + "" == body;
    PrintedParse(verb, path, host, headers, body, "");
    if Agrees(headers, |body|) {
      forall r, content, wire | ServedAs(s, r, content, wire)
        ensures r == Handled(q) && content == body
      {
        RequestRoundTrip(verb, path, host, headers, body, "", r, content, wire);
      }
    } else {
      OutgoingAgrees(host, headers, body);
      var l := OtherLength(q.fields, |body|);
      var r, content, wire := WrongLength(s, q, l, body);
      assert ServedAs(s, r, content, wire);
    }
  }

  lemma FollowedBy(lines: string, body: string, t: string)
    ensures lines + (CRLF + body) + t == lines + (CRLF + (body + t))
  {
  }

  lemma BodyFirst(content: string, wire: string, body: string, t: string)
    requires content + wire == body + t && |content| >= |body|
    ensures body <= content && (t == "" ==> content == body)
  {
    assert (content + wire)[..|body|] == content[..|body|];
    assert (body + t)[..|body|] == body;
    if t == "" {
      assert |content + wire| == |body|;
    }
  }

  // ---------------------------------------------------------------- requests of other clients

  /** A request of any client, its fields spelled in any way: exactly one announces a length, and reads
      as that of the body. However it arrives and whatever follows, the handler gets the body. */
  lemma AnyCaseServed(verb: string, path: string, fs: seq<Field>, i: nat, body: string, t: string,
                      r: Served, content: string, wire: string)
    requires ' ' !in verb && '\n' !in verb && ' ' !in path && '\n' !in path
    requires (forall j :: 0 <= j < |fs| ==> PlainField(fs[j])) && OneLength(fs, i, |body|)
    requires ServedAs(Block([RequestLine(verb, path)] + FieldLines(fs)) + (CRLF + (body + t)), r, content, wire)
    ensures r == Handled(Request(verb, CorrectedPath(path), "1.1", fs))
    ensures body <= content && content + wire == body + t && (t == "" ==> content == body)
  {
    hide ParseRequest, Readable, FindText, Announces, OneLength, ServedWith, Block, FieldLines, PlainField;
    var q := Request(verb, CorrectedPath(path), "1.1", fs);
    var s := Block([RequestLine(verb, path)] + FieldLines(fs)) + (CRLF + (body + t));
    HeaderRoundTrip(verb, path, fs, body + t);
    var l :| Announces(fs, l) && ServedWith(s, FindText(s, BLANK_LINE, 0), ParseRequest(s), l, r, content, wire);
    OneLengthAnnounced(fs, i, |body|, l);
    GoodRequestServed(s, q, l, body, t, r, content, wire);
    BodyFirst(content, wire, body, t);
  }

  /** As long as any part of it is missing the handler is not called: the end of the stream is an
      error, within the header and within the body. */
  lemma AnyCaseCutShort(verb: string, path: string, fs: seq<Field>, i: nat, body: string, p: string,
                        r: Served, content: string, wire: string)
    requires ' ' !in verb && '\n' !in verb && ' ' !in path && '\n' !in path
    requires (forall j :: 0 <= j < |fs| ==> PlainField(fs[j])) && OneLength(fs, i, |body|)
    requires p < Block([RequestLine(verb, path)] + FieldLines(fs)) + (CRLF + body)
    requires ServedAs(p, r, content, wire)
    ensures r == ReadError
  {
    hide ParseRequest, Readable, FindText, Announces, OneLength, Block, FieldLines, PlainField;
    var header := Block([RequestLine(verb, path)] + FieldLines(fs));
    var s := header + (CRLF + body);
    HeaderRoundTrip(verb, path, fs, body);
    if |p| < |header| + 2 {
      HeaderCutShort(s, p);
    } else {
      var part := p[|header| + 2..];
      assert p == header + (CRLF + part) by { CutBehind(header, body, p); }
      HeaderRoundTrip(verb, path, fs, part);
      forall l | Announces(fs, l)
        ensures l == Length(|body|)
      {
        OneLengthAnnounced(fs, i, |body|, l);
      }
    }
  }

  lemma CutBehind(header: string, body: string, p: string)
    requires p <= header + (CRLF + body) && |p| >= |header| + 2
    ensures p == header + (CRLF + p[|header| + 2..])
  {
    assert header + (CRLF + body) == (header + CRLF) + body;
    PrefixSplit(p, header + CRLF, body);
    Regroup(header, CRLF, p[|header| + 2..]);
  }

  /** A printed request that is cut anywhere is an error, too. */
  lemma RequestCutShort(verb: string, path: string, host: string, headers: seq<Field>, body: string, p: string,
                        r: Served, content: string, wire: string)
    requires PlainRequest(verb, path, host, headers) && |body| <= ULONG_MAX && Agrees(headers, |body|)
    requires p < PrintRequest(verb, path, host, headers, body) && ServedAs(p, r, content, wire)
    ensures r == ReadError
  {
    hide ParseRequest, Readable, FindText, Announces, Agrees, Block, FieldLines, Outgoing;
    var fs := Outgoing(host, headers, body);
    var header := Block([RequestLine(verb, path)] + FieldLines(fs));
    OutgoingPlain(host, headers, body);
    HeaderRoundTrip(verb, path, fs, body);
    if |p| < |header| + 2 {
      HeaderCutShort(header + (CRLF + body), p);
    } else {
      var part := p[|header| + 2..];
      assert p == header + (CRLF + part) by { CutBehind(header, body, p); }
      HeaderRoundTrip(verb, path, fs, part);
      forall l | Announces(fs, l)
        ensures l == Length(|body|)
      {
        OutgoingLength(host, headers, body, l);
      }
    }
  }

  /** A request with a length that cannot be read reaches no handler. */
  lemma UnreadableLengthRejected(verb: string, path: string, fs: seq<Field>, t: string, r: Served, content: string, wire: string)
    requires ' ' !in verb && '\n' !in verb && ' ' !in path && '\n' !in path
    requires (forall j :: 0 <= j < |fs| ==> PlainField(fs[j])) && HasField(fs, "Content-Length")
    requires forall j :: 0 <= j < |fs| && SameName(fs[j].name, "Content-Length") ==> LengthOf(fs[j].value) == BadLength
    requires ServedAs(Block([RequestLine(verb, path)] + FieldLines(fs)) + (CRLF + t), r, content, wire)
    ensures r == ReadError
  {
    hide ParseRequest, Readable, FindText, Block, FieldLines, PlainField, LengthOf, SameName;
    HeaderRoundTrip(verb, path, fs, t);
    forall l | Announces(fs, l)
      ensures l == BadLength
    {
    }
  }

  // ---------------------------------------------------------------- what a request line is

  /** `line` is a method, a path, "HTTP/" and the rest, the first two without blanks. */
  ghost predicate IsRequestLine(line: string, v: nat, p: nat) {
    && v < p && p + 6 <= |line| && line[v] == ' ' && line[p] == ' '
    && ' ' !in line[..v] && ' ' !in line[v + 1..p]
    && line[p + 1..p + 6] == "HTTP/"
  }

  /** What is read from a request line: the version is what follows the slash, without its last
      character. */
  function LineParts(line: string, v: nat, p: nat): StartLine
    requires v < p && p + 6 <= |line|
  {
    StartLine(line[..v], line[v + 1..p], if p + 6 < |line| then line[p + 6..|line| - 1] else "")
  }

  /** A line is accepted exactly when it is a request line. */
  lemma AcceptedExactly(line: string)
    ensures ParseStartLine(line) != BadLine <==> exists v: nat, p: nat :: IsRequestLine(line, v, p)
    ensures forall v: nat, p: nat :: IsRequestLine(line, v, p) ==>
      v < p && p + 6 <= |line| && ParseStartLine(line) == LineParts(line, v, p)
  {
    hide ParseStartLine, IsRequestLine, LineParts;
    forall v: nat, p: nat | IsRequestLine(line, v, p)
      ensures v < p && p + 6 <= |line| && ParseStartLine(line) == LineParts(line, v, p)
    {
      LineRead(line, v, p);
    }
    if ParseStartLine(line) != BadLine {
      var v, p := LineAccepted(line);
    }
    if exists v: nat, p: nat :: IsRequestLine(line, v, p) {
      var v: nat, p: nat :| IsRequestLine(line, v, p);
      LineRead(line, v, p);
    }
  }

  lemma LineRead(line: string, v: nat, p: nat)
    requires IsRequestLine(line, v, p)
    ensures v < p && p + 6 <= |line| && ParseStartLine(line) == LineParts(line, v, p) != BadLine
  {
    hide Find;
    LineFinds(line, v, p);
  }

  lemma LineAccepted(line: string) returns (v: nat, p: nat)
    requires ParseStartLine(line) != BadLine
    ensures IsRequestLine(line, v, p)
  {
    hide Find, ParseStartLine, IsRequestLine;
    AcceptedFinds(line);
    v := Find(line, ' ', 0);
    p := Find(line, ' ', v + 1);
    FindSkips(line, ' ', 0);
    FindSkips(line, ' ', v + 1);
    FindSkips(line, '/', p + 1);
    PartsMakeLine(line, v, p, Find(line, '/', p + 1));
  }

  lemma PartsMakeLine(line: string, v: nat, p: nat, slash: nat)
    requires v < p < slash < |line| && line[v] == ' ' && line[p] == ' ' && line[slash] == '/'
    requires ' ' !in line[0..v] && ' ' !in line[v + 1..p] && line[p + 1..slash] == "HTTP"
    ensures IsRequestLine(line, v, p)
  {
    assert line[0..v] == line[..v];
    HttpSlash(line, p, slash);
  }

  lemma AcceptedFinds(line: string)
    requires ParseStartLine(line) != BadLine
    ensures var v := Find(line, ' ', 0);
      v >= 0 && var p := Find(line, ' ', v + 1);
      p >= 0 && var slash := Find(line, '/', p + 1);
      slash >= 0 && line[p + 1..slash] == "HTTP"
  {
    hide Find;
  }

  lemma FindSkips(s: string, c: char, from: nat)
    requires Find(s, c, from) >= 0
    ensures from <= Find(s, c, from) < |s| && s[Find(s, c, from)] == c && c !in s[from..Find(s, c, from)]
  {
    hide Find;
  }

  lemma HttpSlash(line: string, p: nat, slash: nat)
    requires p + 1 <= slash < |line| && line[p + 1..slash] == "HTTP" && line[slash] == '/'
    ensures p + 6 <= |line| && line[p + 1..p + 6] == "HTTP/"
  {
    assert |line[p + 1..slash]| == 4;
    assert line[p + 1..p + 6] == line[p + 1..slash] + [line[slash]];
  }

  lemma LineFinds(line: string, v: nat, p: nat)
    requires IsRequestLine(line, v, p)
    ensures Find(line, ' ', 0) == v && Find(line, ' ', v + 1) == p && Find(line, '/', p + 1) == p + 5
    ensures line[p + 1..p + 5] == "HTTP"
  {
    hide Find;
    var w := line[p + 1..p + 6];
    assert w[4] == line[p + 5] && w[..4] == line[p + 1..p + 5] == "HTTP";
    assert line[0..v] == line[..v] && '/' !in "HTTP";
    FindAt(line, ' ', 0, v);
    FindAt(line, ' ', v + 1, p);
    FindAt(line, '/', p + 1, p + 5);
  }
}
