/** A response on its way from the server, which prints it, to the client, which reads the header
    and then the body by whichever framing the header announces. */
module HttpResponse {
  import opened Text
  import opened Numerals
  import opened ByteStream
  import opened HttpHeader
  import opened HttpRequest
  import C = Chunked

  // ---------------------------------------------------------------- the server's side

  /** The fields `write_header` prints: the length is added for a non-empty content unless given. */
  function Sent(headers: seq<Field>, size: nat): seq<Field> {
    if size > 0 && !HasField(headers, "Content-Length")
    then headers + [Field("Content-Length", Print(size, 10))] else headers
  }

  function PrintResponse(status: string, headers: seq<Field>, body: string): string {
    Block(["HTTP/1.1 " + status] + FieldLines(Sent(headers, |body|))) + (CRLF + body)
  }

  lemma GivenSoFar(headers: seq<Field>, i: nat)
    requires i < |headers|
    ensures HasField(headers[..i + 1], "Content-Length") <==>
      HasField(headers[..i], "Content-Length") || SameName(headers[i].name, "Content-Length")
  {
    hide SameName;
    var more := headers[..i + 1];
    assert more[i] == headers[i] && forall j :: 0 <= j < i ==> more[j] == headers[..i][j];
    if HasField(headers[..i], "Content-Length") {
      var j :| 0 <= j < i && SameName(headers[..i][j].name, "Content-Length");
      assert SameName(more[j].name, "Content-Length");
    }
  }

  lemma NoFieldYet()
    ensures !HasField([], "Content-Length")
  {
  }

  /** `write` with `write_header`. */
  method WriteResponse(status: string, headers: seq<Field>, body: string) returns (out: string)
    ensures out == PrintResponse(status, headers, body)
  {
    hide Block, FieldLines, SameName, HasField;
    ghost var first := "HTTP/1.1 " + status;
    out := "HTTP/1.1 " + status + CRLF;
    var written := false;
    FirstLineOnly(first);
    assert headers[..0] == [] && !HasField([], "Content-Length") by { NoFieldYet(); }
    for i := 0 to |headers|
      invariant out == Block([first] + FieldLines(headers[..i]))
      invariant written <==> |body| > 0 && HasField(headers[..i], "Content-Length")
    {
      GivenSoFar(headers, i);
      if |body| > 0 && !written && SameName(headers[i].name, "Content-Length") {
        written := true;
      }
      OneFieldMore(first, headers[..i], headers[i]);
      assert headers[..i + 1] == headers[..i] + [headers[i]];
      out := out + (headers[i].name + ": " + headers[i].value + CRLF);
    }
    assert headers[..|headers|] == headers;
    if |body| > 0 && !written {
      OneFieldMore(first, headers, Field("Content-Length", Print(|body|, 10)));
      out := out + ("Content-Length: " + Print(|body|, 10) + CRLF);
    }
    out := out + (CRLF + body);
  }

  // ---------------------------------------------------------------- the client's side

  datatype Response = Response(version: string, status: string, fields: seq<Field>)

  datatype ParsedResponse = Read(response: Response, rest: string)

  /** The first line; a blank before its sixth character makes the version run to the end. */
  function Version(line: string): string {
    var e := Find(line, ' ', 0);
    if |line| <= 5 then "" else if e < 5 then line[5..] else line[5..e]
  }

  function Status(line: string): string {
    var e := Find(line, ' ', 0);
    if e + 1 < |line| then line[e + 1..|line| - 1] else ""
  }

  function ParseResponse(s: string): ParsedResponse
    requires Readable(s)
  {
    var nl := Find(s, '\n', 0);
    var line := s[..nl];
    if Find(line, ' ', 0) < 0 then Read(Response("", "", []), s[nl + 1..])
    else
      var header := ParseFields(s[nl + 1..]);
      Read(Response(Version(line), Status(line), header.fields), header.rest)
  }

  /** `parse_response_header`. */
  method ReadResponseHeader(b: Buffer) returns (r: Response)
    requires Readable(b.content)
    modifies b`content
    ensures Read(r, b.content) == ParseResponse(old(b.content))
  {
    hide ParseFields, Find, Version, Status, Terminated;
    var line := b.GetLine();
    if Find(line, ' ', 0) < 0 {
      return Response("", "", []);
    }
    var fields := ReadFields(b);
    return Response(Version(line), Status(line), fields);
  }

  /** `std::string::operator<`. */
  predicate LexLess(a: string, b: string) {
    if b == "" then false
    else if a == "" then true
    else a[0] < b[0] || (a[0] == b[0] && LexLess(a[1..], b[1..]))
  }

  /** How the end of the body is known. */
  datatype Framing = Counted(n: nat) | Unreadable | InChunks | UntilClosed | Nothing

  predicate ValueAt(fields: seq<Field>, at: int, value: string)
    requires at < |fields|
  {
    at >= 0 && fields[at].value == value
  }

  /** The framings a response may be read to announce when no length is. */
  ghost predicate FramedWithout(r: Response, f: Framing) {
    exists c, d ::
      Found(r.fields, "Transfer-Encoding", c) && Found(r.fields, "Session", d)
      && f == if ValueAt(r.fields, c, "chunked") then InChunks
              else if LexLess(r.version, "1.1") || ValueAt(r.fields, d, "close") then UntilClosed
              else Nothing
  }

  ghost predicate FramedBy(r: Response, l: Length, f: Framing) {
    match l
    case Length(n) => f == Counted(n)
    case BadLength => f == Unreadable
    case NoLength => FramedWithout(r, f)
  }

  ghost predicate MayFrame(r: Response, f: Framing) {
    exists l :: Announces(r.fields, l) && FramedBy(r, l, f)
  }

  /** The choices of `read` once the header is there. */
  method ReadFraming(r: Response) returns (f: Framing)
    ensures MayFrame(r, f)
  {
    hide Found, Announces, LexLess;
    var l := ReadLength(r.fields);
    if l.Length? {
      f := Counted(l.n);
    } else if l == BadLength {
      f := Unreadable;
    } else {
      var c := Lookup(r.fields, "Transfer-Encoding");
      var d := Lookup(r.fields, "Session");
      FoundInside(r.fields, "Transfer-Encoding", c);
      FoundInside(r.fields, "Session", d);
      f := if ValueAt(r.fields, c, "chunked") then InChunks
           else if LexLess(r.version, "1.1") || ValueAt(r.fields, d, "close") then UntilClosed
           else Nothing;
    }
    assert FramedBy(r, l, f);
  }

  lemma FoundInside(fields: seq<Field>, name: string, at: int)
    requires Found(fields, name, at)
    ensures -1 <= at < |fields|
  {
  }

  /** How reading a response ends: the connection is lost before a whole header arrived, or as for
      a chunked body. */
  datatype Reading = Lost | Ended(end: C.Ending, response: Response)

  /** What the buffer holds when `end` is the least position of the stream that must have arrived. */
  ghost predicate Filled(s: string, rest: string, end: nat, content: string, wire: string) {
    content + wire == rest && |content| >= |rest| - (|s| - end)
  }

  /** What follows a header that may be read to announce the framing `f`, and ends at `p + 4`. */
  ghost predicate ReadWith(s: string, p: nat, rest: string, f: Framing, end: C.Ending, content: string, wire: string) {
    match f
    case Counted(n) =>
      if |s| < p + 4 + n then end == C.Failure
      else end == C.Success && Filled(s, rest, p + 4 + n, content, wire)
    case Unreadable => end == C.Exception
    case InChunks => exists k: nat :: C.Outcome(rest, "", k, end, content, wire)
    case UntilClosed => end == C.Success && content == rest && wire == ""
    case Nothing => end == C.Success && Filled(s, rest, p + 4, content, wire)
  }

  /** The only outcomes the client may have on the stream `s`: one for each framing it may read. */
  ghost predicate ReadAs(s: string, r: Reading, content: string, wire: string) {
    var p := FindText(s, BLANK_LINE, 0);
    if p < 0 then r == Lost
    else
      BlankIsReadable(s);
      var parsed := ParseResponse(s);
      && r.Ended? && r.response == parsed.response
      && exists f :: MayFrame(parsed.response, f) && ReadWith(s, p, parsed.rest, f, r.end, content, wire)
  }

  lemma ResponseEarly(a: string, b: string)
    requires Readable(a)
    ensures Readable(a + b)
    ensures ParseResponse(a + b) == Read(ParseResponse(a).response, ParseResponse(a).rest + b)
  {
    hide Terminated, ParseFields, Version, Status;
    var nl := Find(a, '\n', 0);
    FindEarly(a, b, '\n');
    assert (a + b)[..nl] == a[..nl] && (a + b)[nl + 1..] == a[nl + 1..] + b;
    ParseFieldsEarly(a[nl + 1..], b);
  }

  lemma ResponseLeftOver(s: string, p: nat)
    requires FindText(s, BLANK_LINE, 0) == p
    ensures Readable(s) && |ParseResponse(s).rest| >= |s| - p - 4
  {
    hide Terminated, ParseFields, At, Version, Status;
    BlankTerminates(s, p);
  }

  /** `read`, up to the callback or the decision to reconnect. */
  method ReadResponse(b: Buffer) returns (r: Reading)
    modifies b
    ensures ReadAs(old(b.Stream()), r, b.content, b.wire)
  {
    hide ParseResponse, MayFrame, Readable, FindText, C.Outcome;
    ghost var s := b.Stream();
    var ok, n := b.ReadUntil(BLANK_LINE);
    if !ok {
      return Lost;
    }
    ghost var received, wire := b.content, b.wire;
    assert s[..|received|] == received;
    UpToBlank(s, |received|);
    ResponseLeftOver(received, n - 4);
    ResponseEarly(received, wire);
    var additional := |b.content| - n;
    var response := ReadResponseHeader(b);
    ghost var rest := b.content + b.wire;
    var end := C.Success;
    var framing := ReadFraming(response);
    match framing {
      case Counted(bytes) =>
        if bytes > additional {
          ok := b.ReadExactly(bytes - additional);
          end := if ok then C.Success else C.Failure;
        }
      case Unreadable =>
        end := C.Exception;
      case InChunks =>
        ghost var k;
        end, k := C.ReadChunked(b, "");
        assert C.Outcome(rest, "", k, end, b.content, b.wire);
      case UntilClosed =>
        assert b.content + b.wire + "" == b.content + b.wire;
        b.content, b.wire := b.content + b.wire, "";
      case Nothing =>
    }
    assert ReadWith(s, n - 4, rest, framing, end, b.content, b.wire);
    return Ended(end, response);
  }

  // ---------------------------------------------------------------- the round trip

  lemma SentPlain(headers: seq<Field>, size: nat)
    requires forall i :: 0 <= i < |headers| ==> PlainField(headers[i])
    ensures forall i :: 0 <= i < |Sent(headers, size)| ==> PlainField(Sent(headers, size)[i])
  {
    hide Print;
    var digits := Print(size, 10);
    assert forall i :: 0 <= i < |digits| ==> '0' <= digits[i] <= '9';
  }

  /** The lengths of a response agree exactly when the handler's do. */
  lemma SentAgrees(headers: seq<Field>, size: nat)
    requires size <= ULONG_MAX
    ensures Agrees(Sent(headers, size), size) <==> Agrees(headers, size)
  {
    hide LengthOf, Print, SameName, HasField;
    var fs := Sent(headers, size);
    assert forall i :: 0 <= i < |headers| ==> fs[i] == headers[i];
    PrintedLength(size);
  }

  lemma LengthIsSent(headers: seq<Field>, size: nat)
    ensures HasField(Sent(headers, size), "Content-Length") <==> size > 0 || HasField(headers, "Content-Length")
    ensures !HasField(Sent(headers, size), "Content-Length") ==> Sent(headers, size) == headers
  {
    hide SameName, Print;
    var fs := Sent(headers, size);
    SameNameSelf("Content-Length");
    if size > 0 && !HasField(headers, "Content-Length") {
      assert SameName(fs[|headers|].name, "Content-Length");
    }
  }

  lemma StatusLineRead(version: string, status: string)
    requires ' ' !in version
    ensures var line := "HTTP/" + version + " " + status + "\r";
      Find(line, ' ', 0) == 5 + |version| && Version(line) == version && Status(line) == status
  {
    hide Find;
    var line := "HTTP/" + version + " " + status + "\r";
    var e := 5 + |version|;
    assert line[0..e] == "HTTP/" + version && ' ' !in "HTTP/";
    FindAt(line, ' ', 0, e);
    assert line[5..e] == version && line[e + 1..|line| - 1] == status;
  }

  function StatusLine(version: string, status: string): string {
    "HTTP/" + version + " " + status
  }

  /** Where a header ends, and what reading it gives. */
  lemma HeaderRoundTrip(version: string, status: string, fs: seq<Field>, t: string)
    requires ' ' !in version && '\n' !in version && '\n' !in status && forall i :: 0 <= i < |fs| ==> PlainField(fs[i])
    ensures var s := Block([StatusLine(version, status)] + FieldLines(fs)) + (CRLF + t);
      && FindText(s, BLANK_LINE, 0) >= 0 && FindText(s, BLANK_LINE, 0) + 4 == |s| - |t|
      && Readable(s)
      && ParseResponse(s) == Read(Response(version, status, fs), t)
  {
    hide PlainField, Block, FieldLines, Terminated, ParseFields, Version, Status, FindText;
    var line := StatusLine(version, status);
    LinesPlain(fs);
    assert PlainLine(line);
    BlankEndsBlock([line] + FieldLines(fs), t);
    BlockHead(line, FieldLines(fs));
    OneLineMore(line, Block(FieldLines(fs)), CRLF + t);
    LineAtHead(line + "\r", Block(FieldLines(fs)) + (CRLF + t));
    FieldsRoundTrip(fs, t);
    StatusLineRead(version, status);
  }

  lemma PrintedVersion(status: string)
    ensures "HTTP/1.1 " + status == StatusLine("1.1", status)
  {
  }

  // ---------------------------------------------------------------- what a handler may announce

  ghost predicate NotChunked(headers: seq<Field>) {
    forall i :: 0 <= i < |headers| && SameName(headers[i].name, "Transfer-Encoding") ==> headers[i].value != "chunked"
  }

  /** What the handler's own fields say about the body fits it: every length it gives is the body's,
      and an empty body without a length is not announced as chunked. */
  ghost predicate Fits(headers: seq<Field>, body: string) {
    && Agrees(headers, |body|)
    && (body == "" && !HasField(headers, "Content-Length") ==> NotChunked(headers))
  }

  lemma NotFramedInChunks(r: Response, f: Framing)
    requires FramedWithout(r, f) && NotChunked(r.fields)
    ensures f == UntilClosed || f == Nothing
  {
    hide SameName, LexLess;
  }

  lemma FramedInChunks(r: Response)
    requires !NotChunked(r.fields)
    ensures FramedWithout(r, InChunks)
  {
    hide SameName, LexLess;
    var c :| 0 <= c < |r.fields| && SameName(r.fields[c].name, "Transfer-Encoding") && r.fields[c].value == "chunked";
    var d := AnyFound(r.fields, "Session");
    assert Found(r.fields, "Transfer-Encoding", c) && ValueAt(r.fields, c, "chunked");
    FoundInside(r.fields, "Session", d);
  }

  lemma AnyFound(fs: seq<Field>, name: string) returns (at: int)
    ensures Found(fs, name, at)
  {
    hide SameName;
    at := -1;
    if HasField(fs, name) {
      at :| 0 <= at < |fs| && SameName(fs[at].name, name);
    }
  }

  /** The response as the callback sees it. */
  function Received(status: string, headers: seq<Field>, body: string): Response {
    Response("1.1", status, Sent(headers, |body|))
  }

  /** The framings the client may read from fitting fields. */
  lemma FittingFraming(status: string, headers: seq<Field>, body: string, f: Framing)
    requires |body| <= ULONG_MAX && Fits(headers, body) && MayFrame(Received(status, headers, body), f)
    ensures f == Counted(|body|) || (body == "" && (f == UntilClosed || f == Nothing))
  {
    hide Announces, Agrees, HasField, NotChunked, LexLess, Sent, FramedWithout;
    var q := Received(status, headers, body);
    var l :| Announces(q.fields, l) && FramedBy(q, l, f);
    SentAgrees(headers, |body|);
    LengthIsSent(headers, |body|);
    if HasField(q.fields, "Content-Length") {
      AgreedLength(q.fields, |body|, l);
    } else {
      NoLengthAnnounced(q.fields, l);
      NotFramedInChunks(q, f);
    }
  }

  lemma PrintedParse(status: string, headers: seq<Field>, body: string, t: string)
    requires '\n' !in status && forall i :: 0 <= i < |headers| ==> PlainField(headers[i])
    ensures var s := PrintResponse(status, headers, body) + t;
      && FindText(s, BLANK_LINE, 0) >= 0 && FindText(s, BLANK_LINE, 0) + 4 == |s| - |body + t|
      && Readable(s) && ParseResponse(s) == Read(Received(status, headers, body), body + t)
  {
    hide Block, FieldLines, ParseResponse, Readable, FindText, Sent, PlainField;
    var fs := Sent(headers, |body|);
    SentPlain(headers, |body|);
    PrintedVersion(status);
    HeaderRoundTrip("1.1", status, fs, body + t);
    FollowedBy(Block(["HTTP/1.1 " + status] + FieldLines(fs)), body, t);
  }

  lemma GoodResponseRead(s: string, p: nat, f: Framing, body: string, t: string, end: C.Ending, content: string, wire: string)
    requires p + 4 == |s| - |body + t|
    requires f == Counted(|body|) || (body == "" && (f == UntilClosed || f == Nothing))
    requires ReadWith(s, p, body + t, f, end, content, wire)
    ensures end == C.Success && content + wire == body + t && |content| >= |body|
  {
    assert (body + t) + "" == body + t;
  }

  /** However the bytes of a response arrive and whatever follows them, the client's callback sees
      version "1.1", the status, the fields in order, and a content that starts with the body; it is
      exactly the body when nothing follows. What the handler's fields say about the body must fit. */
  lemma ResponseRoundTrip(status: string, headers: seq<Field>, body: string, t: string,
                          r: Reading, content: string, wire: string)
    requires '\n' !in status && forall i :: 0 <= i < |headers| ==> PlainField(headers[i])
    requires |body| <= ULONG_MAX && Fits(headers, body)
    requires ReadAs(PrintResponse(status, headers, body) + t, r, content, wire)
    ensures r == Ended(C.Success, Received(status, headers, body))
    ensures r.response.version == "1.1" && r.response.status == status
    ensures r.response.fields == headers +
      (if body == "" || HasField(headers, "Content-Length") then [] else [Field("Content-Length", Print(|body|, 10))])
    ensures body <= content && content + wire == body + t
    ensures t == "" ==> content == body
  {
    hide ParseResponse, Readable, FindText, PlainField, Received, PrintResponse, MayFrame, ReadWith, Fits;
    var q := Received(status, headers, body);
    var s := PrintResponse(status, headers, body) + t;
    PrintedParse(status, headers, body, t);
    var p := FindText(s, BLANK_LINE, 0);
    var f :| MayFrame(q, f) && ReadWith(s, p, body + t, f, r.end, content, wire);
    FittingFraming(status, headers, body, f);
    GoodResponseRead(s, p, f, body, t, r.end, content, wire);
    BodyFirst(content, wire, body, t);
    ReceivedIs(status, headers, body);
  }

  lemma ReceivedIs(status: string, headers: seq<Field>, body: string)
    ensures var q := Received(status, headers, body);
      && q.version == "1.1" && q.status == status
      && q.fields == headers +
           (if body == "" || HasField(headers, "Content-Length") then [] else [Field("Content-Length", Print(|body|, 10))])
  {
    hide Print, HasField;
    assert headers + [] == headers;
  }

  /** A framing that does not fit, and what it makes of a response with nothing behind it. */
  lemma MisleadingFraming(status: string, headers: seq<Field>, body: string, s: string, p: nat)
    returns (f: Framing, end: C.Ending, content: string, wire: string)
    requires |body| <= ULONG_MAX && !Fits(headers, body) && p + 4 == |s| - |body|
    ensures MayFrame(Received(status, headers, body), f) && ReadWith(s, p, body, f, end, content, wire)
    ensures end != C.Success || |content| < |body|
  {
    hide Announces, Agrees, HasField, NotChunked, LexLess, Sent, FramedWithout, C.Outcome;
    var q := Received(status, headers, body);
    SentAgrees(headers, |body|);
    LengthIsSent(headers, |body|);
    end, content, wire := C.Failure, "", "";
    if !Agrees(headers, |body|) {
      var l := OtherLength(q.fields, |body|);
      f := if l.Length? then Counted(l.n) else Unreadable;
      assert FramedBy(q, l, f);
      if l == BadLength {
        end := C.Exception;
      } else if l.n < |body| {
        end, content, wire := C.Success, body[..l.n], body[l.n..];
        assert body[..l.n] + body[l.n..] == body;
      }
    } else {
      f := InChunks;
      NoLengthAnnounced(q.fields, NoLength);
      FramedInChunks(q);
      assert FramedBy(q, NoLength, f);
      NothingIsTooShort();
      assert C.Outcome(body, "", 0, end, content, wire);
    }
  }

  lemma NothingIsTooShort()
    ensures C.Outcome("", "", 0, C.Failure, "", "")
  {
    assert C.Decode("") == C.TooShort;
  }

  /** With nothing behind it, a response reaches the callback with exactly its body, in every arrival
      and whichever fields are looked up, exactly when what the handler's fields say fits. */
  lemma ExactlyTheBody(status: string, headers: seq<Field>, body: string)
    requires '\n' !in status && forall i :: 0 <= i < |headers| ==> PlainField(headers[i])
    requires |body| <= ULONG_MAX
    ensures (forall r, content, wire :: ReadAs(PrintResponse(status, headers, body), r, content, wire) ==>
              r == Ended(C.Success, Received(status, headers, body)) && content == body)
       <==> Fits(headers, body)
  {
    hide ParseResponse, Readable, FindText, PlainField, Received, PrintResponse, MayFrame, ReadWith, Fits;
    var q := Received(status, headers, body);
    var s := PrintResponse(status, headers, body);
    assert s + "" == s && body + "" == body;
    PrintedParse(status, headers, body, "");
    if Fits(headers, body) {
      forall r, content, wire | ReadAs(s, r, content, wire)
        ensures r == Ended(C.Success, q) && content == body
      {
        ResponseRoundTrip(status, headers, body, "", r, content, wire);
      }
    } else {
      var f, end, content, wire := MisleadingFraming(status, headers, body, s, FindText(s, BLANK_LINE, 0));
      assert ReadAs(s, Ended(end, q), content, wire);
    }
  }

  // ---------------------------------------------------------------- chunks

  /** The header announces chunks, whichever fields are looked up, and no length. */
  ghost predicate AnnouncesChunks(headers: seq<Field>) {
    && !HasField(headers, "Content-Length") && HasField(headers, "Transfer-Encoding")
    && forall i :: 0 <= i < |headers| && SameName(headers[i].name, "Transfer-Encoding") ==> headers[i].value == "chunked"
  }

  lemma ChunksAnnounced(r: Response, f: Framing)
    requires AnnouncesChunks(r.fields) && MayFrame(r, f)
    ensures f == InChunks
  {
    hide SameName, LexLess, Announces;
    var l :| Announces(r.fields, l) && FramedBy(r, l, f);
    NoLengthAnnounced(r.fields, l);
  }

  /** A response that announces chunks: the content is what the chunks carry, whatever arrives when. */
  lemma ChunkedResponseRoundTrip(status: string, headers: seq<Field>, cs: seq<C.Chunk>, last: C.Chunk,
                                 r: Reading, content: string, wire: string)
    requires '\n' !in status && forall i :: 0 <= i < |headers| ==> PlainField(headers[i])
    requires AnnouncesChunks(headers)
    requires forall i :: 0 <= i < |cs| ==> C.WellFormed(cs[i]) && cs[i].data != ""
    requires C.WellFormed(last) && last.data == ""
    requires ReadAs(Block([StatusLine("1.1", status)] + FieldLines(headers)) + (CRLF + (C.EncodeAll(cs) + C.Encode(last))),
                    r, content, wire)
    ensures r == Ended(C.Success, Response("1.1", status, headers)) && content == C.Payload(cs) && wire == ""
  {
    hide Block, FieldLines, FindText, C.Outcome, C.EncodeAll, C.Encode, C.Payload, C.WellFormed, PlainField,
         ParseResponse, Readable, AnnouncesChunks, MayFrame;
    var rest := C.EncodeAll(cs) + C.Encode(last);
    var s := Block([StatusLine("1.1", status)] + FieldLines(headers)) + (CRLF + rest);
    HeaderRoundTrip("1.1", status, headers, rest);
    var q := Response("1.1", status, headers);
    var f :| MayFrame(q, f) && ReadWith(s, FindText(s, BLANK_LINE, 0), rest, f, r.end, content, wire);
    ChunksAnnounced(q, f);
    var k: nat :| C.Outcome(rest, "", k, r.end, content, wire);
    C.ArrivalDoesNotMatter(cs, last, k, r.end, content, wire);
  }

  /** A response that announces chunks and is cut anywhere: behind its header the callback gets an
      error, and within it the connection counts as lost. */
  lemma ChunkedResponseCutShort(status: string, headers: seq<Field>, cs: seq<C.Chunk>, last: C.Chunk, p: string,
                                r: Reading, content: string, wire: string)
    requires '\n' !in status && (forall i :: 0 <= i < |headers| ==> PlainField(headers[i])) && AnnouncesChunks(headers)
    requires forall i :: 0 <= i < |cs| ==> C.WellFormed(cs[i]) && cs[i].data != ""
    requires C.WellFormed(last) && last.data == ""
    requires p < Block([StatusLine("1.1", status)] + FieldLines(headers)) + (CRLF + (C.EncodeAll(cs) + C.Encode(last)))
    requires ReadAs(p, r, content, wire)
    ensures |p| >= |Block([StatusLine("1.1", status)] + FieldLines(headers))| + 2 ==>
      r == Ended(C.Failure, Response("1.1", status, headers))
    ensures |p| < |Block([StatusLine("1.1", status)] + FieldLines(headers))| + 2 ==> r == Lost
  {
    hide Block, FieldLines, FindText, C.Outcome, C.EncodeAll, C.Encode, C.WellFormed, PlainField,
         ParseResponse, Readable, AnnouncesChunks, MayFrame, StatusLine;
    var header, rest := Block([StatusLine("1.1", status)] + FieldLines(headers)), C.EncodeAll(cs) + C.Encode(last);
    HeaderRoundTrip("1.1", status, headers, rest);
    if |p| < |header| + 2 {
      HeaderCutShort(header + (CRLF + rest), p);
    } else {
      var part := p[|header| + 2..];
      assert p == header + (CRLF + part) by { CutBehind(header, rest, p); }
      CutRest(header, rest, part);
      HeaderRoundTrip("1.1", status, headers, part);
      var q := Response("1.1", status, headers);
      var f :| MayFrame(q, f) && ReadWith(p, FindText(p, BLANK_LINE, 0), part, f, r.end, content, wire);
      ChunksAnnounced(q, f);
      var k: nat :| C.Outcome(part, "", k, r.end, content, wire);
      C.LostConnectionFails(cs, last, part, "", k, r.end, content, wire);
    }
  }

  lemma CutRest(header: string, rest: string, part: string)
    requires header + (CRLF + part) < header + (CRLF + rest)
    ensures part < rest
  {
    var a, b := header + (CRLF + part), header + (CRLF + rest);
    assert part == a[|header| + 2..] && rest == b[|header| + 2..];
    assert a == b[..|a|];
  }

  // ---------------------------------------------------------------- responses of other servers

  lemma CountedOnly(r: Response, i: nat, n: nat, f: Framing)
    requires OneLength(r.fields, i, n) && MayFrame(r, f)
    ensures f == Counted(n)
  {
    hide OneLength, Announces;
    var l :| Announces(r.fields, l) && FramedBy(r, l, f);
    OneLengthAnnounced(r.fields, i, n, l);
  }

  /** A response of any version whose fields announce one length, spelled in any case: the callback
      gets the body however it arrives and whatever follows. */
  lemma AnyCaseRead(version: string, status: string, fs: seq<Field>, i: nat, body: string, t: string,
                    r: Reading, content: string, wire: string)
    requires ' ' !in version && '\n' !in version && '\n' !in status
    requires (forall j :: 0 <= j < |fs| ==> PlainField(fs[j])) && OneLength(fs, i, |body|)
    requires ReadAs(Block([StatusLine(version, status)] + FieldLines(fs)) + (CRLF + (body + t)), r, content, wire)
    ensures r == Ended(C.Success, Response(version, status, fs))
    ensures body <= content && content + wire == body + t && (t == "" ==> content == body)
  {
    hide ParseResponse, Readable, FindText, PlainField, MayFrame, ReadWith, OneLength, Block, FieldLines, StatusLine;
    var q := Response(version, status, fs);
    var s := Block([StatusLine(version, status)] + FieldLines(fs)) + (CRLF + (body + t));
    HeaderRoundTrip(version, status, fs, body + t);
    var p := FindText(s, BLANK_LINE, 0);
    var f :| MayFrame(q, f) && ReadWith(s, p, body + t, f, r.end, content, wire);
    CountedOnly(q, i, |body|, f);
    GoodResponseRead(s, p, f, body, t, r.end, content, wire);
    BodyFirst(content, wire, body, t);
  }

  /** Cut short, it is an error for the callback, or a lost connection within the header. */
  lemma AnyCaseCutShort(version: string, status: string, fs: seq<Field>, i: nat, body: string, p: string,
                        r: Reading, content: string, wire: string)
    requires ' ' !in version && '\n' !in version && '\n' !in status
    requires (forall j :: 0 <= j < |fs| ==> PlainField(fs[j])) && OneLength(fs, i, |body|)
    requires p < Block([StatusLine(version, status)] + FieldLines(fs)) + (CRLF + body) && ReadAs(p, r, content, wire)
    ensures r == if |p| < |Block([StatusLine(version, status)] + FieldLines(fs))| + 2 then Lost
                 else Ended(C.Failure, Response(version, status, fs))
  {
    hide ParseResponse, Readable, FindText, PlainField, MayFrame, OneLength, Block, FieldLines, StatusLine;
    var header := Block([StatusLine(version, status)] + FieldLines(fs));
    HeaderRoundTrip(version, status, fs, body);
    if |p| < |header| + 2 {
      HeaderCutShort(header + (CRLF + body), p);
    } else {
      var part := p[|header| + 2..];
      assert p == header + (CRLF + part) by { CutBehind(header, body, p); }
      HeaderRoundTrip(version, status, fs, part);
      var q := Response(version, status, fs);
      var f :| MayFrame(q, f) && ReadWith(p, FindText(p, BLANK_LINE, 0), part, f, r.end, content, wire);
      CountedOnly(q, i, |body|, f);
    }
  }

  /** The strings agree up to `k`, where the first one ends or is smaller. */
  ghost predicate SmallerAt(a: string, b: string, k: nat) {
    k <= |a| && k < |b| && a[..k] == b[..k] && (k == |a| || a[k] < b[k])
  }

  lemma SmallerLater(a: string, b: string, k: nat)
    requires a != "" && b != ""
    ensures SmallerAt(a, b, k + 1) <==> a[0] == b[0] && SmallerAt(a[1..], b[1..], k)
    ensures SmallerAt(a, b, 0) <==> a[0] < b[0]
  {
    if k + 1 <= |a| && k + 1 < |b| {
      assert a[..k + 1] == [a[0]] + a[1..][..k] && b[..k + 1] == [b[0]] + b[1..][..k];
      assert a[..k + 1][0] == a[0] && b[..k + 1][0] == b[0];
      assert a[..k + 1][1..] == a[1..][..k] && b[..k + 1][1..] == b[1..][..k];
    }
  }

  /** Strings are compared at the first position where they differ. */
  lemma {:induction false} LexLessExactly(a: string, b: string)
    ensures LexLess(a, b) <==> exists k: nat :: SmallerAt(a, b, k)
  {
    if a == "" && b != "" {
      assert SmallerAt(a, b, 0);
    } else if b != "" {
      hide SmallerAt;
      LexLessExactly(a[1..], b[1..]);
      SmallerLater(a, b, 0);
      if exists k: nat :: SmallerAt(a, b, k) {
        var k: nat :| SmallerAt(a, b, k);
        if k > 0 {
          SmallerLater(a, b, k - 1);
        }
      }
      if exists k: nat :: SmallerAt(a[1..], b[1..], k) {
        var k: nat :| SmallerAt(a[1..], b[1..], k);
        SmallerLater(a, b, k);
      }
    }
  }

  /** A response without a length and without chunks is read until the connection closes when its
      version is below 1.1 or it says so; its content is all that follows the header. */
  lemma ReadUntilClosed(version: string, status: string, fs: seq<Field>, t: string, r: Reading, content: string, wire: string)
    requires ' ' !in version && '\n' !in version && '\n' !in status
    requires (forall j :: 0 <= j < |fs| ==> PlainField(fs[j])) && !HasField(fs, "Content-Length") && NotChunked(fs)
    requires LexLess(version, "1.1")
          || (HasField(fs, "Session") && forall j :: 0 <= j < |fs| && SameName(fs[j].name, "Session") ==> fs[j].value == "close")
    requires ReadAs(Block([StatusLine(version, status)] + FieldLines(fs)) + (CRLF + t), r, content, wire)
    ensures r == Ended(C.Success, Response(version, status, fs)) && content == t && wire == ""
  {
    hide ParseResponse, Readable, FindText, PlainField, MayFrame, Block, FieldLines, StatusLine, LexLess, HasField, NotChunked, SameName;
    var q := Response(version, status, fs);
    var s := Block([StatusLine(version, status)] + FieldLines(fs)) + (CRLF + t);
    HeaderRoundTrip(version, status, fs, t);
    var f :| MayFrame(q, f) && ReadWith(s, FindText(s, BLANK_LINE, 0), t, f, r.end, content, wire);
    ClosesOnly(q, f);
  }

  lemma ClosesOnly(r: Response, f: Framing)
    requires !HasField(r.fields, "Content-Length") && NotChunked(r.fields) && MayFrame(r, f)
    requires LexLess(r.version, "1.1")
          || (HasField(r.fields, "Session")
              && forall j :: 0 <= j < |r.fields| && SameName(r.fields[j].name, "Session") ==> r.fields[j].value == "close")
    ensures f == UntilClosed
  {
    hide LexLess, SameName, Announces;
    var l :| Announces(r.fields, l) && FramedBy(r, l, f);
    NoLengthAnnounced(r.fields, l);
  }

  /** Version 1.0 is below 1.1, which is not. */
  lemma OldVersion()
    ensures LexLess("1.0", "1.1") && !LexLess("1.1", "1.1")
  {
    LexLessExactly("1.0", "1.1");
    LexLessExactly("1.1", "1.1");
    assert SmallerAt("1.0", "1.1", 2);
  }
}
