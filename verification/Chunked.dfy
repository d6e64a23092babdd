/** The client's decoder for the chunked transfer coding (RFC 7230, section 4.1), which works on a
    buffer that fills as bytes arrive, and what it makes of the whole stream. */
module Chunked {
  import opened Sequences
  import opened Text
  import opened Numerals
  import opened ByteStream

  datatype Option<T> = None | Some(value: T)

  /** `stol(s, 0, 16)`; None where it throws. */
  function Stol16(s: string): (r: Option<int>)
    ensures r.Some? ==> -(LONG_MAX as int) - 1 <= r.value <= LONG_MAX
  {
    var n := Scan(s, 16);
    if !n.found then None
    else if n.negative then (if n.magnitude > LONG_MAX + 1 then None else Some(0 - n.magnitude))
    else if n.magnitude > LONG_MAX then None
    else Some(n.magnitude)
  }

  /** What a stream decodes to: the body and what follows it; or a negative length was met after
      `content`, with `rest` behind its line, of which `bare` bytes lie before the end that was
      waited for; or the end of the stream came too early; or reading a length threw; or the code's
      behaviour is undefined (a line without a character to drop, a length whose sum with 2
      overflows). */
  datatype Decoded =
    | Body(content: string, rest: string)
    | Negative(content: string, rest: string, bare: nat, length: int)
    | TooShort
    | BadLength
    | Undefined

  /** The text up to the first newline, what follows it, and how much of that lies before the end
      of the CRLF that was waited for. */
  datatype Line = Line(text: string, rest: string, bare: nat)

  function FirstLine(s: string): (r: Option<Line>)
    ensures r.Some? ==> |r.value.rest| < |s| && r.value.bare <= |r.value.rest|
  {
    var p := FindText(s, CRLF, 0);
    if p < 0 then None
    else
      CrlfEndsLine(s);
      var nl := Find(s, '\n', 0);
      Some(Line(s[..nl], s[nl + 1..], p + 1 - nl))
  }

  function Decode(s: string): Decoded
    decreases |s|
  {
    match FirstLine(s)
    case None => TooShort
    case Some(line) =>
      if line.text == "" then Undefined
      else
        match Stol16(line.text[..|line.text| - 1])
        case None => BadLength
        case Some(length) =>
          if length < 0 then Negative("", line.rest, line.bare, length)
          else if length > LONG_MAX - 2 then Undefined
          else DecodeData(line.rest, line.bare, length)
  }

  /** After a length line: `bare` bytes lie between it and the line end that was waited for. */
  function DecodeData(s: string, bare: nat, length: nat): Decoded
    decreases |s|
  {
    if |s| < bare + 2 + length then TooShort
    else if length == 0 then Body("", s[2..])
    else Prepend(s[..length], Decode(s[length + 2..]))
  }

  function Prepend(data: string, d: Decoded): Decoded {
    match d
    case Body(content, rest) => Body(data + content, rest)
    case Negative(content, rest, bare, length) => Negative(data + content, rest, bare, length)
    case other => other
  }

  /** The line end that is waited for ends with a newline; an earlier one may stand alone. */
  lemma CrlfEndsLine(s: string)
    requires FindText(s, CRLF, 0) >= 0
    ensures 0 <= Find(s, '\n', 0) <= FindText(s, CRLF, 0) + 1 < |s|
  {
    var p := FindText(s, CRLF, 0);
    assert s[p..p + 2][1] == '\n';
  }

  // ---------------------------------------------------------------- the decoder

  /** How a call ends: the callback without or with an error, or an exception through the event loop. */
  datatype Ending = Success | Failure | Exception | Unspecified

  /** How much of `rest` may have been received when the end of the body, or the negative length,
      is met. */
  ghost predicate Arrived(d: Decoded, k: nat) {
    match d
    case Body(_, rest) => k <= |rest|
    case Negative(_, rest, bare, _) => bare <= k <= |rest|
    case _ => true
  }

  /** What is read on after a negative length: one byte at most. */
  function Missing(bare: nat, length: int, k: nat): nat
    requires length < 0 && bare <= k
  {
    if 2 + length > k - bare then 2 + length - (k - bare) else 0
  }

  /** The two characters dropped after a negative length are whatever has been received, if
      anything has. */
  function DropTwo(content: string): string {
    content[if |content| < 2 then |content| else 2..]
  }

  /** The content of the response when `k` bytes of the rest had been received, `tmp` having been
      decoded before; None where the callback gets an error instead. */
  function Content(d: Decoded, tmp: string, k: nat): Option<string>
    requires Placed(d) && Arrived(d, k)
  {
    match d
    case Body(content, rest) => Some(rest[..k] + (tmp + content))
    case Negative(content, rest, bare, length) =>
      var n := k + Missing(bare, length, k);
      if n > |rest| then None else Some(DropTwo(rest[..n]) + (tmp + content))
    case _ => None
  }

  predicate Placed(d: Decoded) {
    d.Negative? ==> d.length < 0 && d.bare <= |d.rest|
  }

  lemma {:induction false} DecodePlaces(s: string)
    ensures Placed(Decode(s))
    decreases |s|, 1
  {
    hide FirstLine, Stol16, DecodeData, Prepend;
    var line := FirstLine(s);
    if line.Some? && line.value.text != "" {
      var length := Stol16(line.value.text[..|line.value.text| - 1]);
      if length.Some? && length.value >= 0 {
        DataPlaces(line.value.rest, line.value.bare, length.value);
      }
    }
  }

  lemma {:induction false} DataPlaces(s: string, bare: nat, length: nat)
    ensures Placed(DecodeData(s, bare, length))
    decreases |s|, 2
  {
    hide Decode;
    if |s| >= bare + 2 + length && length > 0 {
      DecodePlaces(s[length + 2..]);
    }
  }

  /** The outcome a reader must have of a stream that decodes to `d`, `tmp` having been decoded
      before it and `k` bytes of the rest having been received by then. */
  ghost predicate Ends(d: Decoded, tmp: string, k: nat, end: Ending, content: string, wire: string) {
    Placed(d) && Arrived(d, k) &&
    match d
    case Body(_, rest) => end == Success && Content(d, tmp, k) == Some(content) && wire == rest[k..]
    case Negative(_, rest, bare, length) =>
      if Content(d, tmp, k) == None then end == Failure
      else end == Success && Content(d, tmp, k) == Some(content) && wire == rest[k + Missing(bare, length, k)..]
    case TooShort => end == Failure
    case BadLength => end == Exception
    case Undefined => end == Unspecified
  }

  ghost predicate Outcome(s: string, tmp: string, k: nat, end: Ending, content: string, wire: string) {
    Ends(Decode(s), tmp, k, end, content, wire)
  }

  lemma NoLine(s: string)
    requires FirstLine(s) == None
    ensures Decode(s) == TooShort
  {
    hide FirstLine, Stol16, DecodeData;
  }

  lemma DecodeLine(s: string)
    requires FirstLine(s).Some?
    ensures var line := FirstLine(s).value;
      if line.text == "" then Decode(s) == Undefined
      else
        match Stol16(line.text[..|line.text| - 1])
        case None => Decode(s) == BadLength
        case Some(n) =>
          && (n < 0 ==> Decode(s) == Negative("", line.rest, line.bare, n))
          && (n > LONG_MAX - 2 ==> Decode(s) == Undefined)
          && (0 <= n <= LONG_MAX - 2 ==> Decode(s) == DecodeData(line.rest, line.bare, n))
  {
    hide FirstLine, Stol16, DecodeData;
  }

  /** The line that `getline` takes from the buffer is the one the whole stream starts with. */
  lemma LineReceived(content: string, wire: string, p: nat)
    requires FindText(content + wire, CRLF, 0) == p && p + 2 <= |content|
    ensures var nl, line := Find(content, '\n', 0), FirstLine(content + wire);
      && 0 <= nl <= p + 1 && line.Some?
      && line.value == Line(content[..nl], content[nl + 1..] + wire, p + 1 - nl)
  {
    var s := content + wire;
    CrlfEndsLine(s);
    var nl := Find(s, '\n', 0);
    assert s[nl] == content[nl];
    assert forall i :: 0 <= i < nl ==> content[i] == s[i];
    assert s[..nl] == content[..nl] && s[nl + 1..] == content[nl + 1..] + wire;
  }

  lemma Ahead(content: string, wire: string, n: nat)
    requires n <= |content|
    ensures content[..n] == (content + wire)[..n] && content[n..] + wire == (content + wire)[n..]
  {
  }

  lemma BodyHeld(content: string, wire: string, tmp: string)
    ensures Ends(Body("", content + wire), tmp, |content|, Success, content + tmp, wire)
  {
    var rest := content + wire;
    assert rest[..|content|] == content && rest[|content|..] == wire && tmp + "" == tmp;
  }

  /** What is decoded before a chunk goes in front of what it starts with. */
  lemma ChunkHeld(d: Decoded, data: string, tmp: string, k: nat, end: Ending, content: string, wire: string)
    requires Ends(d, tmp + data, k, end, content, wire)
    ensures Ends(Prepend(data, d), tmp, k, end, content, wire)
  {
    if d.Body? || d.Negative? {
      assert (tmp + data) + d.content == tmp + (data + d.content);
    }
  }

  /** `post_process`, up to the next chunk: the data of this one, without the line end after it. */
  method TakeChunk(b: Buffer, length: nat) returns (data: string)
    requires length + 2 <= |b.content|
    modifies b
    ensures data == old(b.Stream())[..length] && b.Stream() == old(b.Stream())[length + 2..]
  {
    Ahead(b.content, b.wire, length);
    Ahead(b.content, b.wire, length + 2);
    data := "";
    if length > 0 {
      data := b.Take(length);
    }
    b.Skip();
    b.Skip();
  }

  /** `read_chunked`: however the stream arrives, the outcome is the one `Decode` gives for it, of
      which only the bytes received beyond the end may differ; `received` says how many these were.
      With a negative length line in the buffer it is what the buffer holds behind the line. */
  method ReadChunked(b: Buffer, tmp: string) returns (end: Ending, ghost received: nat)
    modifies b
    ensures Outcome(old(b.Stream()), tmp, received, end, b.content, b.wire)
    ensures FindText(old(b.content), CRLF, 0) >= 0 && NegativeFirst(old(b.Stream())) ==>
      received == old(|b.content|) - (old(|b.Stream()|) - |Decode(old(b.Stream())).rest|)
    decreases |b.content| + |b.wire|
  {
    hide Decode, DecodeData, Stol16, FirstLine, FindText, Ends;
    ghost var s := b.Stream();
    received := 0;
    var ok, n := b.ReadUntil(CRLF);
    if !ok {
      FirstLineFound(s);
      NoLine(s);
      PlainEnds(tmp, b.content, b.wire);
      return Failure, received;
    }
    LineReceived(b.content, b.wire, n - 2);
    DecodeLine(s);
    var line := b.GetLine();
    assert b.Stream() == FirstLine(s).value.rest;
    var bare := n - (|line| + 1);
    PlainEnds(tmp, b.content, b.wire);
    if line == "" {
      return Unspecified, received;
    }
    var length := Stol16(line[..|line| - 1]);
    if length == None {
      return Exception, received;
    }
    if length.value < 0 {
      received := |b.content|;
      end := FinishNegative(b, tmp, length.value, bare);
      return;
    }
    if length.value > LONG_MAX - 2 {
      return Unspecified, received;
    }
    end, received := ReadData(b, tmp, length.value, bare);
    NotNegativeFirst(s);
  }

  /** The stream starts with a readable negative length. */
  ghost predicate NegativeFirst(s: string) {
    var line := FirstLine(s);
    && line.Some? && line.value.text != ""
    && var length := Stol16(line.value.text[..|line.value.text| - 1]);
       length.Some? && length.value < 0
  }

  lemma NotNegativeFirst(s: string)
    ensures NegativeFirst(s) ==> Decode(s).Negative?
    ensures var line := FirstLine(s);
      (line.Some? && line.value.text != "" && Stol16(line.value.text[..|line.value.text| - 1]).Some?
       && Stol16(line.value.text[..|line.value.text| - 1]).value >= 0) ==> !NegativeFirst(s)
  {
    hide FirstLine, Stol16, DecodeData;
  }

  lemma PlainEnds(tmp: string, content: string, wire: string)
    ensures Ends(TooShort, tmp, 0, Failure, content, wire)
    ensures Ends(BadLength, tmp, 0, Exception, content, wire)
    ensures Ends(Undefined, tmp, 0, Unspecified, content, wire)
  {
  }

  lemma FirstLineFound(s: string)
    ensures FirstLine(s).Some? <==> FindText(s, CRLF, 0) >= 0
  {
  }

  /** A negative length ends the response at once: what is missing of its two bytes is read, then
      two are dropped from what had been received. */
  method FinishNegative(b: Buffer, tmp: string, length: int, bare: nat) returns (end: Ending)
    requires length < 0 && bare <= |b.content|
    modifies b
    ensures Ends(Negative("", old(b.Stream()), bare, length), tmp, old(|b.content|), end, b.content, b.wire)
  {
    ghost var s, k := b.Stream(), |b.content|;
    var additional := |b.content| - bare;
    if 2 + length > additional {
      var ok := b.ReadExactly(2 + length - additional);
      if !ok {
        return Failure;
      }
    }
    Ahead(b.content, b.wire, |b.content|);
    b.Skip();
    b.Skip();
    assert tmp + "" == tmp;
    b.content := b.content + tmp;
    return Success;
  }

  method ReadData(b: Buffer, tmp: string, length: nat, bare: nat) returns (end: Ending, ghost received: nat)
    requires bare <= |b.content|
    modifies b
    ensures Ends(DecodeData(old(b.Stream()), bare, length), tmp, received, end, b.content, b.wire)
    decreases |b.content| + |b.wire|
  {
    hide Decode, Ends, Prepend;
    ghost var s := b.Stream();
    received := 0;
    var additional := |b.content| - bare;
    if 2 + length > additional {
      var ok := b.ReadExactly(2 + length - additional);
      if !ok {
        PlainEnds(tmp, b.content, b.wire);
        return Failure, received;
      }
    }
    var data := TakeChunk(b, length);
    if length > 0 {
      end, received := ReadChunked(b, tmp + data);
      ChunkHeld(Decode(s[length + 2..]), data, tmp, received, end, b.content, b.wire);
    } else {
      received := |b.content|;
      BodyHeld(b.content, b.wire, tmp);
      b.content := b.content + tmp;
      end := Success;
    }
  }

  // ---------------------------------------------------------------- where the arrival shows

  /** The bytes behind the end are in the content or not, as they arrived: for a body there must be
      none; after a negative length no more than are dropped, or than were waited for anyway. */
  predicate Settled(d: Decoded) {
    match d
    case Body(_, rest) => rest == ""
    case Negative(_, rest, bare, length) => |rest| <= 2 || |rest| <= (if length == -1 then bare + 1 else bare)
    case _ => true
  }

  lemma DroppedLength(d: Decoded, tmp: string, k: nat)
    requires d.Negative? && Placed(d) && Arrived(d, k)
    ensures var n := k + Missing(d.bare, d.length, k);
      && (Content(d, tmp, k) == None <==> n > |d.rest|)
      && (n <= |d.rest| ==> |Content(d, tmp, k).value| == (if n < 2 then 0 else n - 2) + |tmp| + |d.content|)
      && (n == |d.rest| ==> Content(d, tmp, k) == Some(DropTwo(d.rest) + (tmp + d.content)))
  {
    assert d.rest[..|d.rest|] == d.rest;
  }

  lemma ShortDropped(d: Decoded, tmp: string, k: nat)
    requires d.Negative? && Placed(d) && Arrived(d, k) && |d.rest| <= 2
    ensures Content(d, tmp, k).Some? ==> Content(d, tmp, k) == Some(tmp + d.content)
  {
    var n := k + Missing(d.bare, d.length, k);
    if n <= |d.rest| {
      assert DropTwo(d.rest[..n]) == "";
      assert "" + (tmp + d.content) == tmp + d.content;
    }
  }

  /** The content is the same for every arrival exactly when the stream is settled. */
  lemma SameForEveryArrival(d: Decoded, tmp: string)
    requires Placed(d)
    ensures (forall i: nat, j: nat :: Arrived(d, i) && Arrived(d, j) ==> Content(d, tmp, i) == Content(d, tmp, j))
       <==> Settled(d)
  {
    match d
    case Body(content, rest) =>
      assert Arrived(d, 0) && Arrived(d, |rest|);
      assert |Content(d, tmp, |rest|).value| == |Content(d, tmp, 0).value| + |rest|;
    case Negative(content, rest, bare, length) =>
      NegativeArrivals(d, tmp);
    case _ =>
  }

  lemma NegativeArrivals(d: Decoded, tmp: string)
    requires d.Negative? && Placed(d)
    ensures (forall i: nat, j: nat :: Arrived(d, i) && Arrived(d, j) ==> Content(d, tmp, i) == Content(d, tmp, j))
       <==> Settled(d)
  {
    hide Content;
    assert Arrived(d, d.bare) && Arrived(d, |d.rest|);
    DroppedLength(d, tmp, d.bare);
    DroppedLength(d, tmp, |d.rest|);
    if Settled(d) {
      forall i: nat, j: nat | Arrived(d, i) && Arrived(d, j)
        ensures Content(d, tmp, i) == Content(d, tmp, j)
      {
        DroppedLength(d, tmp, i);
        DroppedLength(d, tmp, j);
        if |d.rest| <= 2 {
          ShortDropped(d, tmp, i);
          ShortDropped(d, tmp, j);
        }
      }
    }
  }

  /** Stated for streams. */
  lemma ContentIndependentOfArrival(s: string, tmp: string)
    ensures Placed(Decode(s))
    ensures (forall i: nat, j: nat :: Arrived(Decode(s), i) && Arrived(Decode(s), j) ==>
              Content(Decode(s), tmp, i) == Content(Decode(s), tmp, j))
       <==> Settled(Decode(s))
  {
    hide Decode, Content, Arrived, Settled;
    DecodePlaces(s);
    SameForEveryArrival(Decode(s), tmp);
  }

  // ---------------------------------------------------------------- what a server sends

  /** A chunk of RFC 7230: hexadecimal digits of either case with any leading zeros, optionally
      extensions, the data. */
  datatype Chunk = Chunk(size: string, extension: string, data: string)

  ghost predicate WellFormed(c: Chunk) {
    && c.size != "" && AllDigits(c.size, 16) && ReadDigits(c.size, 16, 0) == |c.data| <= LONG_MAX - 2
    && (c.extension == "" || c.extension[0] == ';' || c.extension[0] == ' ' || c.extension[0] == '\t')
    && '\r' !in c.extension && '\n' !in c.extension
  }

  function Encode(c: Chunk): string {
    (c.size + c.extension) + CRLF + c.data + CRLF
  }

  function EncodeAll(cs: seq<Chunk>): string {
    if cs == [] then "" else Encode(cs[0]) + EncodeAll(cs[1..])
  }

  function Payload(cs: seq<Chunk>): string {
    if cs == [] then "" else cs[0].data + Payload(cs[1..])
  }

  /** The first CRLF after a text without line ends. */
  lemma FirstCrlf(text: string, t: string)
    requires '\r' !in text && '\n' !in text
    ensures FirstLine(text + CRLF + t) == Some(Line(text + "\r", t, 0))
  {
    var s := text + CRLF + t;
    var n := |text|;
    assert s[n] == '\r' && s[n + 1] == '\n';
    assert s[n..n + 2] == CRLF;
    forall q | 0 <= q < n
      ensures !At(s, CRLF, q) && s[q] != '\n'
    {
      assert s[q] == text[q];
      assert s[q..q + 2][0] == s[q];
    }
    FirstAt(s, CRLF, n);
    assert '\n' !in s[0..n + 1];
    FindAt(s, '\n', 0, n + 1);
    assert s[..n + 1] == text + "\r" && s[n + 2..] == t;
  }

  lemma NoLineEnds(size: string)
    requires AllDigits(size, 16)
    ensures '\r' !in size && '\n' !in size
  {
    assert DigitValue('\r') == 16 && DigitValue('\n') == 16;
  }

  lemma SizeRead(c: Chunk)
    requires WellFormed(c)
    ensures Stol16(c.size + c.extension) == Some(|c.data|)
  {
    hide ReadDigits;
    ScanDigits(c.size, c.extension, 16);
  }

  lemma DecodeEncoded(c: Chunk, t: string)
    requires WellFormed(c)
    ensures Decode(Encode(c) + t) == DecodeData(c.data + CRLF + t, 0, |c.data|)
  {
    hide Decode, DecodeData, Stol16, FirstLine, ReadDigits;
    var text := c.size + c.extension;
    NoLineEnds(c.size);
    Associate(text + CRLF, c.data, CRLF, t);
    FirstCrlf(text, c.data + CRLF + t);
    SizeRead(c);
    assert (text + "\r")[..|text + "\r"| - 1] == text;
    DecodeLine(Encode(c) + t);
  }

  lemma DataTaken(data: string, t: string)
    requires data != ""
    ensures DecodeData(data + CRLF + t, 0, |data|) == Prepend(data, Decode(t))
  {
    hide Decode;
    var s := data + CRLF + t;
    Middle(data, CRLF, t);
    assert s[..|data|] == data && s[|data| + 2..] == t;
  }

  lemma LastTaken(t: string)
    ensures DecodeData("" + CRLF + t, 0, 0) == Body("", t)
  {
    assert ("" + CRLF + t)[2..] == t;
  }

  /** Decoding a chunked body, however it was cut into chunks, gives the data in order and stops
      right behind it. */
  lemma {:induction false} DecodeInvertsEncode(cs: seq<Chunk>, last: Chunk, t: string)
    requires forall i :: 0 <= i < |cs| ==> WellFormed(cs[i]) && cs[i].data != ""
    requires WellFormed(last) && last.data == ""
    ensures Decode(EncodeAll(cs) + Encode(last) + t) == Body(Payload(cs), t)
  {
    hide Decode, DecodeData, Encode, WellFormed;
    if cs == [] {
      assert EncodeAll(cs) + Encode(last) + t == Encode(last) + t;
      DecodeEncoded(last, t);
      LastTaken(t);
    } else {
      var more := EncodeAll(cs[1..]) + Encode(last) + t;
      DecodeInvertsEncode(cs[1..], last, t);
      assert EncodeAll(cs) + Encode(last) + t == Encode(cs[0]) + more;
      DecodeEncoded(cs[0], more);
      DataTaken(cs[0].data, more);
    }
  }

  /** A response that was sent in chunks, and nothing after it: whatever arrives when, a reader
      with the outcome of `ReadChunked` ends up with exactly the data in its buffer. */
  lemma ArrivalDoesNotMatter(cs: seq<Chunk>, last: Chunk, k: nat, end: Ending, content: string, wire: string)
    requires forall i :: 0 <= i < |cs| ==> WellFormed(cs[i]) && cs[i].data != ""
    requires WellFormed(last) && last.data == ""
    requires Outcome(EncodeAll(cs) + Encode(last), "", k, end, content, wire)
    ensures end == Success && content == Payload(cs) && wire == ""
  {
    hide Decode, WellFormed, EncodeAll, Encode, Payload;
    DecodeInvertsEncode(cs, last, "");
    assert EncodeAll(cs) + Encode(last) + "" == EncodeAll(cs) + Encode(last);
    OnlyTheBody(Payload(cs), k, end, content, wire);
  }

  lemma OnlyTheBody(body: string, k: nat, end: Ending, content: string, wire: string)
    requires Ends(Body(body, ""), "", k, end, content, wire)
    ensures end == Success && content == body && wire == ""
  {
    assert "" + ("" + body) == body;
  }

  // ---------------------------------------------------------------- a stream that is not settled

  lemma NegativeRead(n: nat)
    requires 0 < n <= LONG_MAX + 1
    ensures Stol16("-" + Print(n, 16)) == Some(0 - n)
  {
    hide Scan, Print;
    ScanNegative(n, 16);
  }

  lemma NegativeDecoded(n: nat, rest: string)
    requires 0 < n <= LONG_MAX + 1
    ensures Decode("-" + Print(n, 16) + CRLF + rest) == Negative("", rest, 0, 0 - n)
    ensures NegativeFirst("-" + Print(n, 16) + CRLF + rest)
  {
    hide Decode, Stol16, FirstLine, Print, DecodeData;
    var text := "-" + Print(n, 16);
    NoLineEnds(Print(n, 16));
    FirstCrlf(text, rest);
    NegativeRead(n);
    assert (text + "\r")[..|text|] == text;
    DecodeLine(text + CRLF + rest);
  }

  /** A stream that starts with a negative length line: when only the line had been received the
      content is what was decoded before, when everything had been received the bytes behind the
      line are in it too, but for the first two. */
  lemma NegativeDependsOnArrival(n: nat, rest: string, tmp: string)
    requires 2 <= n <= LONG_MAX + 1
    ensures var d := Decode("-" + Print(n, 16) + CRLF + rest);
      && d == Negative("", rest, 0, 0 - n)
      && Content(d, tmp, 0) == Some(tmp)
      && Content(d, tmp, |rest|) == Some(DropTwo(rest) + tmp)
      && (Content(d, tmp, 0) != Content(d, tmp, |rest|) <==> |rest| > 2)
  {
    hide Decode, Print, Content;
    NegativeDecoded(n, rest);
    NothingReceived(n, rest, tmp);
    EverythingReceived(n, rest, tmp);
  }

  lemma NothingReceived(n: nat, rest: string, tmp: string)
    requires n >= 2
    ensures Content(Negative("", rest, 0, 0 - n), tmp, 0) == Some(tmp)
  {
    assert DropTwo(rest[..0]) == "";
    assert tmp + "" == tmp && "" + tmp == tmp;
  }

  lemma EverythingReceived(n: nat, rest: string, tmp: string)
    requires n >= 2
    ensures Content(Negative("", rest, 0, 0 - n), tmp, |rest|) == Some(DropTwo(rest) + tmp)
    ensures tmp != DropTwo(rest) + tmp <==> |rest| > 2
  {
    assert tmp + "" == tmp && rest[..|rest|] == rest;
    assert |DropTwo(rest) + tmp| == |DropTwo(rest)| + |tmp|;
    if |rest| <= 2 {
      assert DropTwo(rest) == "" && "" + tmp == tmp;
    }
  }

  // ---------------------------------------------------------------- streams that are cut short

  /** Nothing that lies before the end of a line's CRLF holds it. */
  lemma NoCrlfYet(text: string, p: string)
    requires '\r' !in text && '\n' !in text && p <= text + "\r"
    ensures FirstLine(p) == None
  {
    forall q | 0 <= q && q + 2 <= |p|
      ensures !At(p, CRLF, q)
    {
      assert p[q..q + 2][1] == p[q + 1];
      assert (text + "\r")[q + 1] == p[q + 1];
    }
  }

  lemma CutData(q: string, data: string)
    requires |q| < |data| + 2
    ensures DecodeData(q, 0, |data|) == TooShort
  {
  }

  /** The end of the stream inside a chunk. */
  lemma CutInChunk(c: Chunk, p: string)
    requires WellFormed(c) && p < Encode(c)
    ensures Decode(p) == TooShort
  {
    hide Decode, DecodeData, Stol16, FirstLine, ReadDigits;
    var text := c.size + c.extension;
    NoLineEnds(c.size);
    Associate(text, CRLF, c.data, CRLF);
    if |p| < |text| + 2 {
      PrefixOfBoth(p, text + "\r", "\n" + c.data + CRLF);
      assert text + CRLF + c.data + CRLF == (text + "\r") + ("\n" + c.data + CRLF);
      NoCrlfYet(text, p);
      NoLine(p);
    } else {
      assert Encode(c) == (text + CRLF) + (c.data + CRLF);
      PrefixSplit(p, text + CRLF, c.data + CRLF);
      var q := p[|text + CRLF|..];
      FirstCrlf(text, q);
      SizeRead(c);
      assert (text + "\r")[..|text + "\r"| - 1] == text;
      DecodeLine(p);
      CutData(q, c.data);
    }
  }

  lemma PrefixOfBoth(p: string, a: string, b: string)
    ensures p <= a + b && |p| <= |a| ==> p <= a
  {
  }

  /** A chunked body of which any part at the end is missing is never taken for a whole one. */
  lemma {:induction false} CutShort(cs: seq<Chunk>, last: Chunk, p: string)
    requires forall i :: 0 <= i < |cs| ==> WellFormed(cs[i]) && cs[i].data != ""
    requires WellFormed(last) && last.data == ""
    requires p < EncodeAll(cs) + Encode(last)
    ensures Decode(p) == TooShort
    decreases |cs|
  {
    hide Decode, DecodeData, Encode, WellFormed;
    if cs == [] {
      assert EncodeAll(cs) + Encode(last) == Encode(last);
      CutInChunk(last, p);
    } else {
      var first, more := Encode(cs[0]), EncodeAll(cs[1..]) + Encode(last);
      assert EncodeAll(cs) + Encode(last) == first + more;
      if |p| < |first| {
        PrefixOfBoth(p, first, more);
        CutInChunk(cs[0], p);
      } else {
        PrefixSplit(p, first, more);
        var rest := p[|first|..];
        CutShort(cs[1..], last, rest);
        DecodeEncoded(cs[0], rest);
        DataTaken(cs[0].data, rest);
      }
    }
  }

  /** So a connection that is lost before the end of the last chunk is an error for the callback,
      wherever it is lost and however the bytes before arrived. */
  lemma LostConnectionFails(cs: seq<Chunk>, last: Chunk, p: string, tmp: string, k: nat, end: Ending, content: string, wire: string)
    requires forall i :: 0 <= i < |cs| ==> WellFormed(cs[i]) && cs[i].data != ""
    requires WellFormed(last) && last.data == ""
    requires p < EncodeAll(cs) + Encode(last) && Outcome(p, tmp, k, end, content, wire)
    ensures end == Failure
  {
    hide Decode, WellFormed, EncodeAll, Encode;
    CutShort(cs, last, p);
  }

  // ---------------------------------------------------------------- lengths that cannot be read

  /** A length line throws when it starts with something that is no digit, blank or sign, or when its
      digits make a number that does not fit. */
  lemma BadLengthThrows(text: string, t: string)
    requires text != "" && '\r' !in text && '\n' !in text
    requires (DigitValue(text[0]) == 16 && !IsSpace(text[0]) && text[0] != '-' && text[0] != '+')
          || (AllDigits(text, 16) && ReadDigits(text, 16, 0) > LONG_MAX)
    ensures Decode(text + CRLF + t) == BadLength
  {
    hide Decode, FirstLine, ReadDigits, DecodeData;
    FirstCrlf(text, t);
    if AllDigits(text, 16) {
      ScanDigits(text, "", 16);
      assert text + "" == text;
    }
    assert (text + "\r")[..|text|] == text;
    DecodeLine(text + CRLF + t);
  }
}
