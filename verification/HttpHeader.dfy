/** The header block that HTTP requests and responses share: lines of text ended by CRLF, then an
    empty line; and the loop that both the client and the server read its fields with. */
module HttpHeader {
  import opened Sequences
  import opened Text
  import opened Numerals
  import opened ByteStream

  datatype Field = Field(name: string, value: string)

  // ---------------------------------------------------------------- printing

  function FieldLine(f: Field): string {
    f.name + ": " + f.value
  }

  function FieldLines(fs: seq<Field>): (r: seq<string>)
    ensures |r| == |fs|
  {
    if fs == [] then [] else [FieldLine(fs[0])] + FieldLines(fs[1..])
  }

  function Block(lines: seq<string>): string {
    if lines == [] then "" else lines[0] + CRLF + Block(lines[1..])
  }

  ghost predicate PlainLine(line: string) {
    line != "" && '\n' !in line
  }

  /** A field that can be read back. A carriage return does no harm. */
  ghost predicate PlainField(f: Field) {
    ':' !in f.name && '\n' !in f.name && '\n' !in f.value
  }

  // ---------------------------------------------------------------- parsing

  /** One header line, whose last character is dropped: nothing if only a blank follows the colon. */
  function FieldOf(line: string): seq<Field>
    requires Find(line, ':', 0) >= 0
  {
    var e := Find(line, ':', 0);
    var start := if e + 1 < |line| && line[e + 1] == ' ' then e + 2 else e + 1;
    if start < |line| then [Field(line[..e], line[start..|line| - 1])] else []
  }

  /** Reading line by line meets one without a colon. */
  ghost predicate Terminated(s: string)
    decreases |s|
  {
    var nl := Find(s, '\n', 0);
    nl >= 0 && (Find(s[..nl], ':', 0) < 0 || Terminated(s[nl + 1..]))
  }

  datatype Parsed = Parsed(fields: seq<Field>, rest: string)

  function ParseFields(s: string): Parsed
    requires Terminated(s)
    decreases |s|
  {
    var nl := Find(s, '\n', 0);
    if Find(s[..nl], ':', 0) < 0 then Parsed([], s[nl + 1..])
    else
      var more := ParseFields(s[nl + 1..]);
      Parsed(FieldOf(s[..nl]) + more.fields, more.rest)
  }

  lemma LineAtHead(line: string, t: string)
    requires '\n' !in line
    ensures var s := line + "\n" + t;
      Find(s, '\n', 0) == |line| && s[..|line|] == line && s[|line| + 1..] == t
  {
    var s := line + "\n" + t;
    assert s[0..|line|] == line;
    FindAt(s, '\n', 0, |line|);
  }

  lemma ParseStep(line: string, t: string)
    requires '\n' !in line
    ensures Terminated(line + "\n" + t) <==> Find(line, ':', 0) < 0 || Terminated(t)
    ensures Find(line, ':', 0) < 0 ==> ParseFields(line + "\n" + t) == Parsed([], t)
    ensures Find(line, ':', 0) >= 0 && Terminated(t) ==>
      ParseFields(line + "\n" + t) == Parsed(FieldOf(line) + ParseFields(t).fields, ParseFields(t).rest)
  {
    hide FieldOf;
    LineAtHead(line, t);
  }

  /** The text that the next `getline` takes a line from, split there. */
  lemma NextLine(s: string)
    requires Terminated(s)
    ensures var nl := Find(s, '\n', 0);
      0 <= nl < |s| && s == s[..nl] + "\n" + s[nl + 1..] && '\n' !in s[..nl]
  {
    hide Terminated, Find;
    HasLine(s);
    SplitAround(s, Find(s, '\n', 0));
  }

  lemma HasLine(s: string)
    requires Terminated(s)
    ensures Find(s, '\n', 0) >= 0
  {
  }

  /** The loop of `parse_request` and `parse_response_header` over the header lines. */
  method ReadFields(b: Buffer) returns (fields: seq<Field>)
    requires Terminated(b.content)
    modifies b`content
    ensures Parsed(fields, b.content) == ParseFields(old(b.content))
  {
    hide Terminated, ParseFields, FieldOf, Find;
    ghost var s := b.content;
    NextLine(s);
    var line := b.GetLine();
    fields := [];
    while Find(line, ':', 0) >= 0
      invariant '\n' !in line && Terminated(line + "\n" + b.content)
      invariant var more := ParseFields(line + "\n" + b.content);
        ParseFields(s) == Parsed(fields + more.fields, more.rest)
      decreases |b.content|
    {
      ParseStep(line, b.content);
      ghost var more := ParseFields(b.content);
      Regroup(fields, FieldOf(line), more.fields);
      fields := fields + FieldOf(line);
      NextLine(b.content);
      line := b.GetLine();
    }
    ParseStep(line, b.content);
    assert fields + [] == fields;
  }

  // ---------------------------------------------------------------- a block read back

  lemma FieldRead(f: Field)
    requires PlainField(f)
    ensures var line := FieldLine(f) + "\r"; Find(line, ':', 0) == |f.name| && FieldOf(line) == [f] && '\n' !in line
  {
    var line := FieldLine(f) + "\r";
    assert line == f.name + ": " + (f.value + "\r");
    var n := |f.name|;
    assert line[0..n] == f.name && line[n] == ':' && line[n + 1] == ' ';
    FindAt(line, ':', 0, n);
    assert line[..n] == f.name && line[n + 2..|line| - 1] == f.value;
  }

  lemma EmptyLineRead(t: string)
    ensures Terminated(CRLF + t) && ParseFields(CRLF + t) == Parsed([], t)
  {
    assert CRLF + t == "\r" + "\n" + t;
    ParseStep("\r", t);
  }

  lemma OneLineMore(line: string, more: string, t: string)
    ensures (line + CRLF + more) + t == (line + "\r") + "\n" + (more + t)
  {
    assert CRLF == "\r" + "\n";
  }

  /** Reading back a printed header: the same fields in the same order, nothing more consumed. */
  lemma {:induction false} FieldsRoundTrip(fs: seq<Field>, t: string)
    requires forall i :: 0 <= i < |fs| ==> PlainField(fs[i])
    ensures var s := Block(FieldLines(fs)) + (CRLF + t);
      Terminated(s) && ParseFields(s) == Parsed(fs, t)
  {
    hide Terminated, ParseFields, FieldOf, Find, FieldLine, PlainField;
    if fs == [] {
      EmptyLineRead(t);
      assert Block(FieldLines(fs)) + (CRLF + t) == CRLF + t;
    } else {
      var line := FieldLine(fs[0]);
      var more := Block(FieldLines(fs[1..]));
      FieldsRoundTrip(fs[1..], t);
      FieldRead(fs[0]);
      ParseStep(line + "\r", more + (CRLF + t));
      BlockHead(line, FieldLines(fs[1..]));
      OneLineMore(line, more, CRLF + t);
      assert [fs[0]] + fs[1..] == fs;
    }
  }

  lemma BlockHead(line: string, lines: seq<string>)
    ensures Block([line] + lines) == line + CRLF + Block(lines)
  {
    assert ([line] + lines)[1..] == lines;
  }

  // ---------------------------------------------------------------- where the block ends

  /** No empty line can be seen while a line and the start of the next one go by. */
  lemma NoBlankInLine(line: string, t: string, q: nat)
    requires '\n' !in line && q < |line| + 2
    requires |t| < 2 || t[0] != '\r' || t[1] != '\n'
    ensures !At(line + CRLF + t, BLANK_LINE, q)
  {
    var s := line + CRLF + t;
    if q + 4 <= |s| {
      var w := s[q..q + 4];
      assert w[0] == s[q] && w[1] == s[q + 1] && w[2] == s[q + 2] && w[3] == s[q + 3];
      if q < |line| {
        assert s[q + 1] == if q + 1 < |line| then line[q + 1] else '\r';
      } else if q == |line| {
        assert s[q + 2] == t[0] && s[q + 3] == t[1];
      } else {
        assert s[q] == '\n';
      }
    }
  }

  lemma AtShifted(line: string, t: string, d: string, q: nat)
    requires q >= |line| + 2
    ensures At(line + CRLF + t, d, q) <==> At(t, d, q - |line| - 2)
  {
    var s := line + CRLF + t;
    assert s[|line| + 2..] == t;
    if q + |d| <= |s| {
      assert s[q..q + |d|] == t[q - |line| - 2..q - |line| - 2 + |d|];
    }
  }

  lemma StartsPlain(lines: seq<string>, t: string)
    requires forall i :: 0 <= i < |lines| ==> PlainLine(lines[i])
    requires lines != []
    ensures var s := Block(lines) + t; |s| >= 2 && (s[0] != '\r' || s[1] != '\n')
  {
    var line := lines[0];
    var s := Block(lines) + t;
    assert s[0] == line[0];
    assert s[1] == if |line| > 1 then line[1] else '\r';
  }

  /** The first empty line of a printed block is the one that ends it. */
  lemma {:induction false} BlankEndsBlock(lines: seq<string>, t: string)
    requires lines != [] && forall i :: 0 <= i < |lines| ==> PlainLine(lines[i])
    ensures 0 <= FindText(Block(lines) + (CRLF + t), BLANK_LINE, 0) == |Block(lines)| - 2
  {
    hide PlainLine, FindText, At;
    var line, tail := lines[0], Block(lines[1..]) + (CRLF + t);
    LineIsPlain(line);
    BlockTail(line, Block(lines[1..]), CRLF + t);
    if |lines| == 1 {
      assert tail == CRLF + t;
      BlankAfterLine(line, t);
    } else {
      BlankEndsBlock(lines[1..], t);
      StartsPlain(lines[1..], CRLF + t);
      BlankAfterMore(line, tail);
    }
  }

  lemma BlockTail(line: string, more: string, t: string)
    ensures (line + CRLF + more) + t == line + CRLF + (more + t)
  {
  }

  lemma BlankThere(line: string, t: string)
    ensures At(line + CRLF + (CRLF + t), BLANK_LINE, |line|)
  {
    assert line + CRLF + (CRLF + t) == line + BLANK_LINE + t;
    Middle(line, BLANK_LINE, t);
  }

  lemma BlankAfterLine(line: string, t: string)
    requires '\n' !in line
    ensures FindText(line + CRLF + (CRLF + t), BLANK_LINE, 0) == |line|
  {
    var s := line + CRLF + (CRLF + t);
    BlankThere(line, t);
    forall q | 0 <= q < |line|
      ensures !At(s, BLANK_LINE, q)
    {
      NoBlankBefore(line, CRLF + t, q);
    }
    hide At;
    FirstAt(s, BLANK_LINE, |line|);
  }

  lemma BlankAfterMore(line: string, tail: string)
    requires '\n' !in line && FindText(tail, BLANK_LINE, 0) >= 0
    requires |tail| < 2 || tail[0] != '\r' || tail[1] != '\n'
    ensures FindText(line + CRLF + tail, BLANK_LINE, 0) == FindText(tail, BLANK_LINE, 0) + |line| + 2
  {
    hide At;
    var s, p := line + CRLF + tail, FindText(tail, BLANK_LINE, 0);
    AtShifted(line, tail, BLANK_LINE, p + |line| + 2);
    forall q | 0 <= q < p + |line| + 2
      ensures !At(s, BLANK_LINE, q)
    {
      if q < |line| + 2 {
        NoBlankInLine(line, tail, q);
      } else {
        AtShifted(line, tail, BLANK_LINE, q);
      }
    }
    FirstAt(s, BLANK_LINE, p + |line| + 2);
  }

  lemma LineIsPlain(line: string)
    requires PlainLine(line)
    ensures '\n' !in line
  {
  }

  lemma NoBlankBefore(line: string, t: string, q: nat)
    requires '\n' !in line && q < |line|
    ensures !At(line + CRLF + t, BLANK_LINE, q)
  {
    var s := line + CRLF + t;
    if q + 4 <= |s| {
      assert s[q..q + 4][1] == s[q + 1];
    }
  }

  /** A buffer that holds an empty line can be read line by line from its second line on, and no
      further than that line. */
  lemma {:induction false} BlankTerminates(s: string, p: nat)
    requires At(s, BLANK_LINE, p)
    ensures var nl := Find(s, '\n', 0);
      0 <= nl <= p + 1 && Terminated(s[nl + 1..])
      && |ParseFields(s[nl + 1..]).rest| >= |s| - p - 4
    decreases |s|
  {
    hide FieldOf, At, Find;
    BlankSplit(s, p);
    var nl := Find(s, '\n', 0);
    var rest := s[nl + 1..];
    if nl == p + 1 {
      EmptyLineRead(s[p + 4..]);
    } else {
      BlankTerminates(rest, p - nl - 1);
      NextLineBlank(rest, p - nl - 1);
    }
  }

  lemma NextLineBlank(s: string, p: nat)
    requires 0 <= Find(s, '\n', 0) <= p + 1 && p + 4 <= |s|
    requires Terminated(s[Find(s, '\n', 0) + 1..]) && |ParseFields(s[Find(s, '\n', 0) + 1..]).rest| >= |s| - p - 4
    ensures Terminated(s) && |ParseFields(s).rest| >= |s| - p - 4
  {
    hide FieldOf, Find;
  }

  lemma BlankSplit(s: string, p: nat)
    requires At(s, BLANK_LINE, p)
    ensures var nl := Find(s, '\n', 0);
      && 0 <= nl <= p + 1 && nl != p && p + 4 <= |s|
      && (nl == p + 1 ==> s[nl + 1..] == CRLF + s[p + 4..])
      && (nl < p ==> At(s[nl + 1..], BLANK_LINE, p - nl - 1))
  {
    hide At, Find;
    BlankCharacters(s, p);
    var nl := Find(s, '\n', 0);
    if nl == p + 1 {
      TwoAtHead(s, p + 2);
    } else {
      AtInTail(s, BLANK_LINE, nl + 1, p);
    }
  }

  lemma BlankCharacters(s: string, p: nat)
    requires At(s, BLANK_LINE, p)
    ensures p + 4 <= |s| && s[p] == '\r' && s[p + 1] == '\n' && s[p + 2] == '\r' && s[p + 3] == '\n'
  {
    var w := s[p..p + 4];
    assert w[0] == s[p] && w[1] == s[p + 1] && w[2] == s[p + 2] && w[3] == s[p + 3];
  }

  lemma TwoAtHead(s: string, i: nat)
    requires i + 2 <= |s| && s[i] == '\r' && s[i + 1] == '\n'
    ensures s[i..] == CRLF + s[i + 2..]
  {
  }

  lemma AtInTail(s: string, d: string, i: nat, p: nat)
    requires i <= p && At(s, d, p)
    ensures At(s[i..], d, p - i)
  {
    SliceOfSlice(s, i, |s|, p - i, p - i + |d|);
    assert s[i..|s|] == s[i..];
  }

  /** Bytes that arrive later do not change what is read. */
  lemma {:induction false} ParseFieldsEarly(a: string, b: string)
    requires Terminated(a)
    ensures Terminated(a + b) && ParseFields(a + b) == Parsed(ParseFields(a).fields, ParseFields(a).rest + b)
    decreases |a|
  {
    hide Terminated, ParseFields, FieldOf, Find;
    NextLine(a);
    var nl := Find(a, '\n', 0);
    var line, rest := a[..nl], a[nl + 1..];
    ParseStep(line, rest);
    ParseStep(line, rest + b);
    assert a + b == line + "\n" + (rest + b);
    if Find(line, ':', 0) >= 0 {
      ParseFieldsEarly(rest, b);
    }
  }

  // ---------------------------------------------------------------- looking fields up

  function Lower(c: char): char {
    if 'A' <= c <= 'Z' then (c as int + 32) as char else c
  }

  predicate SameName(a: string, b: string) {
    |a| == |b| && forall i :: 0 <= i < |a| ==> Lower(a[i]) == Lower(b[i])
  }

  predicate HasField(fs: seq<Field>, name: string) {
    exists i :: 0 <= i < |fs| && SameName(fs[i].name, name)
  }

  /** What looking a name up in a multimap may give: any field with the name in any case, or -1. */
  predicate Found(fs: seq<Field>, name: string, at: int) {
    if at == -1 then !HasField(fs, name) else 0 <= at < |fs| && SameName(fs[at].name, name)
  }

  /** `find`. */
  method Lookup(fs: seq<Field>, name: string) returns (at: int)
    ensures Found(fs, name, at)
  {
    hide SameName;
    if exists i :: 0 <= i < |fs| && SameName(fs[i].name, name) {
      at :| 0 <= at < |fs| && SameName(fs[at].name, name);
    } else {
      at := -1;
    }
  }

  datatype Length = NoLength | BadLength | Length(n: nat)

  /** A length through `stoull`, which wraps a negative number around. */
  function LengthOf(value: string): (l: Length)
    ensures l != NoLength
  {
    var n := Scan(value, 10);
    if !n.found || n.magnitude > ULONG_MAX then BadLength else Length(Strtoul(value, 10))
  }

  /** A length that the fields may be read to announce. */
  ghost predicate Announces(fs: seq<Field>, l: Length) {
    exists at :: Found(fs, "Content-Length", at) && l == if at < 0 then NoLength else LengthOf(fs[at].value)
  }

  method ReadLength(fs: seq<Field>) returns (l: Length)
    ensures Announces(fs, l)
  {
    var at := Lookup(fs, "Content-Length");
    l := if at < 0 then NoLength else LengthOf(fs[at].value);
  }

  /** Every length among the fields reads as `n`. */
  ghost predicate Agrees(fs: seq<Field>, n: nat) {
    forall i :: 0 <= i < |fs| && SameName(fs[i].name, "Content-Length") ==> LengthOf(fs[i].value) == Length(n)
  }

  lemma NoLengthAnnounced(fs: seq<Field>, l: Length)
    requires !HasField(fs, "Content-Length")
    ensures Announces(fs, l) <==> l == NoLength
  {
    hide SameName, LengthOf;
    assert Found(fs, "Content-Length", -1);
  }

  lemma AgreedLength(fs: seq<Field>, n: nat, l: Length)
    requires Agrees(fs, n) && HasField(fs, "Content-Length")
    ensures Announces(fs, l) <==> l == Length(n)
  {
    hide SameName, LengthOf;
    var i :| 0 <= i < |fs| && SameName(fs[i].name, "Content-Length");
    assert Found(fs, "Content-Length", i);
  }

  /** If the lengths do not agree, one that is not `n` may be read. */
  lemma OtherLength(fs: seq<Field>, n: nat) returns (l: Length)
    requires !Agrees(fs, n)
    ensures Announces(fs, l) && l != Length(n) && l != NoLength
  {
    hide SameName, LengthOf;
    var i :| 0 <= i < |fs| && SameName(fs[i].name, "Content-Length") && LengthOf(fs[i].value) != Length(n);
    assert Found(fs, "Content-Length", i);
    l := LengthOf(fs[i].value);
  }

  /** The length that is printed reads back. */
  lemma PrintedLength(n: nat)
    requires n <= ULONG_MAX
    ensures LengthOf(Print(n, 10)) == Length(n)
  {
    hide Print, Scan;
    ScanPrinted(n, "", 10);
    StrtoulPrinted(n, "", 10);
    assert Print(n, 10) + "" == Print(n, 10);
  }

  // ---------------------------------------------------------------- what the lookups mean

  /** The same letter in either case, or the same character. */
  predicate SameInAnyCase(c: char, d: char) {
    c == d || ('A' <= c <= 'Z' && d as int == c as int + 32) || ('A' <= d <= 'Z' && c as int == d as int + 32)
  }

  /** Names are compared character by character, letters in any case. */
  lemma SameNameExactly(a: string, b: string)
    ensures SameName(a, b) <==> |a| == |b| && forall i :: 0 <= i < |a| ==> SameInAnyCase(a[i], b[i])
  {
    forall c: char, d: char
      ensures Lower(c) == Lower(d) <==> SameInAnyCase(c, d)
    {
      SameLetter(c, d);
    }
  }

  lemma SameLetter(c: char, d: char)
    ensures Lower(c) == Lower(d) <==> SameInAnyCase(c, d)
  {
    assert 'A' <= c <= 'Z' ==> Lower(c) as int == c as int + 32;
    assert 'A' <= d <= 'Z' ==> Lower(d) as int == d as int + 32;
  }

  /** A length is read from the digits at the front, as long as they make a number that fits. */
  lemma LengthReads(digits: string, t: string)
    requires digits != "" && AllDigits(digits, 10)
    requires t == "" || (DigitValue(t[0]) >= 10 && t[0] != 'x' && t[0] != 'X')
    ensures LengthOf(digits + t) == if ReadDigits(digits, 10, 0) <= ULONG_MAX then Length(ReadDigits(digits, 10, 0)) else BadLength
  {
    hide ReadDigits;
    ScanDigits(digits, t, 10);
  }

  /** One that starts with no digit, blank or sign cannot be read. */
  lemma LengthUnreadable(value: string)
    requires value == "" || (DigitValue(value[0]) >= 10 && !IsSpace(value[0]) && value[0] != '-' && value[0] != '+')
    ensures LengthOf(value) == BadLength
  {
    hide ReadDigits;
  }

  /** A field may do without the blank after its colon; one that ends with its colon is dropped. */
  lemma FieldForms(name: string, value: string, last: char)
    requires ':' !in name
    ensures Find(name + ":", ':', 0) == |name| && FieldOf(name + ":") == []
    ensures value != "" && value[0] != ' ' ==>
      Find(name + ":" + (value + [last]), ':', 0) == |name| && FieldOf(name + ":" + (value + [last])) == [Field(name, value)]
  {
    hide FieldOf, Find;
    ColonFound(name, "");
    assert name + ":" + "" == name + ":";
    NothingBehind(name);
    if value != "" && value[0] != ' ' {
      ColonFound(name, value + [last]);
      TightField(name, value, last);
    }
  }

  lemma ColonFound(name: string, t: string)
    requires ':' !in name
    ensures Find(name + ":" + t, ':', 0) == |name|
  {
    hide Find;
    FindPast("", name, ":" + t, ':');
    assert "" + name + (":" + t) == name + ":" + t;
  }

  lemma NothingBehind(name: string)
    requires Find(name + ":", ':', 0) == |name|
    ensures FieldOf(name + ":") == []
  {
    hide Find;
  }

  lemma TightField(name: string, value: string, last: char)
    requires value != "" && value[0] != ' ' && Find(name + ":" + (value + [last]), ':', 0) == |name|
    ensures FieldOf(name + ":" + (value + [last])) == [Field(name, value)]
  {
    hide Find;
    var line := name + ":" + (value + [last]);
    Middle(name + ":", value, [last]);
    Regroup(name + ":", value, [last]);
    assert line[|name| + 1] == value[0] && line[..|name|] == name;
  }

  /** What is cut off before the end of its empty line holds no empty line. */
  lemma HeaderCutShort(s: string, p: string)
    requires p <= s && FindText(s, BLANK_LINE, 0) >= 0 && |p| < FindText(s, BLANK_LINE, 0) + 4
    ensures FindText(p, BLANK_LINE, 0) < 0
  {
    hide FindText, At;
    if FindText(p, BLANK_LINE, 0) >= 0 {
      Halves(p, s);
      FoundEarly(p, s[|p|..], BLANK_LINE);
      FoundInside(p, BLANK_LINE);
    }
  }

  lemma FoundInside(s: string, d: string)
    requires FindText(s, d, 0) >= 0
    ensures FindText(s, d, 0) + |d| <= |s|
  {
    hide FindText;
  }

  /** Exactly one field, whatever the case of its name, announces the length `n`. */
  ghost predicate OneLength(fs: seq<Field>, i: nat, n: nat) {
    && i < |fs| && |fs[i].name| == |"Content-Length"|
    && (forall j :: 0 <= j < |fs[i].name| ==> SameInAnyCase(fs[i].name[j], "Content-Length"[j]))
    && LengthOf(fs[i].value) == Length(n)
    && forall j :: 0 <= j < |fs| && j != i ==> !SameName(fs[j].name, "Content-Length")
  }

  lemma OneLengthAnnounced(fs: seq<Field>, i: nat, n: nat, l: Length)
    requires OneLength(fs, i, n)
    ensures Announces(fs, l) <==> l == Length(n)
  {
    hide SameName, LengthOf;
    SameNameExactly(fs[i].name, "Content-Length");
    AgreedLength(fs, n, l);
  }
}
