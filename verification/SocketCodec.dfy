/** The text forms of a listening socket: the URL-like source the agent prints, stores in its
    configuration and compares sockets by, and the hexadecimal form of `/proc/net/{tcp,udp}[6]`. */
module SocketCodec {
  import opened Sequences
  import opened Text
  import opened Numerals

  datatype Result<T> = Ok(value: T) | OutOfRange

  /** `groups` holds `ip1..ip4` for "tcp" and "udp" and `ip1..ip8` for every other kind. */
  datatype Endpoint = Endpoint(kind: string, groups: seq<nat>, port: nat)

  predicate IsV4(kind: string) {
    kind == "tcp" || kind == "udp"
  }

  function GroupCount(kind: string): nat {
    if IsV4(kind) then 4 else 8
  }

  /** Field widths of `sock_addr`, and a kind as it can be read back from a source. */
  ghost predicate Valid(e: Endpoint) {
    && ':' !in e.kind
    && |e.groups| == GroupCount(e.kind)
    && (forall i :: 0 <= i < |e.groups| ==> e.groups[i] < 0x1_0000)
    && e.port < 0x1_0000_0000
  }

  // ---------------------------------------------------------------- the source text

  function Join(groups: seq<nat>, base: Base, sep: char): string {
    if |groups| == 0 then ""
    else if |groups| == 1 then Print(groups[0], base)
    else Print(groups[0], base) + [sep] + Join(groups[1..], base, sep)
  }

  function Body(e: Endpoint): string {
    if IsV4(e.kind) then Join(e.groups, 10, '.') else Join(e.groups, 16, ':')
  }

  function GetSource(e: Endpoint): string {
    e.kind + "://" + Body(e) + ":" + Print(e.port, 10)
  }

  /** The service key made from its first socket. */
  function UniqName(e: Endpoint): string {
    e.kind + "_" + Body(e) + "_" + Print(e.port, 10)
  }

  /** `std::string::replace`, which throws for a position past the end. */
  function Replace(s: string, pos: int, len: nat, t: string): Result<string> {
    if pos < 0 || pos > |s| then OutOfRange
    else Ok(s[..pos] + t + (if pos + len <= |s| then s[pos + len..] else ""))
  }

  /** The two in-place replacements that `setSocket` applies to a source. */
  function UniqFromSource(source: string): Result<string> {
    match Replace(source, Find(source, ':', 0), 3, "_")
    case Ok(u) => Replace(u, RFind(u, ':'), 1, "_")
    case e => e
  }

  // ---------------------------------------------------------------- reading the source text

  function Narrow(n: nat): nat {
    n % 0x1_0000
  }

  /** The v6 branch. `pos` is the colon before the group, -1 before the first. The length handed
      to `substr` is the absolute position of the next colon, so the piece read is usually too long. */
  function HexGroups(ip: string, pos: int, k: nat): seq<nat>
    requires -1 <= pos && pos + 1 <= |ip| && k >= 1
    decreases k
  {
    if k == 1 then [Narrow(Strtoul(ip[pos + 1..], 16))]
    else [Narrow(Strtoul(Piece(ip, pos + 1), 16))] + HexGroups(ip, Find(ip, ':', pos + 1), k - 1)
  }

  function Piece(ip: string, start: nat): string
    requires start <= |ip|
  {
    var next := Find(ip, ':', start);
    if next < 0 then ip[start..] else Substr(ip, start, next)
  }

  function SkipDigits(s: string): (t: string)
    ensures |t| <= |s|
  {
    if s != "" && DigitValue(s[0]) < 10 then SkipDigits(s[1..]) else s
  }

  /** What the 16-bit fields of a v4 address hold before anything is assigned to them. */
  type Stale = g: seq<nat> | |g| == 4 && forall i :: 0 <= i < 4 ==> g[i] < 0x1_0000
    witness [0, 0, 0, 0]

  /** `stream >> group >> dot >> ...`: an extraction that meets no digit gives 0, one that overflows
      the largest value, one that meets the end nothing, and all that follow are not made. */
  function DottedGroups(s: string, stale: seq<nat>): (groups: seq<nat>)
    requires stale != []
    ensures |groups| == |stale|
    decreases |stale|
  {
    var t := SkipSpace(s);
    if t == "" then stale
    else if DigitValue(t[0]) >= 10 then [0] + stale[1..]
    else if ReadDigits(t, 10, 0) >= 0x1_0000 then [0xFFFF] + stale[1..]
    else
      var rest := SkipSpace(SkipDigits(t));
      [ReadDigits(t, 10, 0)] +
      (if |stale| == 1 || rest == "" then stale[1..] else DottedGroups(rest[1..], stale[1..]))
  }

  function FromParts(kind: string, ip: string, port: nat, stale: Stale): Endpoint {
    Endpoint(kind, if IsV4(kind) then DottedGroups(ip, stale) else HexGroups(ip, -1, 8), port)
  }

  function KindOf(s: string): string {
    var first := Find(s, ':', 0);
    if first < 0 then s else s[..first]
  }

  /** Between the separator, which is taken to be three characters, and the last colon. */
  function AddressOf(s: string): string
    requires Find(s, ':', 0) + 3 <= |s|
  {
    var pos, last := Find(s, ':', 0) + 3, RFind(s, ':');
    if last < pos then s[pos..] else s[pos..last]
  }

  function PortOf(s: string): nat {
    Strtoul(s[RFind(s, ':') + 1..], 10) % 0x1_0000_0000
  }

  /** The constructor from a configured source. */
  function FromSource(s: string, stale: Stale): Result<Endpoint> {
    if Find(s, ':', 0) + 3 > |s| then OutOfRange
    else Ok(FromParts(KindOf(s), AddressOf(s), PortOf(s), stale))
  }

  // ---------------------------------------------------------------- the kernel's text

  /** A 32-bit word of an address as a little-endian kernel prints it with `%08X`:
      `bytes` is in network order. */
  function KernelWord(bytes: seq<nat>): (s: string)
    requires |bytes| == 4
    ensures |s| == 8
  {
    PrintPadded(bytes[0] + 0x100 * bytes[1] + 0x1_0000 * bytes[2] + 0x100_0000 * bytes[3], 8)
  }

  function KernelWords(bytes: seq<nat>): (s: string)
    requires |bytes| % 4 == 0
    ensures |s| == 2 * |bytes|
  {
    if bytes == [] then "" else KernelWord(bytes[..4]) + KernelWords(bytes[4..])
  }

  function KernelForm(bytes: seq<nat>, port: nat): string
    requires |bytes| % 4 == 0
  {
    KernelWords(bytes) + ":" + PrintPadded(port, 4)
  }

  function HexPort(src: string): nat {
    Strtoul(src[Find(src, ':', 0) + 1..], 16) % 0x1_0000_0000
  }

  function HexAt(src: string, pos: nat): nat
    requires pos <= |src|
  {
    Narrow(Strtoul(Substr(src, pos, 2), 16))
  }

  /** `setSockFrom`: the groups and the port. */
  function SetSockFrom(src: string): Result<(seq<nat>, nat)> {
    if |src| < 6 then OutOfRange
    else Ok(([HexAt(src, 6), HexAt(src, 4), HexAt(src, 2), HexAt(src, 0)], HexPort(src)))
  }

  /** The pair of two-digit pieces at `pos + 2` and `pos`, read as one number. */
  function SwappedAt(src: string, pos: nat): nat
    requires pos + 2 <= |src|
  {
    Narrow(Strtoul(Substr(src, pos + 2, 2) + Substr(src, pos, 2), 16))
  }

  /** `setSockFrom6`. */
  function SetSockFrom6(src: string): Result<(seq<nat>, nat)> {
    if |src| < 30 then OutOfRange
    else
      Ok(([SwappedAt(src, 4), SwappedAt(src, 0), SwappedAt(src, 12), SwappedAt(src, 8),
           SwappedAt(src, 20), SwappedAt(src, 16), SwappedAt(src, 28), SwappedAt(src, 24)],
          HexPort(src)))
  }

  // ---------------------------------------------------------------- source round trip

  lemma {:induction false} JoinStart(groups: seq<nat>, base: Base, sep: char)
    requires |groups| >= 1
    ensures Join(groups, base, sep) == Print(groups[0], base)
              + (if |groups| == 1 then "" else [sep] + Join(groups[1..], base, sep))
  {
    assert Join(groups, base, sep) == if |groups| == 1 then Print(groups[0], base) + ""
                                      else Print(groups[0], base) + ([sep] + Join(groups[1..], base, sep));
  }

  lemma {:induction false} HexGroupsOfJoin(pre: string, groups: seq<nat>)
    requires |groups| >= 1 && (forall i :: 0 <= i < |groups| ==> groups[i] < 0x1_0000)
    ensures HexGroups(pre + Join(groups, 16, ':'), |pre| - 1, |groups|) == groups
    decreases |groups|
  {
    hide *;
    var ip := pre + Join(groups, 16, ':');
    JoinStart(groups, 16, ':');
    if |groups| == 1 {
      assert ip[|pre|..] == Print(groups[0], 16) + "";
      LastGroup(ip, |pre| - 1, groups[0]);
    } else {
      var pre' := pre + Print(groups[0], 16) + [':'];
      FirstGroup(pre, groups);
      HexGroupsOfJoin(pre', groups[1..]);
      HexGroupsStep(ip, |pre| - 1, |groups|);
      assert groups == [groups[0]] + groups[1..];
    }
  }

  /** A group fits its 16-bit field. */
  lemma GroupPrinted(group: nat, t: string)
    requires group < 0x1_0000 && EndsNumber(t)
    ensures Narrow(Strtoul(Print(group, 16) + t, 16)) == group
  {
    hide Strtoul, Print;
    StrtoulPrinted(group, t, 16);
  }

  predicate EndsNumber(t: string) {
    t == "" || (DigitValue(t[0]) == 16 && t[0] != 'x' && t[0] != 'X')
  }

  lemma LastGroup(ip: string, pos: int, group: nat)
    requires -1 <= pos && pos + 1 <= |ip|
    requires group < 0x1_0000 && ip[pos + 1..] == Print(group, 16) + ""
    ensures HexGroups(ip, pos, 1) == [group]
  {
    hide Strtoul, Print, Narrow;
    GroupPrinted(group, "");
  }

  lemma HexGroupsStep(ip: string, pos: int, k: nat)
    requires -1 <= pos && pos + 1 <= |ip| && k >= 2
    ensures HexGroups(ip, pos, k)
         == [Narrow(Strtoul(Piece(ip, pos + 1), 16))] + HexGroups(ip, Find(ip, ':', pos + 1), k - 1)
  {
    hide Strtoul, Piece, Find, Narrow;
  }

  /** The over-long piece still starts with the first group and continues with the colon. */
  lemma FirstGroup(pre: string, groups: seq<nat>)
    requires |groups| >= 2 && groups[0] < 0x1_0000
    ensures var ip, g := pre + Join(groups, 16, ':'), Print(groups[0], 16);
      && ip == (pre + g + [':']) + Join(groups[1..], 16, ':')
      && Find(ip, ':', |pre|) == |pre| + |g|
      && Narrow(Strtoul(Piece(ip, |pre|), 16)) == groups[0]
  {
    hide *;
    var g, tail := Print(groups[0], 16), [':'] + Join(groups[1..], 16, ':');
    var ip := pre + Join(groups, 16, ':');
    JoinStart(groups, 16, ':');
    Associate(pre, g, [':'], Join(groups[1..], 16, ':'));
    NotADigits(g);
    FindPast(pre, g, tail, ':');
    PieceText(ip, pre, g, tail);
    ColonEnds(Piece(ip, |pre|)[|g|..], tail);
    GroupPrinted(groups[0], Piece(ip, |pre|)[|g|..]);
  }

  lemma NotADigits(s: string)
    requires AllDigits(s, 16)
    ensures ':' !in s && '.' !in s && '_' !in s
  {
  }

  lemma ColonEnds(t: string, tail: string)
    requires t <= tail && tail != "" && tail[0] == ':'
    ensures EndsNumber(t)
  {
  }

  lemma PieceIsSubstr(ip: string, start: nat)
    requires start <= |ip| && Find(ip, ':', start) >= 0
    ensures Piece(ip, start) == Substr(ip, start, Find(ip, ':', start))
  {
    hide Find, Substr;
  }

  lemma PieceText(ip: string, pre: string, g: string, tail: string)
    requires ip == pre + g + tail && Find(ip, ':', |pre|) == |pre| + |g| && tail != ""
    ensures g <= Piece(ip, |pre|) && Piece(ip, |pre|) == g + Piece(ip, |pre|)[|g|..]
    ensures Piece(ip, |pre|)[|g|..] <= tail
  {
    hide Find, Piece, Substr;
    PieceIsSubstr(ip, |pre|);
    SubstrIsPrefix(ip, |pre|, |pre| + |g|);
    assert ip[|pre|..] == g + tail by { Middle(pre, g, tail); }
    PrefixSplit(Piece(ip, |pre|), g, tail);
  }

  lemma {:induction false} SkipsPrinted(n: nat, t: string)
    requires t == "" || DigitValue(t[0]) >= 10
    ensures SkipDigits(Print(n, 10) + t) == t
  {
    SkipsDigits(Print(n, 10), t);
  }

  lemma {:induction false} SkipsDigits(a: string, t: string)
    requires AllDigits(a, 10)
    requires t == "" || DigitValue(t[0]) >= 10
    ensures SkipDigits(a + t) == t
  {
    if a == "" {
      assert a + t == t;
    } else {
      assert (a + t)[1..] == a[1..] + t;
      SkipsDigits(a[1..], t);
    }
  }

  lemma {:induction false} DottedGroupsOfJoin(groups: seq<nat>, stale: seq<nat>)
    requires |stale| == |groups| >= 1 && (forall i :: 0 <= i < |groups| ==> groups[i] < 0x1_0000)
    ensures DottedGroups(Join(groups, 10, '.'), stale) == groups
    decreases |groups|
  {
    hide *;
    var g := Print(groups[0], 10);
    JoinStart(groups, 10, '.');
    if |groups| == 1 {
      assert g + "" == g && groups == [groups[0]];
      DottedStep(groups[0], "", stale);
    } else {
      DottedGroupsOfJoin(groups[1..], stale[1..]);
      DottedStep(groups[0], ['.'] + Join(groups[1..], 10, '.'), stale);
      assert (['.'] + Join(groups[1..], 10, '.'))[1..] == Join(groups[1..], 10, '.');
      assert groups == [groups[0]] + groups[1..];
    }
  }

  /** One extraction and, unless it is the last, the separator after it. */
  lemma DottedStep(group: nat, tail: string, stale: seq<nat>)
    requires group < 0x1_0000 && stale != [] && (tail == "" || tail[0] == '.')
    requires |stale| > 1 ==> tail != ""
    ensures DottedGroups(Print(group, 10) + tail, stale)
         == if |stale| == 1 then [group] else [group] + DottedGroups(tail[1..], stale[1..])
  {
    hide Print, ReadDigits, SkipDigits;
    var s := Print(group, 10) + tail;
    assert s[0] == Print(group, 10)[0];
    ReadPrinted(group, 10);
    ReadStops(Print(group, 10), tail, 10);
    SkipsPrinted(group, tail);
  }

  /** Extractions that fail: at the end nothing is assigned, without a digit 0 is, and a number that
      does not fit gives the largest value; the fields behind keep what they held. */
  lemma DottedFails(group: nat, c: char, tail: string, stale: seq<nat>)
    requires stale != [] && DigitValue(c) >= 10 && !IsSpace(c) && (tail == "" || tail[0] == '.')
    ensures DottedGroups("", stale) == stale
    ensures DottedGroups([c] + tail, stale) == [0] + stale[1..]
    ensures group >= 0x1_0000 ==> DottedGroups(Print(group, 10) + tail, stale) == [0xFFFF] + stale[1..]
  {
    hide Print, ReadDigits, SkipDigits;
    assert ([c] + tail)[0] == c;
    var s := Print(group, 10) + tail;
    assert s[0] == Print(group, 10)[0];
    ReadPrinted(group, 10);
    ReadStops(Print(group, 10), tail, 10);
  }

  lemma {:induction false} JoinLetters(groups: seq<nat>, base: Base, sep: char)
    ensures forall i :: 0 <= i < |Join(groups, base, sep)| ==>
      DigitValue(Join(groups, base, sep)[i]) < base || Join(groups, base, sep)[i] == sep
  {
    if |groups| > 1 {
      JoinLetters(groups[1..], base, sep);
    }
  }

  /** Where the separators of a source are, and what lies between them. */
  lemma SourceParts(e: Endpoint)
    requires ':' !in e.kind
    ensures var s, body := GetSource(e), |e.kind| + 3;
      && Find(s, ':', 0) == |e.kind| && s[..|e.kind|] == e.kind
      && RFind(s, ':') == body + |Body(e)| && s[body..body + |Body(e)|] == Body(e)
      && body + |Body(e)| < |s| && s[body + |Body(e)| + 1..] == Print(e.port, 10)
  {
    hide Body, Print, Find, RFind;
    var port := Print(e.port, 10);
    var front := e.kind + "://" + Body(e);
    NotADigits(port);
    RFindBefore(front, ':', port);
    Middle(front, [':'], port);
    Middle(e.kind, "://", Body(e));
    Associate(e.kind, "://", Body(e), [':'] + port);
    assert "" + e.kind + ("://" + (Body(e) + ([':'] + port))) == GetSource(e);
    FindPast("", e.kind, "://" + (Body(e) + ([':'] + port)), ':');
  }

  /** Reading back a printed source gives the same socket, whatever its fields held before. */
  lemma SourceRoundTrip(e: Endpoint, stale: Stale)
    requires Valid(e)
    ensures FromSource(GetSource(e), stale) == Ok(e)
  {
    hide GetSource, Body, Find, RFind, Strtoul, Print, FromParts;
    SourceParts(e);
    PortPrinted(e.port);
    BodyRoundTrip(e, stale);
  }

  lemma PortPrinted(port: nat)
    requires port < 0x1_0000_0000
    ensures Strtoul(Print(port, 10), 10) == port
  {
    assert Print(port, 10) + "" == Print(port, 10);
    StrtoulPrinted(port, "", 10);
  }

  lemma BodyRoundTrip(e: Endpoint, stale: Stale)
    requires Valid(e)
    ensures FromParts(e.kind, Body(e), e.port, stale) == e
  {
    hide Join, DottedGroups, HexGroups;
    if IsV4(e.kind) {
      DottedGroupsOfJoin(e.groups, stale);
    } else {
      HexGroupsOfJoin("", e.groups);
      assert "" + Body(e) == Body(e);
    }
  }

  lemma SourceInjective(a: Endpoint, b: Endpoint)
    requires Valid(a) && Valid(b)
    ensures GetSource(a) == GetSource(b) <==> a == b
  {
    SourceRoundTrip(a, [0, 0, 0, 0]);
    SourceRoundTrip(b, [0, 0, 0, 0]);
  }

  /** The constructor throws exactly when the address would start past the end; otherwise it leaves
      a socket whose fields are in range and whose kind can be read back, however malformed the
      text is and whatever the fields held before. */
  lemma FromSourceValid(s: string, stale: Stale)
    ensures FromSource(s, stale).OutOfRange? <==> Find(s, ':', 0) + 3 > |s|
    ensures FromSource(s, stale).Ok? ==> Valid(FromSource(s, stale).value)
  {
    hide AddressOf, PortOf, FromParts, DottedGroups, HexGroups;
    if Find(s, ':', 0) + 3 <= |s| {
      KindHasNoColon(s);
      PortInRange(s);
      PartsValid(KindOf(s), AddressOf(s), PortOf(s), stale);
    }
  }

  lemma PortInRange(s: string)
    ensures PortOf(s) < 0x1_0000_0000
  {
    hide Strtoul;
  }

  lemma KindHasNoColon(s: string)
    ensures ':' !in KindOf(s)
  {
  }

  lemma PartsValid(kind: string, ip: string, port: nat, stale: Stale)
    requires ':' !in kind && port < 0x1_0000_0000
    ensures Valid(FromParts(kind, ip, port, stale))
  {
    hide DottedGroups, HexGroups;
    if IsV4(kind) {
      DottedInRange(ip, stale);
    } else {
      HexInRange(ip, -1, 8);
    }
  }

  lemma {:induction false} DottedInRange(s: string, stale: seq<nat>)
    requires stale != [] && forall i :: 0 <= i < |stale| ==> stale[i] < 0x1_0000
    ensures forall i :: 0 <= i < |stale| ==> DottedGroups(s, stale)[i] < 0x1_0000
    decreases |stale|
  {
    hide SkipSpace, SkipDigits, ReadDigits;
    var rest := SkipSpace(SkipDigits(SkipSpace(s)));
    if |stale| > 1 && rest != "" {
      DottedInRange(rest[1..], stale[1..]);
    }
  }

  lemma {:induction false} HexInRange(ip: string, pos: int, k: nat)
    requires -1 <= pos && pos + 1 <= |ip| && k >= 1
    ensures |HexGroups(ip, pos, k)| == k && forall i :: 0 <= i < k ==> HexGroups(ip, pos, k)[i] < 0x1_0000
    decreases k
  {
    hide Strtoul, Piece, Find;
    if k > 1 {
      HexInRange(ip, Find(ip, ':', pos + 1), k - 1);
    }
  }

  lemma HexInWidth(src: string, pos: nat)
    ensures HexPort(src) < 0x1_0000_0000
    ensures pos <= |src| ==> HexAt(src, pos) < 0x1_0000
    ensures pos + 2 <= |src| ==> SwappedAt(src, pos) < 0x1_0000
  {
    hide Strtoul, Find, Substr;
  }

  /** The kernel's texts, too, leave fields in range. */
  lemma KernelValid(kind: string, src: string)
    requires ':' !in kind
    ensures IsV4(kind) && SetSockFrom(src).Ok? ==> Valid(Endpoint(kind, SetSockFrom(src).value.0, SetSockFrom(src).value.1))
    ensures !IsV4(kind) && SetSockFrom6(src).Ok? ==>
      Valid(Endpoint(kind, SetSockFrom6(src).value.0, SetSockFrom6(src).value.1))
  {
    hide HexPort, HexAt, SwappedAt;
    forall pos: nat
      ensures HexPort(src) < 0x1_0000_0000
      ensures pos <= |src| ==> HexAt(src, pos) < 0x1_0000
      ensures pos + 2 <= |src| ==> SwappedAt(src, pos) < 0x1_0000
    {
      HexInWidth(src, pos);
    }
    HexInWidth(src, 0);
  }

  // ---------------------------------------------------------------- the service key

  lemma BodyHasNoUnderscore(e: Endpoint)
    ensures '_' !in Body(e)
  {
    hide Join;
    if IsV4(e.kind) {
      JoinLetters(e.groups, 10, '.');
    } else {
      JoinLetters(e.groups, 16, ':');
    }
  }

  /** The closed form of the key is what the two replacements make of the source. */
  lemma UniqNameReplaces(e: Endpoint)
    requires ':' !in e.kind
    ensures UniqFromSource(GetSource(e)) == Ok(UniqName(e))
  {
    hide GetSource, Body, Find, RFind, Print;
    var s, port := GetSource(e), Print(e.port, 10);
    var front := e.kind + "_" + Body(e);
    SourceParts(e);
    SourceFromBody(e);
    assert s[..|e.kind|] + "_" + s[|e.kind| + 3..] == front + [':'] + port;
    NotADigits(port);
    RFindBefore(front, ':', port);
    Middle(front, [':'], port);
    assert UniqName(e) == front + "_" + port;
  }

  lemma SourceFromBody(e: Endpoint)
    ensures |GetSource(e)| >= |e.kind| + 3
    ensures GetSource(e)[|e.kind| + 3..] == Body(e) + [':'] + Print(e.port, 10)
  {
    hide Body, Print;
    Associate(e.kind + "://", Body(e), [':'], Print(e.port, 10));
    assert GetSource(e) == (e.kind + "://") + (Body(e) + [':'] + Print(e.port, 10));
  }

  lemma UniqNameParts(e: Endpoint)
    ensures RFind(UniqName(e), '_') == |e.kind + "_" + Body(e)|
    ensures RFind(e.kind + "_" + Body(e), '_') == |e.kind|
  {
    hide Body, Print, RFind;
    BodyHasNoUnderscore(e);
    NotADigits(Print(e.port, 10));
    RFindBefore(e.kind, '_', Body(e));
    RFindBefore(e.kind + "_" + Body(e), '_', Print(e.port, 10));
  }

  /** Two sockets that give the same key are the same socket. */
  lemma UniqNameInjective(a: Endpoint, b: Endpoint)
    requires Valid(a) && Valid(b)
    ensures UniqName(a) == UniqName(b) <==> a == b
  {
    if UniqName(a) == UniqName(b) {
      hide Body, Print, RFind;
      UniqNameParts(a);
      UniqNameParts(b);
      SplitAt(a.kind + "_" + Body(a), b.kind + "_" + Body(b), '_', Print(a.port, 10), Print(b.port, 10));
      SplitAt(a.kind, b.kind, '_', Body(a), Body(b));
      SourceInjective(a, b);
    }
  }

  lemma SplitAt(a: string, b: string, c: char, x: string, y: string)
    requires |a| == |b| && a + [c] + x == b + [c] + y
    ensures a == b && x == y
  {
    ConcatInjective(a + [c], x, b + [c], y);
    ConcatInjective(a, [c], b, [c]);
  }

  // ---------------------------------------------------------------- kernel round trip

  ghost predicate Bytes(bytes: seq<nat>) {
    forall i :: 0 <= i < |bytes| ==> bytes[i] < 0x100
  }

  lemma PaddedSplit(n: nat, width: nat)
    requires width >= 2
    ensures PrintPadded(n, width) == PrintPadded(n / 0x100, width - 2) + PrintPadded(n % 0x100, 2)
  {
    assert PrintPadded(n / 16, width - 1) == PrintPadded(n / 16 / 16, width - 2) + [UpperDigit(n / 16 % 16)];
    assert n / 16 / 16 == n / 0x100 && n / 16 % 16 == n % 0x100 / 16 && n % 16 == n % 0x100 % 16;
    assert PrintPadded(n % 0x100, 2) == PrintPadded(n % 0x100 / 16, 1) + [UpperDigit(n % 16)];
    assert PrintPadded(n % 0x100 / 16, 1) == PrintPadded(n % 0x100 / 16 / 16, 0) + [UpperDigit(n % 0x100 / 16 % 16)];
  }

  lemma KernelWordBytes(b: seq<nat>)
    requires |b| == 4 && Bytes(b)
    ensures KernelWord(b) == PrintPadded(b[3], 2) + PrintPadded(b[2], 2) + PrintPadded(b[1], 2) + PrintPadded(b[0], 2)
  {
    hide PrintPadded;
    var n3 := b[3];
    var n2 := b[2] + 0x100 * n3;
    var n1 := b[1] + 0x100 * n2;
    PaddedSplit(b[0] + 0x100 * n1, 8);
    PaddedSplit(n1, 6);
    PaddedSplit(n2, 4);
  }

  lemma FirstWord(bytes: seq<nat>)
    requires |bytes| % 4 == 0 && bytes != []
    ensures KernelWords(bytes) == KernelWord(bytes[..4]) + KernelWords(bytes[4..])
  {
    hide KernelWord;
  }

  lemma {:induction false} KernelWordAt(bytes: seq<nat>, i: nat)
    requires |bytes| % 4 == 0 && 4 * i + 4 <= |bytes|
    ensures KernelWords(bytes)[8 * i..8 * i + 8] == KernelWord(bytes[4 * i..4 * i + 4])
  {
    hide KernelWord, KernelWords;
    FirstWord(bytes);
    if i == 0 {
      HeadSlice(KernelWord(bytes[..4]), KernelWords(bytes[4..]));
      assert bytes[4 * i..4 * i + 4] == bytes[..4];
    } else {
      var k := i - 1;
      KernelWordAt(bytes[4..], k);
      TailOfTail(bytes, 4, 4 * k, 4 * k + 4);
      SliceOfTail(KernelWord(bytes[..4]), KernelWords(bytes[4..]), 8 * k, 8 * k + 8);
    }
  }

  lemma StrtoulPadded(n: nat, width: nat)
    requires 1 <= width && n < Power16(width) && n <= ULONG_MAX
    ensures Strtoul(PrintPadded(n, width), 16) == n
  {
    var s := PrintPadded(n, width);
    assert s + "" == s;
    ScanDigits(s, "", 16);
    ReadPadded(n, width);
  }

  /** The two-digit piece of byte `k` of word `i` in a kernel form. */
  lemma KernelByteAt(src: string, bytes: seq<nat>, i: nat, k: nat)
    requires |bytes| % 4 == 0 && Bytes(bytes) && 4 * i + 4 <= |bytes| && k < 4
    requires |src| > 2 * |bytes| && src[0..2 * |bytes|] == KernelWords(bytes)
    ensures Substr(src, 8 * i + 6 - 2 * k, 2) == PrintPadded(bytes[4 * i + k], 2)
  {
    hide KernelWords, KernelWord, PrintPadded;
    var w := bytes[4 * i..4 * i + 4];
    KernelWordAt(bytes, i);
    SliceOfSlice(src, 0, 2 * |bytes|, 8 * i, 8 * i + 8);
    KernelByte(w, k);
    SliceOfSlice(src, 8 * i, 8 * i + 8, 6 - 2 * k, 8 - 2 * k);
  }

  lemma KernelByte(w: seq<nat>, k: nat)
    requires |w| == 4 && Bytes(w) && k < 4
    ensures |KernelWord(w)| == 8 && KernelWord(w)[6 - 2 * k..8 - 2 * k] == PrintPadded(w[k], 2)
  {
    hide PrintPadded, KernelWord;
    KernelWordBytes(w);
  }

  lemma KernelPort(bytes: seq<nat>, port: nat)
    requires |bytes| % 4 == 0 && port < 0x1_0000
    ensures HexPort(KernelForm(bytes, port)) == port
  {
    hide KernelWords, Strtoul, PrintPadded;
    var src := KernelForm(bytes, port);
    KernelLetters(bytes);
    NotADigits(KernelWords(bytes));
    assert src[0..2 * |bytes|] == KernelWords(bytes);
    FindAt(src, ':', 0, 2 * |bytes|);
    assert src[2 * |bytes| + 1..] == PrintPadded(port, 4);
    assert Power16(4) == 0x1_0000;
    StrtoulPadded(port, 4);
  }

  lemma {:induction false} KernelLetters(bytes: seq<nat>)
    requires |bytes| % 4 == 0
    ensures AllDigits(KernelWords(bytes), 16)
  {
    if bytes != [] {
      KernelLetters(bytes[4..]);
    }
  }

  /** `setSockFrom` recovers the address in network order and the port. */
  lemma KernelRoundTrip4(bytes: seq<nat>, port: nat)
    requires |bytes| == 4 && Bytes(bytes) && port < 0x1_0000
    ensures SetSockFrom(KernelForm(bytes, port)) == Ok((bytes, port))
  {
    hide KernelWords, HexPort, HexAt, PrintPadded;
    var src := KernelForm(bytes, port);
    assert src[0..2 * |bytes|] == KernelWords(bytes);
    KernelPort(bytes, port);
    ByteRead(src, bytes, 0);
    ByteRead(src, bytes, 1);
    ByteRead(src, bytes, 2);
    ByteRead(src, bytes, 3);
    assert bytes == [bytes[0], bytes[1], bytes[2], bytes[3]];
  }

  lemma ByteRead(src: string, bytes: seq<nat>, k: nat)
    requires |bytes| == 4 && Bytes(bytes) && k < 4
    requires |src| > 8 && src[0..8] == KernelWords(bytes)
    ensures HexAt(src, 6 - 2 * k) == bytes[k]
  {
    hide KernelWords, Strtoul, PrintPadded;
    KernelByteAt(src, bytes, 0, k);
    assert Power16(2) == 0x100;
    StrtoulPadded(bytes[k], 2);
  }

  /** The eight 16-bit groups of a 16-byte address. */
  function GroupsOf(bytes: seq<nat>): seq<nat>
    requires |bytes| == 16
  {
    seq(8, i requires 0 <= i < 8 => 0x100 * bytes[2 * i] + bytes[2 * i + 1])
  }

  lemma SwappedGroup(src: string, bytes: seq<nat>, i: nat, half: nat)
    requires |bytes| == 16 && Bytes(bytes) && i < 4 && half < 2
    requires |src| > 32 && src[0..32] == KernelWords(bytes)
    ensures SwappedAt(src, 8 * i + 4 - 4 * half) == GroupsOf(bytes)[2 * i + half]
  {
    hide KernelWords, Strtoul, PrintPadded;
    var hi, lo := bytes[4 * i + 2 * half], bytes[4 * i + 2 * half + 1];
    KernelByteAt(src, bytes, i, 2 * half);
    KernelByteAt(src, bytes, i, 2 * half + 1);
    PaddedSplit(0x100 * hi + lo, 4);
    assert Power16(4) == 0x1_0000;
    StrtoulPadded(0x100 * hi + lo, 4);
  }

  /** `setSockFrom6` recovers the eight groups in network order and the port. */
  lemma KernelRoundTrip6(bytes: seq<nat>, port: nat)
    requires |bytes| == 16 && Bytes(bytes) && port < 0x1_0000
    ensures SetSockFrom6(KernelForm(bytes, port)) == Ok((GroupsOf(bytes), port))
  {
    hide KernelWords, HexPort, SwappedAt, PrintPadded;
    var src := KernelForm(bytes, port);
    assert src[0..32] == KernelWords(bytes);
    KernelPort(bytes, port);
    SwappedGroup(src, bytes, 0, 0);
    SwappedGroup(src, bytes, 0, 1);
    SwappedGroup(src, bytes, 1, 0);
    SwappedGroup(src, bytes, 1, 1);
    SwappedGroup(src, bytes, 2, 0);
    SwappedGroup(src, bytes, 2, 1);
    SwappedGroup(src, bytes, 3, 0);
    SwappedGroup(src, bytes, 3, 1);
    var g := GroupsOf(bytes);
    assert g == [g[0], g[1], g[2], g[3], g[4], g[5], g[6], g[7]];
  }
}
