/** Percent coding and query strings: the encoder the collectors use for resource names and the
    decoder and parser of the HTTP library. Strings are octet strings. */
module Query {
  import opened Sequences
  import opened Text
  import opened Numerals

  predicate IsOctet(c: char) {
    c as int < 256
  }

  ghost predicate Octets(s: string) {
    forall i :: 0 <= i < |s| ==> IsOctet(s[i])
  }

  // ---------------------------------------------------------------- percent coding

  /** The unreserved characters of RFC 3986, section 2.3. */
  predicate Unreserved(c: char) {
    ('0' <= c <= '9') || ('A' <= c <= 'Z') || ('a' <= c <= 'z') || c == '-' || c == '_' || c == '.' || c == '~'
  }

  function EncodeChar(c: char): string {
    if Unreserved(c) then [c] else "%" + PrintPadded(c as int % 256, 2)
  }

  function Encode(v: string): string {
    if v == "" then "" else EncodeChar(v[0]) + Encode(v[1..])
  }

  /** `static_cast<char>(strtol(hex, nullptr, 16))`; two characters may hold a sign or a blank too. */
  function HexChar(hex: string): char {
    var n := Scan(hex, 16);
    ((if n.negative then 0 - n.magnitude else n.magnitude) % 256) as char
  }

  function Decode(v: string): string {
    if v == "" then ""
    else if v[0] == '%' && |v| > 2 then [HexChar(v[1..3])] + Decode(v[3..])
    else [if v[0] == '+' then ' ' else v[0]] + Decode(v[1..])
  }

  lemma EncodeFrom(v: string, i: nat)
    requires i < |v|
    ensures Encode(v[i..]) == EncodeChar(v[i]) + Encode(v[i + 1..])
  {
    hide EncodeChar;
    assert v[i..][1..] == v[i + 1..];
  }

  lemma DecodeFrom(v: string, i: nat)
    requires i < |v|
    ensures var escape := v[i] == '%' && i + 2 < |v|;
      Decode(v[i..]) == if escape then [HexChar(v[i + 1..i + 3])] + Decode(v[i + 3..])
                        else [if v[i] == '+' then ' ' else v[i]] + Decode(v[i + 1..])
  {
    hide HexChar;
    var w := v[i..];
    if v[i] == '%' && i + 2 < |v| {
      assert w[1..3] == v[i + 1..i + 3] && w[3..] == v[i + 3..];
    } else {
      assert w[1..] == v[i + 1..];
    }
  }

  /** `url_encode`. */
  method UrlEncode(v: string) returns (escaped: string)
    ensures escaped == Encode(v)
  {
    hide Encode, EncodeChar;
    escaped := "";
    for i := 0 to |v|
      invariant escaped + Encode(v[i..]) == Encode(v)
    {
      EncodeFrom(v, i);
      if Unreserved(v[i]) {
        PlainChar(v[i]);
        Regroup(escaped, [v[i]], Encode(v[i + 1..]));
        escaped := escaped + [v[i]];
      } else {
        EscapedChar(v[i]);
        Regroup(escaped, "%" + PrintPadded(v[i] as int % 256, 2), Encode(v[i + 1..]));
        escaped := escaped + ("%" + PrintPadded(v[i] as int % 256, 2));
      }
    }
    NothingEncoded();
    assert v[|v|..] == "" && escaped + "" == escaped;
  }

  lemma PlainChar(c: char)
    requires Unreserved(c)
    ensures EncodeChar(c) == [c]
  {
  }

  lemma EscapedChar(c: char)
    requires !Unreserved(c)
    ensures EncodeChar(c) == "%" + PrintPadded(c as int % 256, 2)
  {
  }

  lemma NothingEncoded()
    ensures Encode("") == "" && Decode("") == ""
  {
  }

  /** `Percent::decode`. */
  method PercentDecode(value: string) returns (result: string)
    ensures result == Decode(value)
  {
    hide Decode, HexChar;
    result := "";
    var i := 0;
    while i < |value|
      invariant i <= |value|
      invariant result + Decode(value[i..]) == Decode(value)
    {
      DecodeFrom(value, i);
      var chr := value[i];
      if chr == '%' && i + 2 < |value| {
        var decoded := HexChar(value[i + 1..i + 3]);
        Regroup(result, [decoded], Decode(value[i + 3..]));
        result := result + [decoded];
        i := i + 2;
      } else if chr == '+' {
        Regroup(result, [' '], Decode(value[i + 1..]));
        result := result + [' '];
      } else {
        Regroup(result, [chr], Decode(value[i + 1..]));
        result := result + [chr];
      }
      i := i + 1;
    }
    NothingEncoded();
    assert value[i..] == "" && result + "" == result;
  }

  lemma HexOfPadded(n: nat)
    requires n < 256
    ensures HexChar(PrintPadded(n, 2)) == n as char
  {
    hide PrintPadded, ReadDigits;
    var s := PrintPadded(n, 2);
    assert Power16(2) == 256;
    ReadPadded(n, 2);
    ScanDigits(s, "", 16);
    assert s + "" == s;
  }

  lemma DecodeEscape(hex: string, t: string)
    requires |hex| == 2
    ensures Decode("%" + hex + t) == [HexChar(hex)] + Decode(t)
  {
    hide HexChar;
    var v := "%" + hex + t;
    assert v[1..3] == hex && v[3..] == t;
  }

  lemma DecodePlain(c: char, t: string)
    requires c != '%' && c != '+'
    ensures Decode([c] + t) == [c] + Decode(t)
  {
    assert ([c] + t)[1..] == t;
  }

  lemma DecodeEncodedChar(c: char, t: string)
    requires IsOctet(c)
    ensures Decode(EncodeChar(c) + t) == [c] + Decode(t)
  {
    hide Decode, HexChar, PrintPadded;
    if Unreserved(c) {
      DecodePlain(c, t);
    } else {
      DecodeEscape(PrintPadded(c as int, 2), t);
      HexOfPadded(c as int);
    }
  }

  /** Decoding undoes encoding, whatever octets the value holds. */
  lemma {:induction false} DecodeInvertsEncode(v: string)
    requires Octets(v)
    ensures Decode(Encode(v)) == v
  {
    hide Decode, EncodeChar;
    if v == "" {
      NothingEncoded();
    } else {
      DecodeInvertsEncode(v[1..]);
      DecodeEncodedChar(v[0], Encode(v[1..]));
    }
  }

  /** The encoding of forms, which writes a blank as a plus sign. */
  function EncodeForm(v: string): string {
    if v == "" then "" else (if v[0] == ' ' then "+" else EncodeChar(v[0])) + EncodeForm(v[1..])
  }

  lemma DecodePlus(t: string)
    ensures Decode("+" + t) == " " + Decode(t)
  {
    assert ("+" + t)[1..] == t;
  }

  /** It is decoded, too. */
  lemma {:induction false} DecodeInvertsEncodeForm(v: string)
    requires Octets(v)
    ensures Decode(EncodeForm(v)) == v
  {
    hide Decode, EncodeChar;
    if v == "" {
      NothingEncoded();
    } else {
      DecodeInvertsEncodeForm(v[1..]);
      DecodePlus(EncodeForm(v[1..]));
      DecodeEncodedChar(v[0], EncodeForm(v[1..]));
    }
  }

  /** An escape holds two digits of either case. */
  lemma DecodeAnyEscape(a: char, b: char, t: string)
    requires DigitValue(a) < 16 && DigitValue(b) < 16
    ensures Decode("%" + [a, b] + t) == [(16 * DigitValue(a) + DigitValue(b)) as char] + Decode(t)
  {
    hide Decode, ReadDigits;
    DecodeEscape([a, b], t);
    ScanDigits([a, b], "", 16);
    assert [a, b] + "" == [a, b];
    ReadTwo(a, b);
  }

  lemma ReadTwo(a: char, b: char)
    requires DigitValue(a) < 16 && DigitValue(b) < 16
    ensures ReadDigits([a, b], 16, 0) == 16 * DigitValue(a) + DigitValue(b)
  {
    assert [a, b][1..] == [b] && [b][1..] == "";
    assert ReadDigits([b], 16, DigitValue(a)) == Push(DigitValue(a), 16, DigitValue(b));
  }

  /** Text without a percent or plus sign stays, and so does a percent sign with less than two
      characters behind it. */
  lemma {:induction false} DecodePlainText(v: string, w: string)
    requires '%' !in v && '+' !in v && |w| <= 1 && '%' !in w && '+' !in w
    ensures Decode(v) == v && Decode(v + "%" + w) == v + "%" + w
    decreases |v|
  {
    if v == "" {
      assert v + "%" + w == "%" + w && ("%" + w)[1..] == w;
      assert |w| == 1 ==> w[1..] == "" && w == [w[0]];
    } else {
      hide Decode;
      DecodePlainText(v[1..], w);
      assert v == [v[0]] + v[1..] && v + "%" + w == [v[0]] + (v[1..] + "%" + w);
      DecodePlain(v[0], v[1..]);
      DecodePlain(v[0], v[1..] + "%" + w);
    }
  }

  /** What is encoded can stand between the separators of a query. */
  lemma {:induction false} EncodedHasNoSeparator(v: string)
    ensures '&' !in Encode(v) && '=' !in Encode(v)
  {
    if v != "" {
      EncodedHasNoSeparator(v[1..]);
      EncodedCharHasNoSeparator(v[0]);
    }
  }

  lemma EncodedCharHasNoSeparator(c: char)
    ensures '&' !in EncodeChar(c) && '=' !in EncodeChar(c)
  {
    hide PrintPadded;
    if !Unreserved(c) {
      var s := PrintPadded(c as int % 256, 2);
      assert forall i :: 0 <= i < |s| ==> DigitValue(s[i]) < 16;
      assert DigitValue('&') == 16 && DigitValue('=') == 16;
    }
  }

  // ---------------------------------------------------------------- splitting at '&'

  /** The fields of a query: the text between the ampersands. */
  function Split(s: string): (fields: seq<string>)
    ensures |fields| >= 1
  {
    if s == "" then [""]
    else
      var fields, c := Split(s[..|s| - 1]), s[|s| - 1];
      if c == '&' then fields + [""]
      else fields[..|fields| - 1] + [fields[|fields| - 1] + [c]]
  }

  function Join(fields: seq<string>): string {
    if fields == [] then ""
    else if |fields| == 1 then fields[0]
    else Join(fields[..|fields| - 1]) + "&" + fields[|fields| - 1]
  }

  lemma SplitSeparator(s: string)
    ensures Split(s + "&") == Split(s) + [""]
  {
    assert (s + "&")[..|s|] == s;
  }

  lemma SplitPlain(s: string, c: char)
    requires c != '&'
    ensures var f := Split(s); Split(s + [c]) == f[..|f| - 1] + [f[|f| - 1] + [c]]
  {
    assert (s + [c])[..|s|] == s;
  }

  /** A stretch without a separator extends the last field. */
  lemma {:induction false} SplitStretch(s: string, a: string)
    requires '&' !in a
    ensures var f := Split(s); Split(s + a) == f[..|f| - 1] + [f[|f| - 1] + a]
  {
    var f := Split(s);
    if a == "" {
      assert s + a == s && f[|f| - 1] + a == f[|f| - 1];
    } else {
      var init, c := a[..|a| - 1], a[|a| - 1];
      assert s + a == (s + init) + [c] && a == init + [c];
      SplitStretch(s, init);
      SplitPlain(s + init, c);
      assert f[|f| - 1] + init + [c] == f[|f| - 1] + a;
    }
  }

  /** Splitting undoes joining fields that hold no separator. */
  lemma {:induction false} SplitInvertsJoin(fields: seq<string>)
    requires fields != [] && forall i :: 0 <= i < |fields| ==> '&' !in fields[i]
    ensures Split(Join(fields)) == fields
  {
    hide Split;
    var n := |fields| - 1;
    if n == 0 {
      SplitNothing();
      SplitStretch("", fields[0]);
      assert "" + fields[0] == fields[0];
    } else {
      var init := fields[..n];
      SplitInvertsJoin(init);
      SplitSeparator(Join(init));
      SplitStretch(Join(init) + "&", fields[n]);
      assert (init + [""])[..n] == init && "" + fields[n] == fields[n];
    }
  }

  lemma SplitNothing()
    ensures Split("") == [""]
  {
  }

  /** Every query is the join of its fields, and no field holds a separator. */
  lemma {:induction false} JoinInvertsSplit(s: string)
    ensures Join(Split(s)) == s && forall i :: 0 <= i < |Split(s)| ==> '&' !in Split(s)[i]
  {
    if s != "" {
      var t, c := s[..|s| - 1], s[|s| - 1];
      var f := Split(t);
      JoinInvertsSplit(t);
      assert s == t + [c];
      if c == '&' {
        JoinSeparated(f);
      } else {
        JoinExtended(f, c);
      }
    }
  }

  lemma JoinSeparated(f: seq<string>)
    requires f != []
    ensures Join(f + [""]) == Join(f) + "&"
  {
    assert (f + [""])[..|f|] == f;
    assert Join(f) + "&" + "" == Join(f) + "&";
  }

  lemma JoinExtended(f: seq<string>, c: char)
    requires f != []
    ensures Join(f[..|f| - 1] + [f[|f| - 1] + [c]]) == Join(f) + [c]
  {
    var n := |f| - 1;
    var g := f[..n] + [f[n] + [c]];
    if n > 0 {
      assert g[..n] == f[..n];
      Regroup(Join(f[..n]) + "&", f[n], [c]);
    } else {
      assert g[0] == f[0] + [c];
    }
  }

  // ---------------------------------------------------------------- the parser

  datatype Pair = Pair(key: string, value: string)

  /** A field up to its last '=' is the key; a field without a key is dropped. */
  function FieldPairs(field: string): seq<Pair> {
    var e := RFind(field, '=');
    var key := if e < 0 then field else field[..e];
    if key == "" then [] else [Pair(key, if e < 0 then "" else Decode(field[e + 1..]))]
  }

  function AllPairs(fields: seq<string>): seq<Pair> {
    if fields == [] then [] else AllPairs(fields[..|fields| - 1]) + FieldPairs(fields[|fields| - 1])
  }

  function Parse(query: string): seq<Pair> {
    AllPairs(Split(query))
  }

  /** Where the loop stands inside the field that starts at `start`. */
  ghost predicate InField(query: string, c: nat, start: nat, keyEnd: int, valueAt: int) {
    && start <= c <= |query|
    && var e := RFind(query[start..c], '=');
       if e < 0 then keyEnd == valueAt == -1 else keyEnd == start + e && valueAt == keyEnd + 1
  }

  /** The pair of the field the loop has just gone over, put together from the saved positions. */
  method TakeField(query: string, c: nat, start: nat, keyEnd: int, valueAt: int) returns (pairs: seq<Pair>)
    requires InField(query, c, start, keyEnd, valueAt)
    ensures pairs == FieldPairs(query[start..c])
  {
    hide RFind, Decode;
    var parameter := query[start..if keyEnd < 0 then c else keyEnd];
    ghost var field := query[start..c];
    ghost var e := RFind(field, '=');
    if e >= 0 {
      SliceOfSlice(query, start, c, 0, e);
      SliceOfSlice(query, start, c, e + 1, |field|);
      assert field[e + 1..|field|] == field[e + 1..] && field[0..e] == field[..e];
    }
    if parameter == "" {
      return [];
    }
    var value := "";
    if valueAt >= 0 {
      value := query[valueAt..c];
    }
    var decoded := PercentDecode(value);
    if e < 0 {
      NothingEncoded();
    }
    return [Pair(parameter, decoded)];
  }

  lemma StepField(query: string, c: nat, start: nat, keyEnd: int, valueAt: int)
    requires InField(query, c, start, keyEnd, valueAt) && c < |query| && query[c] != '&'
    ensures InField(query, c + 1, start, if query[c] == '=' then c else keyEnd, if query[c] == '=' then c + 1 else valueAt)
  {
    var field := query[start..c + 1];
    assert field[..|field| - 1] == query[start..c];
  }

  lemma LastField(fields: seq<string>)
    requires fields != []
    ensures AllPairs(fields) == AllPairs(fields[..|fields| - 1]) + FieldPairs(fields[|fields| - 1])
  {
    hide FieldPairs;
  }

  /** The fields before the position of the loop, and the one it is in. */
  ghost predicate SplitAt(query: string, c: nat, start: nat, fields: seq<string>) {
    start <= c <= |query| && Split(query[..c]) == fields + [query[start..c]]
  }

  lemma StepSplit(query: string, c: nat, start: nat, fields: seq<string>)
    requires SplitAt(query, c, start, fields) && c < |query|
    ensures query[c] == '&' ==> SplitAt(query, c + 1, c + 1, fields + [query[start..c]])
    ensures query[c] != '&' ==> SplitAt(query, c + 1, start, fields)
  {
    hide Split;
    assert query[..c + 1] == query[..c] + [query[c]];
    if query[c] == '&' {
      SplitSeparator(query[..c]);
      assert query[c + 1..c + 1] == "";
    } else {
      SplitPlain(query[..c], query[c]);
      var f := fields + [query[start..c]];
      assert f[..|f| - 1] == fields;
      assert query[start..c] + [query[c]] == query[start..c + 1];
    }
  }

  /** `parse_query_string`, with -1 for `npos`. The pairs are in the order they are emplaced. */
  method ParseQueryString(query: string) returns (result: seq<Pair>)
    ensures result == Parse(query)
  {
    hide AllPairs, FieldPairs, InField, Split;
    result := [];
    ghost var fields: seq<string> := [];
    NoFields();
    SplitNothing();
    if query == "" {
      LastField([""]);
      NoKey();
      assert [""][..0] == [] && result + [] == result;
      return;
    }
    var start, keyEnd, valueAt := 0, -1, -1;
    FieldStarts(query, 0);
    assert SplitAt(query, 0, 0, []);
    for c := 0 to |query|
      invariant InField(query, c, start, keyEnd, valueAt) && SplitAt(query, c, start, fields)
      invariant result == AllPairs(fields)
    {
      StepSplit(query, c, start, fields);
      if query[c] == '&' {
        var pairs := TakeField(query, c, start, keyEnd, valueAt);
        fields := fields + [query[start..c]];
        LastField(fields);
        assert fields[..|fields| - 1] + [query[start..c]] == fields;
        result := result + pairs;
        start, keyEnd, valueAt := c + 1, -1, -1;
        FieldStarts(query, c + 1);
      } else {
        StepField(query, c, start, keyEnd, valueAt);
        if query[c] == '=' {
          keyEnd, valueAt := c, c + 1;
        }
      }
    }
    ghost var all := fields + [query[start..]];
    LastField(all);
    assert all[..|all| - 1] == fields;
    assert query[..|query|] == query && query[start..|query|] == query[start..];
    if start < |query| {
      var pairs := TakeField(query, |query|, start, keyEnd, valueAt);
      result := result + pairs;
    } else {
      assert query[start..] == "" && result + [] == result;
      NoKey();
    }
  }

  lemma NoFields()
    ensures AllPairs([]) == []
  {
  }

  lemma NoKey()
    ensures FieldPairs("") == []
  {
  }

  lemma FieldStarts(query: string, c: nat)
    requires c <= |query|
    ensures InField(query, c, c, -1, -1)
  {
    assert query[c..c] == "";
  }

  // ---------------------------------------------------------------- the round trip

  function Fields(pairs: seq<Pair>): (r: seq<string>)
    ensures |r| == |pairs|
  {
    if pairs == [] then []
    else Fields(pairs[..|pairs| - 1]) + [pairs[|pairs| - 1].key + "=" + Encode(pairs[|pairs| - 1].value)]
  }

  /** A query that carries the pairs, the values encoded. */
  function Print(pairs: seq<Pair>): string {
    Join(Fields(pairs))
  }

  ghost predicate Carried(p: Pair) {
    p.key != "" && '&' !in p.key
  }

  lemma FieldRoundTrip(p: Pair)
    requires Carried(p) && Octets(p.value)
    ensures FieldPairs(p.key + "=" + Encode(p.value)) == [p] && '&' !in p.key + "=" + Encode(p.value)
  {
    hide Decode, Encode, RFind;
    var enc := Encode(p.value);
    var field := p.key + ['='] + enc;
    EncodedHasNoSeparator(p.value);
    RFindBefore(p.key, '=', enc);
    Middle(p.key, ['='], enc);
    DecodeInvertsEncode(p.value);
  }

  /** A field without an equals sign is a key with an empty value; one without a key is dropped. */
  lemma FieldForms(text: string)
    ensures '=' !in text && text != "" ==> FieldPairs(text) == [Pair(text, "")]
    ensures '=' !in text ==> FieldPairs("=" + text) == []
  {
    hide Decode;
    if '=' !in text {
      RFindBefore("", '=', text);
      assert "" + ['='] + text == "=" + text;
    }
  }

  lemma {:induction false} FieldsRoundTrip(pairs: seq<Pair>)
    requires forall i :: 0 <= i < |pairs| ==> Carried(pairs[i]) && Octets(pairs[i].value)
    ensures AllPairs(Fields(pairs)) == pairs
    ensures forall i :: 0 <= i < |pairs| ==> '&' !in Fields(pairs)[i]
  {
    hide FieldPairs, Encode, Carried, Octets, AllPairs, Fields;
    if pairs == [] {
      NothingToPrint();
    } else {
      var init, last := pairs[..|pairs| - 1], pairs[|pairs| - 1];
      var field := last.key + "=" + Encode(last.value);
      FieldsRoundTrip(init);
      FieldRoundTrip(last);
      FieldsLast(pairs);
      LastField(Fields(init) + [field]);
      assert (Fields(init) + [field])[..|init|] == Fields(init);
      assert init + [last] == pairs;
    }
  }

  lemma FieldsLast(pairs: seq<Pair>)
    requires pairs != []
    ensures var last := pairs[|pairs| - 1];
      Fields(pairs) == Fields(pairs[..|pairs| - 1]) + [last.key + "=" + Encode(last.value)]
  {
    hide Encode;
  }

  lemma NothingToPrint()
    ensures Fields([]) == [] && AllPairs([]) == []
  {
  }

  /** Every key that is parsed is non-empty and free of the separator. */
  lemma {:induction false} ParsedKeys(fields: seq<string>)
    requires forall i :: 0 <= i < |fields| ==> '&' !in fields[i]
    ensures forall i :: 0 <= i < |AllPairs(fields)| ==> Carried(AllPairs(fields)[i])
  {
    hide Decode, RFind;
    if fields != [] {
      ParsedKeys(fields[..|fields| - 1]);
    }
  }

  lemma ParseNothing()
    ensures Parse(Print([])) == []
  {
    NoKey();
    assert Split("") == [""];
    assert AllPairs([""]) == AllPairs([]) + FieldPairs("");
  }

  /** Parsing a printed query gives back the pairs, in order, exactly when every key is non-empty
      and free of '&'; '=' is allowed in keys and anything in values. */
  lemma QueryRoundTrip(pairs: seq<Pair>)
    requires forall i :: 0 <= i < |pairs| ==> Octets(pairs[i].value)
    ensures Parse(Print(pairs)) == pairs <==> forall i :: 0 <= i < |pairs| ==> Carried(pairs[i])
  {
    hide AllPairs, Fields, Split, Join, Carried;
    if pairs == [] {
      ParseNothing();
      return;
    }
    if forall i :: 0 <= i < |pairs| ==> Carried(pairs[i]) {
      FieldsRoundTrip(pairs);
      SplitInvertsJoin(Fields(pairs));
    }
    JoinInvertsSplit(Print(pairs));
    ParsedKeys(Split(Print(pairs)));
  }
}
