/** A connection as its reader sees it: the bytes received so far and the bytes still to arrive.
    Reads may take in more than they were asked for. */
module ByteStream {
  import opened Sequences
  import opened Text

  const CRLF := "\r\n"
  const BLANK_LINE := "\r\n\r\n"

  /** `d` stands in `s` at `p`. */
  predicate At(s: string, d: string, p: nat) {
    p + |d| <= |s| && s[p..p + |d|] == d
  }

  /** The first position of `d` in `s` at or after `from`, or -1. */
  function FindText(s: string, d: string, from: nat): (r: int)
    requires from <= |s|
    ensures -1 <= r <= |s|
    ensures r >= 0 ==> from <= r && At(s, d, r)
    ensures forall p :: from <= p < (if r < 0 then |s| + 1 else r) ==> !At(s, d, p)
    decreases |s| - from
  {
    if At(s, d, from) then from
    else if from == |s| then -1
    else FindText(s, d, from + 1)
  }

  lemma AtPrefix(a: string, b: string, d: string, p: nat)
    requires p + |d| <= |a|
    ensures At(a + b, d, p) <==> At(a, d, p)
  {
    assert (a + b)[p..p + |d|] == a[p..p + |d|];
  }

  lemma FirstAt(s: string, d: string, p: nat)
    requires At(s, d, p) && forall q :: 0 <= q < p ==> !At(s, d, q)
    ensures FindText(s, d, 0) == p
  {
  }

  /** What is found in the bytes received is what would be found in all of them. */
  lemma FoundEarly(a: string, b: string, d: string)
    requires FindText(a, d, 0) >= 0
    ensures FindText(a + b, d, 0) == FindText(a, d, 0)
  {
    var p := FindText(a, d, 0);
    AtPrefix(a, b, d, p);
    forall q | 0 <= q < p
      ensures !At(a + b, d, q)
    {
      AtPrefix(a, b, d, q);
    }
    FirstAt(a + b, d, p);
  }

  class Buffer {
    var content: string
    var wire: string

    function Stream(): string
      reads this
    {
      content + wire
    }

    constructor (wire: string)
      ensures content == "" && this.wire == wire
    {
      content, this.wire := "", wire;
    }

    /** Some of the bytes under way arrive. */
    method Receive()
      requires wire != ""
      modifies this
      ensures Stream() == old(Stream()) && |wire| < old(|wire|) && old(content) <= content
    {
      var k :| 0 < k <= |wire|;
      Associate(content, wire[..k], wire[k..], "");
      assert wire == wire[..k] + wire[k..];
      content, wire := content + wire[..k], wire[k..];
    }

    /** `async_read_until`: `n` bytes lead up to the end of the first `d`. Nothing is received when
        it is there already. */
    method ReadUntil(d: string) returns (ok: bool, n: nat)
      modifies this
      ensures Stream() == old(Stream()) && old(content) <= content
      ensures ok <==> FindText(Stream(), d, 0) >= 0
      ensures ok ==> n == FindText(Stream(), d, 0) + |d| <= |content|
      ensures FindText(old(content), d, 0) >= 0 ==> content == old(content)
    {
      var p := FindText(content, d, 0);
      while p < 0 && wire != ""
        invariant Stream() == old(Stream()) && old(content) <= content
        invariant p == FindText(content, d, 0)
        invariant FindText(old(content), d, 0) >= 0 ==> content == old(content)
        decreases |wire|
      {
        Receive();
        p := FindText(content, d, 0);
      }
      if p < 0 {
        assert content + wire == content;
        return false, 0;
      }
      FoundEarly(content, wire, d);
      return true, p + |d|;
    }

    /** `async_read` with `transfer_exactly`. */
    method ReadExactly(n: nat) returns (ok: bool)
      modifies this
      ensures Stream() == old(Stream()) && ok == (n <= old(|wire|))
      ensures ok ==> |content| == old(|content|) + n && old(content) <= content
    {
      var k := if n <= |wire| then n else |wire|;
      Regrouped(content, wire, k);
      content, wire := content + wire[..k], wire[k..];
      return k == n;
    }

    /** `getline`. */
    method GetLine() returns (line: string)
      modifies this`content
      ensures var nl := Find(old(content), '\n', 0);
        if nl < 0 then line == old(content) && content == ""
        else line == old(content)[..nl] && content == old(content)[nl + 1..]
    {
      var nl := Find(content, '\n', 0);
      if nl < 0 {
        line, content := content, "";
      } else {
        line, content := content[..nl], content[nl + 1..];
      }
    }

    /** `read` into a buffer of `n` characters that are there. */
    method Take(n: nat) returns (data: string)
      requires n <= |content|
      modifies this`content
      ensures data == old(content)[..n] && content == old(content)[n..]
    {
      data, content := content[..n], content[n..];
    }

    /** `get`. */
    method Skip()
      modifies this`content
      ensures content == if old(content) == "" then "" else old(content)[1..]
    {
      if content != "" {
        content := content[1..];
      }
    }
  }

  lemma Regrouped(a: string, b: string, k: nat)
    requires k <= |b|
    ensures (a + b[..k]) + b[k..] == a + b
  {
  }
}
