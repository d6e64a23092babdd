/** Character searching as `std::string` does it. The "not found" position is -1,
    so that adding one to it gives 0, as it does for the source's unsigned `npos`. */
module Text {

  /** The first position of `c` in `s` at or after `from`, or -1. */
  function Find(s: string, c: char, from: nat): (r: int)
    ensures -1 <= r < |s|
    ensures r >= 0 ==> from <= r && s[r] == c
    ensures forall i :: from <= i < (if r < 0 then |s| else r) ==> s[i] != c
    decreases |s| - from
  {
    if from >= |s| then -1 else if s[from] == c then from else Find(s, c, from + 1)
  }

  /** The last position of `c` in `s`, or -1. */
  function RFind(s: string, c: char): (r: int)
    ensures -1 <= r < |s|
    ensures r >= 0 ==> s[r] == c
    ensures forall i :: r < i < |s| ==> s[i] != c
  {
    if s == "" then -1
    else if s[|s| - 1] == c then |s| - 1
    else RFind(s[..|s| - 1], c)
  }

  /** `s.substr(pos, len)` for a position inside the string: the length is cut at the end. */
  function Substr(s: string, pos: nat, len: nat): string
    requires pos <= |s|
  {
    if pos + len <= |s| then s[pos..pos + len] else s[pos..]
  }

  predicate IsSpace(c: char) {
    c == ' ' || ('\t' <= c && c <= '\r')
  }

  lemma FindAt(s: string, c: char, from: nat, k: nat)
    requires from <= k < |s| && s[k] == c && c !in s[from..k]
    ensures Find(s, c, from) == k
  {
    forall i | from <= i < k
      ensures s[i] != c
    {
      assert s[i] == s[from..k][i - from];
    }
  }

  lemma RFindAt(s: string, c: char, k: nat)
    requires k < |s| && s[k] == c && c !in s[k + 1..]
    ensures RFind(s, c) == k
  {
    forall i | k < i < |s|
      ensures s[i] != c
    {
      assert s[i] == s[k + 1..][i - k - 1];
    }
  }

  /** Searching from the start of a piece without `c` that is followed by `c`. */
  lemma FindPast(pre: string, a: string, tail: string, c: char)
    requires c !in a && tail != "" && tail[0] == c
    ensures Find(pre + a + tail, c, |pre|) == |pre| + |a|
  {
    var s := pre + a + tail;
    assert s[|pre|..|pre| + |a|] == a;
    FindAt(s, c, |pre|, |pre| + |a|);
  }

  /** Searching backwards over a piece without `c` that is preceded by `c`. */
  lemma RFindBefore(pre: string, c: char, a: string)
    requires c !in a
    ensures RFind(pre + [c] + a, c) == |pre|
  {
    var s := pre + [c] + a;
    assert s[|pre| + 1..] == a;
    RFindAt(s, c, |pre|);
  }

  lemma SubstrIsPrefix(s: string, pos: nat, len: nat)
    requires pos <= |s|
    ensures Substr(s, pos, len) <= s[pos..]
    ensures |Substr(s, pos, len)| == if pos + len <= |s| then len else |s| - pos
  {
  }

}
