/** Socket addresses as objects whose fields are assigned one after the other. */
module SocketClass {
  import opened Text
  import opened Numerals
  import opened SocketCodec

  /** `ip1` to `ip8` are kept in `ip`, at 0 to 7; the first four of them serve a v4 address. */
  class Address {
    const ip: array<nat>
    var port: nat

    constructor ()
      ensures fresh(ip) && ip.Length == 8
    {
      ip := new nat[8];
      port := 0;
    }

    /** `setSockFrom`; false where a piece would start past the end, which throws. */
    method SetFrom(src: string) returns (ok: bool)
      requires ip.Length == 8
      modifies this, ip
      ensures match SetSockFrom(src)
        case Ok(r) => ok && ip[..4] == r.0 && port == r.1
        case _ => !ok
    {
      hide HexPort, HexAt;
      port := HexPort(src);
      ip[3] := HexAt(src, 0);
      if 2 > |src| { return false; }
      ip[2] := HexAt(src, 2);
      if 4 > |src| { return false; }
      ip[1] := HexAt(src, 4);
      if 6 > |src| { return false; }
      ip[0] := HexAt(src, 6);
      return true;
    }

    /** `setSockFrom6`: in each 32-bit word the second pair of bytes comes first. */
    method SetFrom6(src: string) returns (ok: bool)
      requires ip.Length == 8
      modifies this, ip
      ensures match SetSockFrom6(src)
        case Ok(r) => ok && ip[..] == r.0 && port == r.1
        case _ => !ok
    {
      hide HexPort, SwappedAt;
      port := HexPort(src);
      if |src| < 2 { return false; }
      ip[1] := SwappedAt(src, 0);
      if |src| < 6 { return false; }
      ip[0] := SwappedAt(src, 4);
      if |src| < 10 { return false; }
      ip[3] := SwappedAt(src, 8);
      if |src| < 14 { return false; }
      ip[2] := SwappedAt(src, 12);
      if |src| < 18 { return false; }
      ip[5] := SwappedAt(src, 16);
      if |src| < 22 { return false; }
      ip[4] := SwappedAt(src, 20);
      if |src| < 26 { return false; }
      ip[7] := SwappedAt(src, 24);
      if |src| < 30 { return false; }
      ip[6] := SwappedAt(src, 28);
      return true;
    }

    /** The v6 branch of the constructor from text: each group is read from behind the last colon. */
    method SetFromText6(text: string)
      requires ip.Length == 8
      modifies ip
      ensures ip[..] == HexGroups(text, -1, 8)
    {
      hide Narrow, Strtoul, Piece, Find, HexGroups;
      var g1, p1 := NextGroup(text, -1, 8);
      var g2, p2 := NextGroup(text, p1, 7);
      var g3, p3 := NextGroup(text, p2, 6);
      var g4, p4 := NextGroup(text, p3, 5);
      var g5, p5 := NextGroup(text, p4, 4);
      var g6, p6 := NextGroup(text, p5, 3);
      var g7, p7 := NextGroup(text, p6, 2);
      var g8 := Narrow(Strtoul(text[p7 + 1..], 16));
      LastRead(text, p7);
      InOrder(g1, g2, g3, g4, g5, g6, g7, g8);
      ip[0], ip[1], ip[2], ip[3], ip[4], ip[5], ip[6], ip[7] := g1, g2, g3, g4, g5, g6, g7, g8;
      assert ip[..] == [g1, g2, g3, g4, g5, g6, g7, g8];
    }
  }

  lemma InOrder(a: nat, b: nat, c: nat, d: nat, e: nat, f: nat, g: nat, h: nat)
    ensures [a] + ([b] + ([c] + ([d] + ([e] + ([f] + ([g] + [h])))))) == [a, b, c, d, e, f, g, h]
  {
  }

  method NextGroup(text: string, pos: int, k: nat) returns (group: nat, next: int)
    requires -1 <= pos && pos + 1 <= |text| && k >= 2
    ensures -1 <= next && next + 1 <= |text|
    ensures HexGroups(text, pos, k) == [group] + HexGroups(text, next, k - 1)
  {
    group := Narrow(Strtoul(Piece(text, pos + 1), 16));
    next := Find(text, ':', pos + 1);
  }

  lemma LastRead(text: string, pos: int)
    requires -1 <= pos && pos + 1 <= |text|
    ensures HexGroups(text, pos, 1) == [Narrow(Strtoul(text[pos + 1..], 16))]
  {
  }
}
