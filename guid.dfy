/** The anonymous identifier of the signup banner (`generateGuid` and its
    inner `s4`). `Math.random()` is replaced by its effect on each group:
    for a random double `x`, the group is given as the integer
    `r = floor((1 + x) * 0x10000) mod 0x10000`, a number in `[0, 0x10000)`,
    where `1 + x` is the rounded double sum. The source's
    `.toString(16).substring(1)` then yields four hex digits denoting `r`,
    including `"0000"` when the sum rounds up to `2`. */
module Guid {
  import opened JsText

  /** One random draw per group: eight numbers below 0x10000. */
  predicate ValidDraws(rs: seq<nat>)
  {
    |rs| == 8 && forall i :: 0 <= i < 8 ==> rs[i] < 0x10000
  }

  /** `s4()`: `(0x10000 + r).toString(16).substring(1)`. The leading `1`
      of the five-digit hexadecimal form is dropped, leaving exactly four
      lowercase hexadecimal digits, zero-padded, that denote `r`. */
  function S4(r: nat): (s: string)
    requires r < 0x10000
    ensures |s| == 4 && AllHex(s)
    ensures HexValue(s) == r
  {
    FiveDigitHex(0x10000 + r);
    ToHex(0x10000 + r)[1..]
  }

  /** `s4()` is injective: different draws give different groups. */
  lemma S4Injective(r1: nat, r2: nat)
    requires r1 < 0x10000 && r2 < 0x10000
    ensures S4(r1) == S4(r2) <==> r1 == r2
  {
  }

  /** The 8-4-4-4-12 layout: 36 characters, `-` at indices 8, 13, 18 and
      23, lowercase hexadecimal digits everywhere else. */
  predicate GuidShaped(g: string)
  {
    && |g| == 36
    && g[8] == '-' && g[13] == '-' && g[18] == '-' && g[23] == '-'
    && AllHex(g[0..8]) && AllHex(g[9..13]) && AllHex(g[14..18])
    && AllHex(g[19..23]) && AllHex(g[24..36])
  }

  /** `generateGuid()`: eight groups, laid out 8-4-4-4-12. */
  function GenerateGuid(rs: seq<nat>): (g: string)
    requires ValidDraws(rs)
    ensures GuidShaped(g)
  {
    var a, b, c, d := S4(rs[0]) + S4(rs[1]), S4(rs[2]), S4(rs[3]), S4(rs[4]);
    var e := S4(rs[5]) + S4(rs[6]) + S4(rs[7]);
    var g := a + "-" + b + "-" + c + "-" + d + "-" + e;
    assert g[0..8] == a && g[9..13] == b && g[14..18] == c;
    assert g[19..23] == d && g[24..36] == e;
    g
  }

  /** The numeric value of one four-digit group. */
  function GroupValue(s: string): (r: nat)
    requires |s| == 4 && AllHex(s)
    ensures r < 0x10000
  {
    HexValueBound(s);
    HexValue(s)
  }

  /** Both halves of a hexadecimal string are hexadecimal. */
  lemma SubGroups(s: string, k: nat)
    requires AllHex(s) && k <= |s|
    ensures AllHex(s[..k]) && AllHex(s[k..])
  {
    assert forall i :: 0 <= i < |s| - k ==> s[k..][i] == s[k + i];
  }

  /** Reads the eight groups of a token back as numbers: the inverse of
      GenerateGuid. */
  function GuidDraws(g: string): (rs: seq<nat>)
    requires GuidShaped(g)
    ensures ValidDraws(rs)
  {
    SubGroups(g[0..8], 4);
    SubGroups(g[24..36], 4);
    SubGroups(g[24..36], 8);
    assert g[0..4] == g[0..8][..4] && g[4..8] == g[0..8][4..];
    assert g[24..28] == g[24..36][..4] && g[28..36] == g[24..36][4..];
    assert g[24..32] == g[24..36][..8] && g[32..36] == g[24..36][8..];
    SubGroups(g[24..32], 4);
    assert g[28..32] == g[24..32][4..];
    [GroupValue(g[0..4]), GroupValue(g[4..8]), GroupValue(g[9..13]), GroupValue(g[14..18]),
     GroupValue(g[19..23]), GroupValue(g[24..28]), GroupValue(g[28..32]), GroupValue(g[32..36])]
  }

  /** The token determines the draws it was made from: reading the groups
      back gives the draws, so distinct draws give distinct tokens. */
  lemma GuidRoundTrip(rs: seq<nat>)
    requires ValidDraws(rs)
    ensures GuidDraws(GenerateGuid(rs)) == rs
  {
    var g := GenerateGuid(rs);
    assert g == S4(rs[0]) + S4(rs[1]) + "-" + S4(rs[2]) + "-" + S4(rs[3]) + "-" + S4(rs[4]) + "-"
              + S4(rs[5]) + S4(rs[6]) + S4(rs[7]);
    assert g[0..4] == S4(rs[0]);
    assert g[4..8] == S4(rs[1]);
    assert g[9..13] == S4(rs[2]);
    assert g[14..18] == S4(rs[3]);
    assert g[19..23] == S4(rs[4]);
    assert g[24..28] == S4(rs[5]);
    assert g[28..32] == S4(rs[6]);
    assert g[32..36] == S4(rs[7]);
  }

  lemma GuidInjective(rs1: seq<nat>, rs2: seq<nat>)
    requires ValidDraws(rs1) && ValidDraws(rs2)
    ensures GenerateGuid(rs1) == GenerateGuid(rs2) <==> rs1 == rs2
  {
    if GenerateGuid(rs1) == GenerateGuid(rs2) {
      GuidRoundTrip(rs1);
      GuidRoundTrip(rs2);
    }
  }
}
