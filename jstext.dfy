/** String operations over `string` (a sequence of Unicode scalar values).
    Two are JavaScript built-ins the widgets call: `String.prototype.trim`
    and `Number.prototype.toString(16)` on a non-negative integer. The
    third, splitting on a one-character separator (with its inverse,
    joining), is not called by the widgets: it is this model's way of
    deciding the email pattern. */
module JsText {

  // ---------------------------------------------------------------------
  // Whitespace and trim
  // ---------------------------------------------------------------------

  /** The characters ECMAScript's `trim` removes: the WhiteSpace production
      (tab, vertical tab, form feed, space, no-break space, byte order mark
      and the Unicode "Zs" space separators) and the LineTerminator
      production (line feed, carriage return, line and paragraph separator). */
  predicate IsWhitespace(c: char)
  {
    || c == '\t' || c == '\n' || c == '\U{000B}' || c == '\U{000C}' || c == '\r'
    || c == ' ' || c == '\U{00A0}' || c == '\U{1680}'
    || ('\U{2000}' <= c <= '\U{200A}')
    || c == '\U{2028}' || c == '\U{2029}' || c == '\U{202F}' || c == '\U{205F}'
    || c == '\U{3000}' || c == '\U{FEFF}'
  }

  predicate AllWhitespace(s: string)
  {
    forall i :: 0 <= i < |s| ==> IsWhitespace(s[i])
  }

  /** Drops leading whitespace: the result is the suffix of `s` that starts
      at the first character that is not whitespace. */
  function TrimStart(s: string): (r: string)
    ensures |r| <= |s| && r == s[|s| - |r|..]
    ensures AllWhitespace(s[..|s| - |r|])
    ensures r == [] || !IsWhitespace(r[0])
    decreases |s|
  {
    if s != [] && IsWhitespace(s[0]) then
      var r := TrimStart(s[1..]);
      assert s[1..][..|s| - 1 - |r|] == s[1..|s| - |r|];
      r
    else
      s
  }

  /** Drops trailing whitespace: the result is the prefix of `s` that ends
      at the last character that is not whitespace. */
  function TrimEnd(s: string): (r: string)
    ensures |r| <= |s| && r == s[..|r|]
    ensures AllWhitespace(s[|r|..])
    ensures r == [] || !IsWhitespace(r[|r| - 1])
    decreases |s|
  {
    if s != [] && IsWhitespace(s[|s| - 1]) then
      var r := TrimEnd(s[..|s| - 1]);
      assert s[..|s| - 1][|r|..] + [s[|s| - 1]] == s[|r|..];
      r
    else
      s
  }

  /** `s.trim()`: `s` with its leading and trailing whitespace removed. */
  function Trim(s: string): (r: string)
    ensures |r| <= |s|
    ensures r == [] || (!IsWhitespace(r[0]) && !IsWhitespace(r[|r| - 1]))
  {
    TrimEnd(TrimStart(s))
  }

  /** `trim` skips a whitespace prefix up to the first non-whitespace
      character. */
  lemma {:induction false} TrimStartSkips(w: string, u: string)
    requires AllWhitespace(w)
    requires u == [] || !IsWhitespace(u[0])
    ensures TrimStart(w + u) == u
    decreases |w|
  {
    if w == [] {
      assert w + u == u;
    } else {
      assert (w + u)[0] == w[0];
      assert (w + u)[1..] == w[1..] + u;
      TrimStartSkips(w[1..], u);
    }
  }

  /** `trim` skips a whitespace suffix back to the last non-whitespace
      character. */
  lemma {:induction false} TrimEndSkips(u: string, w: string)
    requires AllWhitespace(w)
    requires u == [] || !IsWhitespace(u[|u| - 1])
    ensures TrimEnd(u + w) == u
    decreases |w|
  {
    if w == [] {
      assert u + w == u;
    } else {
      var uw := u + w;
      assert uw[|uw| - 1] == w[|w| - 1];
      assert uw[..|uw| - 1] == u + w[..|w| - 1];
      TrimEndSkips(u, w[..|w| - 1]);
    }
  }

  /** Trimming a string padded with whitespace on both sides gives the
      string back, provided it neither begins nor ends with whitespace. */
  lemma TrimOfPadded(pre: string, t: string, post: string)
    requires AllWhitespace(pre) && AllWhitespace(post)
    requires t == [] || (!IsWhitespace(t[0]) && !IsWhitespace(t[|t| - 1]))
    ensures Trim(pre + t + post) == t
  {
    if t == [] {
      assert AllWhitespace(post[0..]);
      TrimStartSkips(pre + post, []);
      assert pre + t + post == (pre + post) + [];
    } else {
      assert (t + post)[0] == t[0];
      TrimStartSkips(pre, t + post);
      assert pre + t + post == pre + (t + post);
      TrimEndSkips(t, post);
    }
  }

  /** Trimming twice is trimming once. */
  lemma TrimIdempotent(s: string)
    ensures Trim(Trim(s)) == Trim(s)
  {
    var r := Trim(s);
    assert TrimStart(r) == r;
    assert TrimEnd(r) == r;
  }

  /** A string made only of whitespace (the empty string included) trims to
      the empty string, and only such a string does. */
  lemma TrimEmptyIffBlank(s: string)
    ensures Trim(s) == [] <==> AllWhitespace(s)
  {
    var t := TrimStart(s);
    if Trim(s) == [] {
      assert t[0..] == t;
      assert t == [];
      assert s[..|s|] == s;
    }
  }

  // ---------------------------------------------------------------------
  // Split and join on a single-character separator
  // ---------------------------------------------------------------------

  /** `parts.join(sep)` for a non-empty array of strings. */
  function Join(parts: seq<string>, sep: char): string
    requires |parts| >= 1
    decreases |parts|
  {
    if |parts| == 1 then parts[0] else parts[0] + [sep] + Join(parts[1..], sep)
  }

  predicate NoneContains(parts: seq<string>, sep: char)
  {
    forall i :: 0 <= i < |parts| ==> sep !in parts[i]
  }

  /** The maximal pieces of `s` between occurrences of `sep` (what
      JavaScript's `s.split(sep)` would give). There is always at least
      one piece (the empty string splits into `[""]`),
      joining the pieces gives `s` back, and no piece holds the separator. */
  function SplitOn(s: string, sep: char): (parts: seq<string>)
    ensures |parts| >= 1
    ensures Join(parts, sep) == s
    ensures NoneContains(parts, sep)
    decreases |s|
  {
    if s == [] then
      [[]]
    else if s[0] == sep then
      var rest := SplitOn(s[1..], sep);
      assert Join([[]] + rest, sep) == [sep] + Join(rest, sep) by {
        assert ([[]] + rest)[1..] == rest;
      }
      [[]] + rest
    else
      var rest := SplitOn(s[1..], sep);
      var parts := [[s[0]] + rest[0]] + rest[1..];
      assert parts[1..] == rest[1..];
      assert Join(parts, sep) == [s[0]] + Join(rest, sep);
      assert s == [s[0]] + s[1..];
      parts
  }

  /** Splitting undoes joining: whenever no piece holds the separator,
      splitting the joined pieces gives `parts` again. Together with the
      contract of SplitOn this says the split is the only such decomposition. */
  lemma {:induction false} SplitJoin(parts: seq<string>, sep: char)
    requires |parts| >= 1 && NoneContains(parts, sep)
    ensures SplitOn(Join(parts, sep), sep) == parts
    decreases |Join(parts, sep)|
  {
    var s := Join(parts, sep);
    if parts[0] == [] {
      if |parts| > 1 {
        assert s == [sep] + Join(parts[1..], sep);
        assert s[1..] == Join(parts[1..], sep);
        assert NoneContains(parts[1..], sep) by {
          forall i | 0 <= i < |parts| - 1 ensures sep !in parts[1..][i] {
            assert parts[1..][i] == parts[i + 1];
          }
        }
        SplitJoin(parts[1..], sep);
        assert parts == [[]] + parts[1..];
      }
    } else {
      var c := parts[0][0];
      var shorter := [parts[0][1..]] + parts[1..];
      assert c != sep by { assert c in parts[0]; }
      assert NoneContains(shorter, sep) by {
        forall i | 0 <= i < |shorter| ensures sep !in shorter[i] {
          if i > 0 {
            assert shorter[i] == parts[i];
          }
        }
      }
      assert shorter[1..] == parts[1..];
      assert Join(shorter, sep) == parts[0][1..] + (if |parts| == 1 then [] else [sep] + Join(parts[1..], sep));
      assert s == [c] + Join(shorter, sep) by {
        assert parts[0] == [c] + parts[0][1..];
      }
      assert s[1..] == Join(shorter, sep);
      SplitJoin(shorter, sep);
      var rest := SplitOn(s[1..], sep);
      assert rest == shorter;
      assert [[c] + rest[0]] + rest[1..] == parts by {
        assert [c] + parts[0][1..] == parts[0];
      }
    }
  }

  /** The separator occurs once fewer times in the joined string than there
      are pieces. */
  lemma {:induction false} JoinCount(parts: seq<string>, sep: char)
    requires |parts| >= 1 && NoneContains(parts, sep)
    ensures multiset(Join(parts, sep))[sep] == |parts| - 1
    decreases |parts|
  {
    assert multiset(parts[0])[sep] == 0;
    if |parts| > 1 {
      assert NoneContains(parts[1..], sep) by {
        forall i | 0 <= i < |parts| - 1 ensures sep !in parts[1..][i] {
          assert parts[1..][i] == parts[i + 1];
        }
      }
      JoinCount(parts[1..], sep);
      assert multiset(parts[0] + [sep] + Join(parts[1..], sep))
          == multiset(parts[0]) + multiset([sep]) + multiset(Join(parts[1..], sep));
    }
  }

  /** One piece fewer than the split has counts the separators in `s`. */
  lemma SplitCount(s: string, sep: char)
    ensures multiset(s)[sep] == |SplitOn(s, sep)| - 1
  {
    JoinCount(SplitOn(s, sep), sep);
  }

  // ---------------------------------------------------------------------
  // Hexadecimal formatting: Number.prototype.toString(16)
  // ---------------------------------------------------------------------

  const HexDigits: string := "0123456789abcdef"

  /** A lowercase hexadecimal digit, as `toString(16)` prints them. */
  predicate IsHexDigit(c: char)
  {
    ('0' <= c <= '9') || ('a' <= c <= 'f')
  }

  predicate AllHex(s: string)
  {
    forall i :: 0 <= i < |s| ==> IsHexDigit(s[i])
  }

  function DigitValue(c: char): (d: nat)
    requires IsHexDigit(c)
    ensures d < 16 && HexDigits[d] == c
  {
    if c <= '9' then (c - '0') as nat else (c - 'a') as nat + 10
  }

  lemma DigitOf(d: nat)
    requires d < 16
    ensures IsHexDigit(HexDigits[d]) && DigitValue(HexDigits[d]) == d
  {
  }

  /** The number a string of hexadecimal digits denotes (most significant
      digit first); the empty string denotes 0. */
  function HexValue(s: string): nat
    requires AllHex(s)
    decreases |s|
  {
    if s == [] then 0 else HexValue(s[..|s| - 1]) * 16 + DigitValue(s[|s| - 1])
  }

  function Pow16(k: nat): (p: nat)
    ensures p >= 1
  {
    if k == 0 then 1 else 16 * Pow16(k - 1)
  }

  /** `n.toString(16)` for a non-negative integer `n`: lowercase digits,
      most significant first, no leading zero except for `n == 0` itself.
      The digits denote `n`. */
  function ToHex(n: nat): (s: string)
    ensures |s| >= 1 && AllHex(s)
    ensures HexValue(s) == n
    ensures |s| == 1 || s[0] != '0'
    decreases n
  {
    if n < 16 then
      [HexDigits[n]]
    else
      var front := ToHex(n / 16);
      var s := front + [HexDigits[n % 16]];
      assert s[..|s| - 1] == front;
      DigitOf(n % 16);
      assert HexValue(s) == (n / 16) * 16 + n % 16;
      s
  }

  /** Reading a hexadecimal string from the front: the first digit weighs
      16 to the power of the number of digits after it. */
  lemma {:induction false} HexValueFront(s: string)
    requires |s| >= 1 && AllHex(s)
    ensures HexValue(s) == DigitValue(s[0]) * Pow16(|s| - 1) + HexValue(s[1..])
    decreases |s|
  {
    if |s| == 1 {
      assert s[..0] == [] && s[1..] == [];
    } else {
      var p := s[..|s| - 1];
      var c := s[|s| - 1];
      HexValueFront(p);
      assert s[1..][..|s| - 2] == p[1..];
      var a, w, h, d := DigitValue(p[0]), Pow16(|p| - 1), HexValue(p[1..]), DigitValue(c);
      assert s[0] == p[0];
      Regroup(HexValue(p), a, w, h, d, HexValue(s), HexValue(s[1..]), Pow16(|s| - 1));
    }
  }

  /** The arithmetic step of HexValueFront, on its own. */
  lemma Regroup(hp: int, a: int, w: int, h: int, d: int, hs: int, hs1: int, ws: int)
    requires hp == a * w + h && hs == hp * 16 + d && hs1 == h * 16 + d && ws == 16 * w
    ensures hs == a * ws + hs1
  {
  }

  /** A string of `k` hexadecimal digits denotes a number below 16^k. */
  lemma {:induction false} HexValueBound(s: string)
    requires AllHex(s)
    ensures HexValue(s) < Pow16(|s|)
    decreases |s|
  {
    if s != [] {
      HexValueBound(s[..|s| - 1]);
    }
  }

  lemma {:induction false} Pow16Monotone(j: nat, k: nat)
    requires j <= k
    ensures Pow16(j) <= Pow16(k)
    decreases k
  {
    if j < k {
      Pow16Monotone(j, k - 1);
    }
  }

  /** For `0x10000 <= n < 0x20000`, `n.toString(16)` has five digits, the
      first being `1`, and the other four denote `n - 0x10000`. */
  lemma FiveDigitHex(n: nat)
    requires 0x10000 <= n < 0x20000
    ensures |ToHex(n)| == 5 && ToHex(n)[0] == '1'
    ensures HexValue(ToHex(n)[1..]) == n - 0x10000
  {
    var s := ToHex(n);
    HexValueBound(s);
    if |s| <= 4 {
      Pow16Monotone(|s|, 4);
    }
    HexValueFront(s);
    var d := DigitValue(s[0]);
    assert d >= 1;
    if |s| >= 6 {
      Pow16Monotone(5, |s| - 1);
    }
    assert Pow16(4) == 0x10000;
    HexValueBound(s[1..]);
    assert d == 1;
  }
}
