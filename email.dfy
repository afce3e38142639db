/** `validateEmail` of the signup banner: the pattern
    `^([a-zA-Z0-9_.+-])+@(([a-zA-Z0-9-])+\.)+([a-zA-Z0-9]){2,40}$`
    applied to the trimmed input.

    Because no character class of the pattern admits `@`, and the classes
    after the `@` do not admit `.`, matching is decided by splitting: on `@`
    into a local part and a domain, then the domain on `.` into labels.
    ValidateEmail is written that way; RegexLanguage describes the strings
    the pattern matches, piece by piece as the pattern is written, and
    PatternMatchesRegex proves the two agree. */
module EmailValidation {
  import opened JsText

  predicate IsAlphaNum(c: char)
  {
    ('a' <= c <= 'z') || ('A' <= c <= 'Z') || ('0' <= c <= '9')
  }

  /** `[a-zA-Z0-9_.+-]` */
  predicate IsLocalChar(c: char)
  {
    IsAlphaNum(c) || c == '_' || c == '.' || c == '+' || c == '-'
  }

  /** `[a-zA-Z0-9-]` */
  predicate IsLabelChar(c: char)
  {
    IsAlphaNum(c) || c == '-'
  }

  /** `([a-zA-Z0-9_.+-])+` */
  predicate IsLocalPart(s: string)
  {
    |s| >= 1 && forall i :: 0 <= i < |s| ==> IsLocalChar(s[i])
  }

  /** `([a-zA-Z0-9-])+` */
  predicate IsLabel(s: string)
  {
    |s| >= 1 && forall i :: 0 <= i < |s| ==> IsLabelChar(s[i])
  }

  /** `([a-zA-Z0-9]){2,40}` */
  predicate IsFinalLabel(s: string)
  {
    2 <= |s| <= 40 && forall i :: 0 <= i < |s| ==> IsAlphaNum(s[i])
  }

  // ---------------------------------------------------------------------
  // The pattern as written
  // ---------------------------------------------------------------------

  /** `(label\.)+` for the given labels: each label followed by a dot. */
  function Dotted(labels: seq<string>): string
    decreases |labels|
  {
    if labels == [] then [] else labels[0] + "." + Dotted(labels[1..])
  }

  /** The string the pattern's pieces spell out. */
  function Assemble(local: string, labels: seq<string>, last: string): string
  {
    local + "@" + Dotted(labels) + last
  }

  predicate WellFormedPieces(local: string, labels: seq<string>, last: string)
  {
    && IsLocalPart(local)
    && |labels| >= 1
    && (forall i :: 0 <= i < |labels| ==> IsLabel(labels[i]))
    && IsFinalLabel(last)
  }

  /** The strings the pattern matches, anchored at both ends. */
  ghost predicate RegexLanguage(s: string)
  {
    exists local, labels, last ::
      WellFormedPieces(local, labels, last) && Assemble(local, labels, last) == s
  }

  // ---------------------------------------------------------------------
  // The pattern as a split
  // ---------------------------------------------------------------------

  /** The part after the `@`: at least two dot-separated pieces, every
      piece but the last a label, the last a final label. */
  predicate IsDomain(d: string)
  {
    var labels := SplitOn(d, '.');
    && |labels| >= 2
    && (forall i :: 0 <= i < |labels| - 1 ==> IsLabel(labels[i]))
    && IsFinalLabel(labels[|labels| - 1])
  }

  /** Exactly one `@`, a local part before it and a domain after it. */
  predicate MatchesPattern(s: string)
  {
    var parts := SplitOn(s, '@');
    |parts| == 2 && IsLocalPart(parts[0]) && IsDomain(parts[1])
  }

  lemma {:induction false} DottedJoin(labels: seq<string>, last: string)
    ensures Dotted(labels) + last == Join(labels + [last], '.')
    decreases |labels|
  {
    if labels != [] {
      DottedJoin(labels[1..], last);
      assert (labels + [last])[1..] == labels[1..] + [last];
    }
  }

  /** Every piece of a well-formed match is free of `@`, and every label is
      free of `.`. */
  lemma PiecesAvoidSeparators(local: string, labels: seq<string>, last: string)
    requires WellFormedPieces(local, labels, last)
    ensures '@' !in local && '@' !in Dotted(labels) + last
    ensures NoneContains(labels + [last], '.')
  {
    DottedJoin(labels, last);
    var pieces := labels + [last];
    assert NoneContains(pieces, '@') by {
      forall i | 0 <= i < |pieces| ensures '@' !in pieces[i] {
        if i < |labels| {
          assert IsLabel(pieces[i]);
        } else {
          assert pieces[i] == last;
        }
      }
    }
    JoinCount(pieces, '@');
    assert forall i :: 0 <= i < |pieces| ==> '.' !in pieces[i] by {
      forall i | 0 <= i < |pieces| ensures '.' !in pieces[i] {
        if i < |labels| {
          assert IsLabel(pieces[i]);
        } else {
          assert pieces[i] == last;
        }
      }
    }
  }

  /** The split reading and the pattern describe the same strings. */
  lemma PatternMatchesRegex(s: string)
    ensures MatchesPattern(s) <==> RegexLanguage(s)
  {
    if MatchesPattern(s) {
      var parts := SplitOn(s, '@');
      var pieces := SplitOn(parts[1], '.');
      var n := |pieces|;
      var labels, last := pieces[..n - 1], pieces[n - 1];
      assert pieces == labels + [last];
      DottedJoin(labels, last);
      assert Join(parts[1..], '@') == parts[1];
      assert s == parts[0] + "@" + parts[1];
      assert WellFormedPieces(parts[0], labels, last);
      assert Assemble(parts[0], labels, last) == s;
    }
    if RegexLanguage(s) {
      var local, labels, last :| WellFormedPieces(local, labels, last) && Assemble(local, labels, last) == s;
      var domain := Dotted(labels) + last;
      PiecesAvoidSeparators(local, labels, last);
      assert NoneContains([local, domain], '@');
      assert Join([local, domain], '@') == s;
      SplitJoin([local, domain], '@');
      DottedJoin(labels, last);
      SplitJoin(labels + [last], '.');
      var pieces := labels + [last];
      assert SplitOn(domain, '.') == pieces;
      assert forall i :: 0 <= i < |pieces| - 1 ==> IsLabel(pieces[i]) by {
        forall i | 0 <= i < |pieces| - 1 ensures IsLabel(pieces[i]) {
          assert pieces[i] == labels[i];
        }
      }
    }
  }

  // ---------------------------------------------------------------------
  // validateEmail
  // ---------------------------------------------------------------------

  /** `validateEmail(v)`: the trimmed input matches the pattern. */
  function ValidateEmail(v: string): (ok: bool)
    ensures ok <==> RegexLanguage(Trim(v))
  {
    PatternMatchesRegex(Trim(v));
    MatchesPattern(Trim(v))
  }

  /** Validation ignores surrounding whitespace. */
  lemma TrimInvariance(v: string)
    ensures ValidateEmail(v) == ValidateEmail(Trim(v))
  {
    TrimIdempotent(v);
  }

  /** The empty string and whitespace-only strings are rejected. */
  lemma BlankRejected(v: string)
    requires AllWhitespace(v)
    ensures !ValidateEmail(v)
  {
    TrimEmptyIffBlank(v);
    assert SplitOn([], '@') == [[]];
  }

  /** What an accepted address looks like once trimmed: exactly one `@`,
      a local part before it, and after it labels and a final label of 2 to
      40 letters or digits, separated by dots, with at least one dot. */
  lemma AcceptedShape(v: string)
    requires ValidateEmail(v)
    ensures var t := Trim(v);
            && multiset(t)['@'] == 1
            && exists local, labels, last ::
                 && t == local + "@" + Dotted(labels) + last
                 && IsLocalPart(local) && |labels| >= 1
                 && (forall i :: 0 <= i < |labels| ==> IsLabel(labels[i]))
                 && IsFinalLabel(last)
  {
    var t := Trim(v);
    SplitCount(t, '@');
    var local, labels, last :| WellFormedPieces(local, labels, last) && Assemble(local, labels, last) == t;
    assert t == local + "@" + Dotted(labels) + last;
  }

  /** Any string of the form local@label.….label.last, with the final
      label 2 to 40 letters or digits, is accepted, with or without
      surrounding whitespace. */
  lemma WellFormedAccepted(pre: string, local: string, labels: seq<string>, last: string, post: string)
    requires WellFormedPieces(local, labels, last)
    requires AllWhitespace(pre) && AllWhitespace(post)
    ensures ValidateEmail(pre + local + "@" + Dotted(labels) + last + post)
  {
    var t := Assemble(local, labels, last);
    var v := pre + local + "@" + Dotted(labels) + last + post;
    assert v == pre + t + post;
    AssembledEnds(local, labels, last);
    TrimOfPadded(pre, t, post);
    assert Trim(v) == t;
    assert RegexLanguage(t);
  }

  /** A well-formed match begins with a local-part character and ends with
      a letter or digit, so neither end is whitespace. */
  lemma AssembledEnds(local: string, labels: seq<string>, last: string)
    requires WellFormedPieces(local, labels, last)
    ensures var t := Assemble(local, labels, last);
            t != [] && !IsWhitespace(t[0]) && !IsWhitespace(t[|t| - 1])
  {
    var t := Assemble(local, labels, last);
    assert t[0] == local[0];
    assert t[|t| - 1] == last[|last| - 1];
  }

  /** An input with no `@`, or with more than one, is rejected. */
  lemma AtCountRejected(v: string)
    requires multiset(Trim(v))['@'] != 1
    ensures !ValidateEmail(v)
  {
    SplitCount(Trim(v), '@');
  }

  /** An input with no `@` at all is rejected. */
  lemma MissingAtRejected(v: string)
    requires '@' !in v
    ensures !ValidateEmail(v)
  {
    var t := TrimStart(v);
    assert '@' !in t by {
      assert t == v[|v| - |t|..];
    }
    assert '@' !in Trim(v) by {
      assert Trim(v) == t[..|Trim(v)|];
    }
    AtCountRejected(v);
  }

  /** A domain without a dot is rejected. */
  lemma DotlessDomainRejected(v: string, local: string, domain: string)
    requires Trim(v) == local + "@" + domain
    requires '.' !in domain
    ensures !ValidateEmail(v)
  {
    var t := Trim(v);
    if '@' !in local && '@' !in domain {
      DotlessSplit(t, local, domain);
    } else {
      assert multiset(t) == multiset(local) + multiset(['@']) + multiset(domain);
      AtCountRejected(v);
    }
  }

  /** With a single `@`, a dotless domain is what the split sees after it,
      and it splits on `.` into one piece only. */
  lemma DotlessSplit(t: string, local: string, domain: string)
    requires t == local + "@" + domain
    requires '@' !in local && '@' !in domain && '.' !in domain
    ensures !MatchesPattern(t)
  {
    assert NoneContains([local, domain], '@');
    assert Join([local, domain], '@') == t;
    SplitJoin([local, domain], '@');
    assert Join([domain], '.') == domain;
    SplitJoin([domain], '.');
  }

  /** The text after the last occurrence of `c` in `s` (all of `s` when
      `c` does not occur); as a reading aid only, this is what JavaScript's
      `s.split(c).pop()` would give. */
  function AfterLast(s: string, c: char): (r: string)
    ensures c !in r
    decreases |s|
  {
    if s == [] || s[|s| - 1] == c then [] else AfterLast(s[..|s| - 1], c) + [s[|s| - 1]]
  }

  lemma {:induction false} AfterLastOf(x: string, y: string, c: char)
    requires c !in y
    ensures AfterLast(x + [c] + y, c) == y
    decreases |y|
  {
    var s := x + [c] + y;
    if y != [] {
      var y0 := y[..|y| - 1];
      assert s[|s| - 1] == y[|y| - 1];
      assert s[..|s| - 1] == x + [c] + y0;
      AfterLastOf(x, y0, c);
      assert y == y0 + [y[|y| - 1]];
    }
  }

  /** In an accepted address the text after the last dot is a final
      label: 2 to 40 letters or digits. */
  lemma AcceptedFinalLabel(v: string)
    requires ValidateEmail(v)
    ensures IsFinalLabel(AfterLast(Trim(v), '.'))
  {
    var t := Trim(v);
    var local, labels, last :| WellFormedPieces(local, labels, last) && Assemble(local, labels, last) == t;
    PiecesAvoidSeparators(local, labels, last);
    assert (labels + [last])[|labels|] == last;
    var d := Dotted(labels);
    DottedEndsWithDot(labels);
    assert t == (local + "@" + d[..|d| - 1]) + "." + last by {
      assert d == d[..|d| - 1] + ".";
    }
    AfterLastOf(local + "@" + d[..|d| - 1], last, '.');
  }

  /** A final label (the text after the last dot) shorter than 2 or longer
      than 40 characters is rejected. */
  lemma FinalLabelLengthRejected(v: string, prefix: string, last: string)
    requires Trim(v) == prefix + "." + last
    requires '.' !in last
    requires |last| < 2 || |last| > 40
    ensures !ValidateEmail(v)
  {
    AfterLastOf(prefix, last, '.');
    if ValidateEmail(v) {
      AcceptedFinalLabel(v);
    }
  }

  lemma {:induction false} DottedEndsWithDot(labels: seq<string>)
    requires |labels| >= 1
    ensures |Dotted(labels)| >= 1 && Dotted(labels)[|Dotted(labels)| - 1] == '.'
    decreases |labels|
  {
    if |labels| > 1 {
      DottedEndsWithDot(labels[1..]);
    }
  }

  // The worked examples take their literal as a parameter fixed by
  // `requires`, which keeps their proofs stable across solver seeds.

  /** Worked example: a plain address is accepted. */
  lemma PlainAddressAccepted(v: string)
    requires v == "user@example.com"
    ensures ValidateEmail(v)
  {
    var local, labels, last := "user", ["example"], "com";
    assert Dotted(labels) == "example.";
    assert [] + local + "@" + Dotted(labels) + last + [] == v;
    WellFormedAccepted([], local, labels, last, []);
  }

  /** Worked example: padding with spaces does not change the verdict. */
  lemma PaddedAddressAccepted(padded: string, bare: string)
    requires padded == "  a@b.co  " && bare == "a@b.co"
    ensures ValidateEmail(padded) && ValidateEmail(bare)
  {
    var pad, local, labels, last := "  ", "a", ["b"], "co";
    assert Dotted(labels) == "b.";
    assert pad + local + "@" + Dotted(labels) + last + pad == padded;
    assert [] + local + "@" + Dotted(labels) + last + [] == bare;
    WellFormedAccepted(pad, local, labels, last, pad);
    WellFormedAccepted([], local, labels, last, []);
  }

  /** Worked example: a string with no `@` is rejected. */
  lemma NoAtRejected(v: string)
    requires v == "not-an-email"
    ensures !ValidateEmail(v)
  {
    assert '@' !in v;
    MissingAtRejected(v);
  }
}
