/**
 * The string operations the generator relies on, with Python's meaning:
 * `str.strip()`, `str.split('\n')`, `sep.join(parts)`, `str.startswith`,
 * `str(int)` and `xml.sax.saxutils.escape` with its default entities.
 */
module Text {

  // ---------------------------------------------------------------------------
  // Whitespace and strip()

  /** The characters `str.strip()` removes from a byte string. */
  predicate IsSpace(c: char) {
    c == ' ' || c == '\t' || c == '\n' || c == '\r' || c as int == 11 || c as int == 12
  }

  predicate AllSpace(s: string) {
    forall i :: 0 <= i < |s| ==> IsSpace(s[i])
  }

  /** Number of leading whitespace characters of `s`. */
  function LeadingSpace(s: string): (n: nat)
    ensures n <= |s|
  {
    if s == [] || !IsSpace(s[0]) then 0 else 1 + LeadingSpace(s[1..])
  }

  /** `LeadingSpace` counts whitespace, and stops at the first other character. */
  lemma {:induction false} LeadingSpaceSpec(s: string)
    ensures forall k :: 0 <= k < LeadingSpace(s) ==> IsSpace(s[k])
    ensures LeadingSpace(s) == |s| || !IsSpace(s[LeadingSpace(s)])
  {
    if s != [] && IsSpace(s[0]) {
      LeadingSpaceSpec(s[1..]);
      assert forall k :: 1 <= k < |s| ==> s[k] == s[1..][k - 1];
    }
  }

  /** Number of trailing whitespace characters of `s`. */
  function TrailingSpace(s: string): (n: nat)
    ensures n <= |s|
  {
    if s == [] || !IsSpace(s[|s| - 1]) then 0 else 1 + TrailingSpace(s[..|s| - 1])
  }

  /** `TrailingSpace` counts whitespace, and stops at the last other character. */
  lemma {:induction false} TrailingSpaceSpec(s: string)
    ensures forall k :: |s| - TrailingSpace(s) <= k < |s| ==> IsSpace(s[k])
    ensures TrailingSpace(s) == |s| || !IsSpace(s[|s| - TrailingSpace(s) - 1])
  {
    if s != [] && IsSpace(s[|s| - 1]) {
      TrailingSpaceSpec(s[..|s| - 1]);
    }
  }

  /** Python's `s.strip()`: `s` without its leading and trailing whitespace. */
  function Strip(s: string): (r: string)
    ensures |r| <= |s|
  {
    var i := LeadingSpace(s);
    s[i..|s| - TrailingSpace(s[i..])]
  }

  /** What `Strip` keeps is a slice of `s` that neither starts nor ends with whitespace, and what it drops is whitespace. */
  lemma StripIsTrimmedSlice(s: string)
    ensures var r := Strip(s);
            |r| == 0 || (!IsSpace(r[0]) && !IsSpace(r[|r| - 1]))
    ensures exists i, j :: 0 <= i <= j <= |s| && Strip(s) == s[i..j] && AllSpace(s[..i]) && AllSpace(s[j..])
  {
    var i := LeadingSpace(s);
    var u := s[i..];
    var t := TrailingSpace(u);
    var j := |s| - t;
    LeadingSpaceSpec(s);
    TrailingSpaceSpec(u);
    var r := Strip(s);
    assert r == s[i..j];
    if |r| > 0 {
      assert r[0] == s[i];
      assert r[|r| - 1] == u[|u| - t - 1];
    }
    assert AllSpace(s[..i]);
    assert AllSpace(s[j..]) by {
      forall k | 0 <= k < |s| - j ensures IsSpace(s[j..][k]) {
        assert s[j..][k] == u[|u| - t + k];
      }
    }
  }

  /** Leading whitespace is dropped by `strip()`. */
  lemma {:induction false} StripIndented(indent: string, core: string)
    requires AllSpace(indent)
    requires |core| > 0 && !IsSpace(core[0]) && !IsSpace(core[|core| - 1])
    ensures Strip(indent + core) == core
  {
    var s := indent + core;
    LeadingOfIndented(indent, core);
    assert s[|indent|..] == core;
  }

  lemma {:induction false} LeadingOfIndented(indent: string, core: string)
    requires AllSpace(indent)
    requires |core| > 0 && !IsSpace(core[0])
    ensures LeadingSpace(indent + core) == |indent|
  {
    if indent != [] {
      assert (indent + core)[1..] == indent[1..] + core;
      LeadingOfIndented(indent[1..], core);
    } else {
      assert indent + core == core;
    }
  }

  /** A string that neither starts nor ends with whitespace is its own strip. */
  lemma StripOfTrimmed(s: string)
    requires |s| > 0 && !IsSpace(s[0]) && !IsSpace(s[|s| - 1])
    ensures Strip(s) == s
  {
  }

  /** Stripping leaves nothing exactly when the string is all whitespace. */
  lemma StripEmptyIffAllSpace(s: string)
    ensures |Strip(s)| == 0 <==> AllSpace(s)
  {
    var i := LeadingSpace(s);
    LeadingSpaceSpec(s);
    TrailingSpaceSpec(s[i..]);
    if !AllSpace(s) {
      var k :| 0 <= k < |s| && !IsSpace(s[k]);
      assert i <= k;
      var t := TrailingSpace(s[i..]);
      assert s[k] == s[i..][k - i];
      assert k < |s| - t;
    }
  }

  // ---------------------------------------------------------------------------
  // startswith, split and join

  predicate StartsWith(s: string, prefix: string) {
    |prefix| <= |s| && s[..|prefix|] == prefix
  }

  /** Python's `s.split(c)` for a one-character separator: never empty, no part holds `c`. */
  function Split(s: string, c: char): (parts: seq<string>)
    ensures |parts| >= 1
  {
    if s == [] then [[]]
    else
      var rest := Split(s[1..], c);
      if s[0] == c then [[]] + rest
      else [[s[0]] + rest[0]] + rest[1..]
  }

  /** No part of `Split(s, c)` holds the separator. */
  lemma {:induction false} SplitPartsExclude(s: string, c: char)
    ensures forall k :: 0 <= k < |Split(s, c)| ==> c !in Split(s, c)[k]
  {
    if s != [] {
      SplitPartsExclude(s[1..], c);
    }
  }

  /** Python's `sep.join(parts)`. */
  function Join(parts: seq<string>, sep: string): string {
    if |parts| == 0 then []
    else if |parts| == 1 then parts[0]
    else parts[0] + sep + Join(parts[1..], sep)
  }

  /** `s` with every occurrence of `c` replaced by `by`. */
  function ReplaceChar(s: string, c: char, with: string): string {
    if s == [] then []
    else (if s[0] == c then with else [s[0]]) + ReplaceChar(s[1..], c, with)
  }

  /** A replacement without `c` leaves no `c` behind, and text without `c` is unchanged. */
  lemma {:induction false} ReplaceCharFacts(s: string, c: char, with: string)
    ensures c !in with ==> c !in ReplaceChar(s, c, with)
    ensures c !in s ==> ReplaceChar(s, c, with) == s
  {
    if s != [] {
      ReplaceCharFacts(s[1..], c, with);
      assert c !in s ==> c !in s[1..];
    }
  }

  lemma JoinConsFirst(first: string, rest: seq<string>, sep: string)
    requires |rest| >= 1
    ensures Join([first] + rest, sep) == first + sep + Join(rest, sep)
  {
    assert ([first] + rest)[1..] == rest;
  }

  /** Extending the first part of a join extends the joined text at the front. */
  lemma JoinExtendFirst(x: string, rest: seq<string>, sep: string)
    requires |rest| >= 1
    ensures Join([x + rest[0]] + rest[1..], sep) == x + Join(rest, sep)
  {
    var parts := [x + rest[0]] + rest[1..];
    if |rest| == 1 {
      assert parts == [x + rest[0]];
    } else {
      assert parts[1..] == rest[1..];
      assert Join(parts, sep) == x + rest[0] + sep + Join(rest[1..], sep);
      assert Join(rest, sep) == rest[0] + sep + Join(rest[1..], sep);
    }
  }

  /** Joining the parts of a split with `sep` replaces each separator by `sep`. */
  lemma {:induction false} JoinSplit(s: string, c: char, sep: string)
    ensures Join(Split(s, c), sep) == ReplaceChar(s, c, sep)
  {
    if s != [] {
      var rest := Split(s[1..], c);
      JoinSplit(s[1..], c, sep);
      assert Join(rest, sep) == ReplaceChar(s[1..], c, sep);
      if s[0] == c {
        assert Split(s, c) == [[]] + rest;
        JoinConsFirst([], rest, sep);
        assert ReplaceChar(s, c, sep) == sep + ReplaceChar(s[1..], c, sep);
      } else {
        assert Split(s, c) == [[s[0]] + rest[0]] + rest[1..];
        JoinExtendFirst([s[0]], rest, sep);
        assert ReplaceChar(s, c, sep) == [s[0]] + ReplaceChar(s[1..], c, sep);
      }
    }
  }

  lemma {:induction false} ReplaceIdentity(s: string, c: char)
    ensures ReplaceChar(s, c, [c]) == s
  {
    if s != [] {
      ReplaceIdentity(s[1..], c);
      assert s == [s[0]] + s[1..];
    }
  }

  /** Round trip one way: `'\n'.join(s.split('\n')) == s`. */
  lemma JoinSplitRoundTrip(s: string, c: char)
    ensures Join(Split(s, c), [c]) == s
  {
    JoinSplit(s, c, [c]);
    ReplaceIdentity(s, c);
  }

  /** Round trip the other way: splitting a join of separator-free parts gives the parts back. */
  lemma {:induction false} SplitJoinRoundTrip(parts: seq<string>, c: char)
    requires |parts| >= 1
    requires forall k :: 0 <= k < |parts| ==> c !in parts[k]
    ensures Split(Join(parts, [c]), c) == parts
  {
    if |parts| == 1 {
      SplitNoSeparator(parts[0], c);
    } else {
      SplitJoinRoundTrip(parts[1..], c);
      SplitAfterPart(parts[0], c, Join(parts[1..], [c]));
    }
  }

  lemma {:induction false} SplitNoSeparator(s: string, c: char)
    requires c !in s
    ensures Split(s, c) == [s]
  {
    if s != [] {
      SplitNoSeparator(s[1..], c);
      assert s == [s[0]] + s[1..];
    }
  }

  lemma {:induction false} SplitAfterPart(p: string, c: char, rest: string)
    requires c !in p
    ensures Split(p + [c] + rest, c) == [p] + Split(rest, c)
  {
    if p == [] {
      assert ([] + [c] + rest)[1..] == rest;
    } else {
      assert (p + [c] + rest)[1..] == p[1..] + [c] + rest;
      SplitAfterPart(p[1..], c, rest);
      assert p == [p[0]] + p[1..];
    }
  }

  // ---------------------------------------------------------------------------
  // str(int) for the decimal rendering of constant values

  function DigitChar(d: nat): (c: char)
    requires d < 10
    ensures '0' <= c <= '9'
  {
    "0123456789"[d]
  }

  function DigitValue(c: char): nat {
    if '0' <= c <= '9' then (c as int - '0' as int) as nat else 0
  }

  /** Decimal digits of `n`, most significant first, without leading zeros. */
  function NatToString(n: nat): (s: string)
    ensures |s| >= 1
  {
    if n < 10 then [DigitChar(n)]
    else NatToString(n / 10) + [DigitChar(n % 10)]
  }

  /** Only digits, and no leading zero. */
  lemma {:induction false} NatToStringDigits(n: nat)
    ensures forall k :: 0 <= k < |NatToString(n)| ==> '0' <= NatToString(n)[k] <= '9'
    ensures |NatToString(n)| > 1 ==> NatToString(n)[0] != '0'
  {
    if n >= 10 {
      NatToStringDigits(n / 10);
      assert NatToString(n)[0] == NatToString(n / 10)[0];
    }
  }

  /** Python's `str(i)` for an integer. */
  function IntToString(i: int): (s: string)
    ensures |s| >= 1
  {
    if i < 0 then "-" + NatToString(-i) else NatToString(i)
  }

  function ParseNat(s: string): nat {
    if s == [] then 0 else 10 * ParseNat(s[..|s| - 1]) + DigitValue(s[|s| - 1])
  }

  function ParseInt(s: string): int {
    if |s| > 0 && s[0] == '-' then -(ParseNat(s[1..]) as int) else ParseNat(s)
  }

  lemma {:induction false} ParseNatToString(n: nat)
    ensures ParseNat(NatToString(n)) == n
  {
    var d := "0123456789";
    if n < 10 {
      assert DigitValue(d[n]) == n;
      assert NatToString(n)[..0] == [];
    } else {
      ParseNatToString(n / 10);
      var s := NatToString(n);
      assert s[..|s| - 1] == NatToString(n / 10);
      assert DigitValue(d[n % 10]) == n % 10;
    }
  }

  lemma ParseIntOfDigits(n: nat)
    ensures ParseInt(NatToString(n)) == n
  {
    var s := NatToString(n);
    NatToStringDigits(n);
    assert s[0] != '-';
    assert ParseInt(s) == ParseNat(s);
    ParseNatToString(n);
  }

  lemma ParseIntOfNegative(n: nat)
    ensures ParseInt("-" + NatToString(n)) == -(n as int)
  {
    var digits := NatToString(n);
    var s := "-" + digits;
    assert s[0] == '-' && s[1..] == digits;
    assert ParseInt(s) == -(ParseNat(digits) as int);
    ParseNatToString(n);
  }

  /** The decimal rendering of an integer reads back as the same integer. */
  lemma ParseIntToString(i: int)
    ensures ParseInt(IntToString(i)) == i
  {
    if i < 0 {
      var n: nat := -i;
      assert IntToString(i) == "-" + NatToString(n);
      ParseIntOfNegative(n);
    } else {
      assert IntToString(i) == NatToString(i);
      ParseIntOfDigits(i);
    }
  }

  // ---------------------------------------------------------------------------
  // xml.sax.saxutils.escape with its default entities

  /**
   * `escape` replaces `&` first, then `>`, then `<`; since no replacement
   * text contains a later target, this is the same as mapping each character.
   */
  function EscapeChar(c: char): string {
    if c == '&' then "&amp;" else if c == '>' then "&gt;" else if c == '<' then "&lt;" else [c]
  }

  function Escape(s: string): (r: string)
    ensures '<' !in r && '>' !in r
    ensures '\n' in r <==> '\n' in s
  {
    if s == [] then [] else EscapeChar(s[0]) + Escape(s[1..])
  }

  /** Reads back the three entities `Escape` introduces. */
  function Unescape(s: string): string
    decreases |s|
  {
    if s == [] then []
    else if StartsWith(s, "&amp;") then "&" + Unescape(s[5..])
    else if StartsWith(s, "&gt;") then ">" + Unescape(s[4..])
    else if StartsWith(s, "&lt;") then "<" + Unescape(s[4..])
    else [s[0]] + Unescape(s[1..])
  }

  lemma UnescapeAmp(rest: string)
    ensures Unescape("&amp;" + rest) == "&" + Unescape(rest)
  {
    var t := "&amp;" + rest;
    assert t[..5] == "&amp;" && t[5..] == rest;
  }

  lemma UnescapeGt(rest: string)
    ensures Unescape("&gt;" + rest) == ">" + Unescape(rest)
  {
    var t := "&gt;" + rest;
    assert t[1] == 'g';
    assert !StartsWith(t, "&amp;");
    assert t[..4] == "&gt;" && t[4..] == rest;
  }

  lemma UnescapeLt(rest: string)
    ensures Unescape("&lt;" + rest) == "<" + Unescape(rest)
  {
    var t := "&lt;" + rest;
    assert t[1] == 'l';
    assert !StartsWith(t, "&amp;") && !StartsWith(t, "&gt;");
    assert t[..4] == "&lt;" && t[4..] == rest;
  }

  lemma UnescapePlain(c: char, rest: string)
    requires c != '&'
    ensures Unescape([c] + rest) == [c] + Unescape(rest)
  {
    var t := [c] + rest;
    assert t[0] == c;
    assert !StartsWith(t, "&amp;") && !StartsWith(t, "&gt;") && !StartsWith(t, "&lt;");
    assert t[1..] == rest;
  }

  /** Escaping loses nothing: unescaping gives the original text back. */
  lemma {:induction false} UnescapeEscape(s: string)
    ensures Unescape(Escape(s)) == s
  {
    if s != [] {
      UnescapeEscape(s[1..]);
      var rest := Escape(s[1..]);
      assert Escape(s) == EscapeChar(s[0]) + rest;
      if s[0] == '&' {
        UnescapeAmp(rest);
      } else if s[0] == '>' {
        UnescapeGt(rest);
      } else if s[0] == '<' {
        UnescapeLt(rest);
      } else {
        UnescapePlain(s[0], rest);
      }
      assert s == [s[0]] + s[1..];
    }
  }
}
