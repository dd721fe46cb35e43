/** The JavaScript string operations the dashboard relies on, for the
    characters they are applied to: `toLowerCase` (ASCII letters), `includes`,
    `trim`, `split` on one character, decimal `toString` and `padStart`. */
module Text {

  // ---------------------------------------------------------------- lower case

  function LowerChar(c: char): char
  {
    if 'A' <= c <= 'Z' then (c as int + 32) as char else c
  }

  /** No upper-case ASCII letter occurs in `s`. */
  predicate IsLower(s: string)
  {
    forall i :: 0 <= i < |s| ==> !('A' <= s[i] <= 'Z')
  }

  /** `String.prototype.toLowerCase` on ASCII text. */
  function ToLower(s: string): (r: string)
    ensures |r| == |s|
    ensures IsLower(r)
    ensures forall i :: 0 <= i < |s| && !('A' <= s[i] <= 'Z') ==> r[i] == s[i]
  {
    seq(|s|, i requires 0 <= i < |s| => LowerChar(s[i]))
  }

  // ------------------------------------------------------------------ includes

  predicate StartsWith(s: string, prefix: string)
  {
    |prefix| <= |s| && s[..|prefix|] == prefix
  }

  /** `sub` occurs in `s` starting at index `i`. */
  predicate OccursAt(s: string, sub: string, i: nat)
  {
    i + |sub| <= |s| && s[i..i + |sub|] == sub
  }

  /** `s.includes(sub)`: `sub` is a prefix of `s` or is included in its tail. */
  predicate Contains(s: string, sub: string)
    decreases |s|
  {
    StartsWith(s, sub) || (s != [] && Contains(s[1..], sub))
  }

  /** Contains agrees with the positional reading of `includes`: there is an
      index at which `sub` occurs in `s`. */
  lemma {:induction false} ContainsIffOccurs(s: string, sub: string)
    ensures Contains(s, sub) <==> exists i: nat :: OccursAt(s, sub, i)
    decreases |s|
  {
    if StartsWith(s, sub) {
      assert OccursAt(s, sub, 0);
    }
    if s != [] {
      ContainsIffOccurs(s[1..], sub);
      if Contains(s[1..], sub) {
        var i: nat :| OccursAt(s[1..], sub, i);
        assert s[1..][i..i + |sub|] == s[i + 1..i + 1 + |sub|];
        assert OccursAt(s, sub, i + 1);
      }
      if exists i: nat :: OccursAt(s, sub, i) {
        var i: nat :| OccursAt(s, sub, i);
        if i > 0 {
          assert s[1..][i - 1..i - 1 + |sub|] == s[i..i + |sub|];
          assert OccursAt(s[1..], sub, i - 1);
        }
      }
    } else {
      if exists i: nat :: OccursAt(s, sub, i) {
        var i: nat :| OccursAt(s, sub, i);
        assert StartsWith(s, sub);
      }
    }
  }

  /** Every string includes the empty string. */
  lemma ContainsEmpty(s: string)
    ensures Contains(s, "")
  {
  }

  /** A string that occurs at position `i` of `s` is included in `s`. */
  lemma ContainsAt(s: string, sub: string, i: nat)
    requires OccursAt(s, sub, i)
    ensures Contains(s, sub)
  {
    ContainsIffOccurs(s, sub);
  }

  /** Inclusion is transitive: what `mid` includes, anything including `mid` includes. */
  lemma ContainsTransitive(s: string, mid: string, sub: string)
    requires Contains(s, mid) && Contains(mid, sub)
    ensures Contains(s, sub)
  {
    ContainsIffOccurs(s, mid);
    ContainsIffOccurs(mid, sub);
    var i: nat :| OccursAt(s, mid, i);
    var j: nat :| OccursAt(mid, sub, j);
    var t := s[i..i + |mid|];
    var u := s[i + j..i + j + |sub|];
    var v := t[j..j + |sub|];
    forall k | 0 <= k < |sub|
      ensures u[k] == v[k]
    {
      assert t[j + k] == s[i + j + k];
    }
    assert u == v;
    ContainsAt(s, sub, i + j);
  }

  /** Lower-casing keeps an inclusion: when `s` includes `sub`, the lower-cased
      `s` includes the lower-cased `sub`, at the same position. */
  lemma ContainsToLower(s: string, sub: string)
    requires Contains(s, sub)
    ensures Contains(ToLower(s), ToLower(sub))
  {
    ContainsIffOccurs(s, sub);
    var i: nat :| OccursAt(s, sub, i);
    var low := ToLower(s);
    var lowSub := ToLower(sub);
    var u := low[i..i + |sub|];
    forall k | 0 <= k < |sub|
      ensures u[k] == lowSub[k]
    {
      assert s[i..i + |sub|][k] == sub[k];
    }
    assert u == lowSub;
    ContainsAt(low, lowSub, i);
  }

  // ---------------------------------------------------------------------- trim

  /** The characters `String.prototype.trim` removes: ECMAScript WhiteSpace
      (tab, vertical tab, form feed, space, no-break space, byte order mark and
      the Unicode space separators) and LineTerminator. */
  predicate IsWhitespace(c: char)
  {
    || c == '\t' || c == '\U{B}' || c == '\U{C}' || c == ' ' || c == '\U{A0}'
    || c == '\U{FEFF}' || c == '\U{1680}' || '\U{2000}' <= c <= '\U{200A}'
    || c == '\U{202F}' || c == '\U{205F}' || c == '\U{3000}'
    || c == '\n' || c == '\r' || c == '\U{2028}' || c == '\U{2029}'
  }

  /** The length of the run of whitespace that `s` starts with. */
  function LeadingWhitespace(s: string): (n: nat)
    ensures n <= |s|
    ensures forall k :: 0 <= k < n ==> IsWhitespace(s[k])
    ensures n < |s| ==> !IsWhitespace(s[n])
  {
    if s == [] || !IsWhitespace(s[0]) then 0 else 1 + LeadingWhitespace(s[1..])
  }

  /** The length of the run of whitespace that `s` ends with. */
  function TrailingWhitespace(s: string): (n: nat)
    ensures n <= |s|
    ensures forall k :: |s| - n <= k < |s| ==> IsWhitespace(s[k])
    ensures n < |s| ==> !IsWhitespace(s[|s| - 1 - n])
  {
    if s == [] || !IsWhitespace(s[|s| - 1]) then 0
    else 1 + TrailingWhitespace(s[..|s| - 1])
  }

  /** `s.trim()`: `s` without its leading and trailing whitespace. */
  function Trim(s: string): (r: string)
  {
    var t := s[LeadingWhitespace(s)..];
    t[..|t| - TrailingWhitespace(t)]
  }

  /** What trim removes is whitespace, what it keeps is a contiguous part of
      the input, and the result neither starts nor ends with whitespace. */
  lemma TrimSpec(s: string)
    ensures var r := Trim(s);
      && (r != [] ==> !IsWhitespace(r[0]) && !IsWhitespace(r[|r| - 1]))
      && exists i: nat :: OccursAt(s, r, i)
           && (forall k :: 0 <= k < i ==> IsWhitespace(s[k]))
           && (forall k :: i + |r| <= k < |s| ==> IsWhitespace(s[k]))
  {
    var i := LeadingWhitespace(s);
    var t := s[i..];
    var r := Trim(s);
    assert r == s[i..i + |r|];
    assert forall k :: i + |r| <= k < |s| ==> s[k] == t[k - i];
    assert OccursAt(s, r, i);
  }

  /** Trimming twice is trimming once. */
  lemma TrimIdempotent(s: string)
    ensures Trim(Trim(s)) == Trim(s)
  {
    TrimSpec(s);
    var r := Trim(s);
    assert LeadingWhitespace(r) == 0;
    assert TrailingWhitespace(r) == 0;
  }

  // --------------------------------------------------------------------- split

  /** How many times `c` occurs in `s`. */
  function Occurrences(s: string, c: char): nat
  {
    if s == [] then 0 else (if s[0] == c then 1 else 0) + Occurrences(s[1..], c)
  }

  /** `s.split(sep)` for a one-character separator: the pieces between the
      separators, with an empty piece wherever two separators meet or the
      separator stands at an end. */
  function Split(s: string, sep: char): (r: seq<string>)
    ensures |r| == Occurrences(s, sep) + 1
    ensures forall k :: 0 <= k < |r| ==> sep !in r[k]
  {
    if s == [] then [""]
    else
      var rest := Split(s[1..], sep);
      if s[0] == sep then [""] + rest
      else [[s[0]] + rest[0]] + rest[1..]
  }

  /** `parts.join(sep)`. */
  function Join(parts: seq<string>, sep: char): string
  {
    if parts == [] then ""
    else if |parts| == 1 then parts[0]
    else parts[0] + [sep] + Join(parts[1..], sep)
  }

  /** Splitting loses nothing: joining the pieces again gives the input back. */
  lemma {:induction false} JoinSplit(s: string, sep: char)
    ensures Join(Split(s, sep), sep) == s
  {
    if s != [] {
      var rest := Split(s[1..], sep);
      JoinSplit(s[1..], sep);
      if s[0] == sep {
        assert Split(s, sep) == [""] + rest;
      } else {
        var r := Split(s, sep);
        assert r[1..] == rest[1..];
        if |rest| == 1 {
          assert r == [[s[0]] + rest[0]];
        } else {
          assert Join(rest, sep) == rest[0] + [sep] + Join(rest[1..], sep);
          assert Join(r, sep) == [s[0]] + rest[0] + [sep] + Join(rest[1..], sep);
        }
      }
    }
  }

  // ------------------------------------------------------------------ decimals

  function DigitChar(d: nat): char
    requires d < 10
  {
    ('0' as int + d) as char
  }

  predicate IsDigits(s: string)
  {
    forall k :: 0 <= k < |s| ==> '0' <= s[k] <= '9'
  }

  /** The number a string of decimal digits denotes (leading zeros allowed). */
  function DecimalValue(s: string): nat
    requires IsDigits(s)
  {
    if s == [] then 0
    else 10 * DecimalValue(s[..|s| - 1]) + (s[|s| - 1] as int - '0' as int)
  }

  /** `n.toString()` for a natural number. */
  function NatToString(n: nat): (r: string)
    ensures |r| >= 1 && IsDigits(r)
    ensures (|r| == 1) == (n < 10)
    ensures n < 100 ==> |r| <= 2
    ensures r[0] == '0' <==> n == 0
  {
    if n < 10 then [DigitChar(n)] else NatToString(n / 10) + [DigitChar(n % 10)]
  }

  /** Reading back the decimal form of `n` gives `n`. */
  lemma {:induction false} NatToStringRoundTrip(n: nat)
    ensures DecimalValue(NatToString(n)) == n
  {
    if n >= 10 {
      NatToStringRoundTrip(n / 10);
      var s := NatToString(n);
      assert s[..|s| - 1] == NatToString(n / 10);
    }
  }

  /** `s.padStart(width, "0")`. */
  function PadZero(s: string, width: nat): (r: string)
    ensures |r| == if |s| < width then width else |s|
    ensures r[|r| - |s|..] == s
    ensures forall k :: 0 <= k < |r| - |s| ==> r[k] == '0'
  {
    if |s| >= width then s
    else
      var r := seq(width - |s|, _ => '0') + s;
      assert r[width - |s|..] == s;
      r
  }

  /** Leading zeros do not change the value of a decimal string. */
  lemma {:induction false} LeadingZerosValue(zeros: nat, s: string)
    requires IsDigits(s)
    ensures IsDigits(seq(zeros, _ => '0') + s)
    ensures DecimalValue(seq(zeros, _ => '0') + s) == DecimalValue(s)
    decreases |s|
  {
    var z: string := seq(zeros, _ => '0');
    var t := z + s;
    assert IsDigits(t);
    if s == [] {
      assert t == z;
      ZerosValue(zeros);
    } else {
      assert t[..|t| - 1] == z + s[..|s| - 1];
      LeadingZerosValue(zeros, s[..|s| - 1]);
    }
  }

  lemma {:induction false} ZerosValue(zeros: nat)
    ensures IsDigits(seq(zeros, _ => '0'))
    ensures DecimalValue(seq(zeros, _ => '0')) == 0
  {
    var z: string := seq(zeros, _ => '0');
    if zeros > 0 {
      assert z[..|z| - 1] == seq(zeros - 1, _ => '0');
      ZerosValue(zeros - 1);
    }
  }

  /** Zero-padding `n.toString()` to a width keeps its value and its digits. */
  lemma PaddedValue(n: nat, width: nat)
    ensures IsDigits(PadZero(NatToString(n), width))
    ensures DecimalValue(PadZero(NatToString(n), width)) == n
  {
    var s := NatToString(n);
    var r := PadZero(s, width);
    var zeros := |r| - |s|;
    assert r == seq(zeros, _ => '0') + s by {
      assert r == r[..zeros] + r[zeros..];
    }
    LeadingZerosValue(zeros, s);
    NatToStringRoundTrip(n);
  }
}
