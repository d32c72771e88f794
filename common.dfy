/** Text helpers shared by the schedule scripts.
    Each function models the Python `str` method of the same purpose, restricted to ASCII:
    case folding touches only 'A'..'Z', whitespace is the ten ASCII space characters and
    digits are '0'..'9'. */
module Common {

  datatype Option<T> = None | Some(value: T)

  /** A value, or the message of the exception the script would raise instead. */
  datatype Result<T> = Ok(value: T) | Err(message: string)

  /** `str.isspace` on one ASCII character: the space, '\t' to '\r', and the four separators
      '\x1c' to '\x1f'. */
  predicate IsSpace(c: char) {
    c == ' ' || '\t' <= c <= '\r' || '\U{001C}' <= c <= '\U{001F}'
  }

  predicate IsDigit(c: char) {
    '0' <= c <= '9'
  }

  predicate AllDigits(s: string) {
    forall i :: 0 <= i < |s| ==> IsDigit(s[i])
  }

  /** The end of the run of whitespace starting at `j`. */
  function SpaceEnd(s: string, j: nat): (e: nat)
    requires j <= |s|
    decreases |s| - j
    ensures j <= e <= |s| && (e < |s| ==> !IsSpace(s[e]))
    ensures forall m :: j <= m < e ==> IsSpace(s[m])
  {
    if j == |s| || !IsSpace(s[j]) then j else SpaceEnd(s, j + 1)
  }

  /** The end of the run of digits starting at `j`. */
  function DigitEnd(s: string, j: nat): (e: nat)
    requires j <= |s|
    decreases |s| - j
    ensures j <= e <= |s| && (e < |s| ==> !IsDigit(s[e]))
    ensures AllDigits(s[j..e])
  {
    if j == |s| || !IsDigit(s[j]) then j else DigitEnd(s, j + 1)
  }

  function LowerChar(c: char): char {
    if 'A' <= c <= 'Z' then (c as int + 32) as char else c
  }

  function UpperChar(c: char): char {
    if 'a' <= c <= 'z' then (c as int - 32) as char else c
  }

  /** `str.lower` */
  function Lower(s: string): string {
    seq(|s|, i requires 0 <= i < |s| => LowerChar(s[i]))
  }

  /** `str.capitalize`: first character upper-cased, the rest lower-cased. */
  function Capitalize(s: string): string {
    if s == [] then [] else [UpperChar(s[0])] + Lower(s[1..])
  }

  predicate StartsWith(s: string, p: string) {
    |p| <= |s| && s[..|p|] == p
  }

  predicate EndsWith(s: string, p: string) {
    |p| <= |s| && s[|s| - |p|..] == p
  }

  /** Prefix test under IGNORECASE. */
  predicate StartsWithCI(s: string, p: string) {
    |p| <= |s| && Lower(s[..|p|]) == Lower(p)
  }

  /** Python's `p in s`. */
  predicate Contains(s: string, p: string) {
    StartsWith(s, p) || (s != [] && Contains(s[1..], p))
  }

  /** `str.lstrip()` */
  function LStrip(s: string): (r: string)
    ensures |r| <= |s|
    ensures r != [] ==> !IsSpace(r[0])
    ensures forall i :: 0 <= i < |s| - |r| ==> IsSpace(s[i])
  {
    if s != [] && IsSpace(s[0]) then LStrip(s[1..]) else s
  }

  /** `str.rstrip()` */
  function RStrip(s: string): (r: string)
    ensures |r| <= |s|
    ensures r != [] ==> !IsSpace(r[|r| - 1])
    ensures forall i :: |r| <= i < |s| ==> IsSpace(s[i])
  {
    if s != [] && IsSpace(s[|s| - 1]) then RStrip(s[..|s| - 1]) else s
  }

  /** `str.strip()` */
  function Strip(s: string): (r: string)
    ensures |r| <= |s|
    ensures r != [] ==> !IsSpace(r[|r| - 1])
  {
    RStrip(LStrip(s))
  }

  /** What `lstrip` keeps is a suffix of its input. */
  lemma {:induction false} LStripIsSuffix(s: string)
    ensures LStrip(s) == s[|s| - |LStrip(s)|..]
  {
    if s != [] && IsSpace(s[0]) {
      LStripIsSuffix(s[1..]);
    }
  }

  /** What `rstrip` keeps is a prefix of its input. */
  lemma {:induction false} RStripIsPrefix(s: string)
    ensures RStrip(s) == s[..|RStrip(s)|]
  {
    if s != [] && IsSpace(s[|s| - 1]) {
      RStripIsPrefix(s[..|s| - 1]);
    }
  }

  /** `strip` leaves whitespace at neither end. */
  lemma StripEnds(s: string)
    ensures Strip(s) != [] ==> !IsSpace(Strip(s)[0]) && !IsSpace(Strip(s)[|Strip(s)| - 1])
  {
    RStripIsPrefix(LStrip(s));
  }

  /** A text with no whitespace at either end is its own `strip`. */
  lemma StripKeeps(s: string)
    requires s != [] ==> !IsSpace(s[0]) && !IsSpace(s[|s| - 1])
    ensures Strip(s) == s
  {
    assert LStrip(s) == s;
  }

  /** `str.rstrip(chars)` */
  function RStripChars(s: string, chars: set<char>): (r: string)
    ensures |r| <= |s| && r == s[..|r|]
    ensures r != [] ==> r[|r| - 1] !in chars
    ensures forall i :: |r| <= i < |s| ==> s[i] in chars
  {
    if s != [] && s[|s| - 1] in chars then RStripChars(s[..|s| - 1], chars) else s
  }

  /** `str.replace(pat, rep)`: every non-overlapping occurrence, scanning left to right. */
  function ReplaceAll(s: string, pat: string, rep: string): string
    requires pat != []
  {
    if |s| < |pat| then s
    else if s[..|pat|] == pat then rep + ReplaceAll(s[|pat|..], pat, rep)
    else [s[0]] + ReplaceAll(s[1..], pat, rep)
  }

  /** `re.compile(re.escape(pat), re.IGNORECASE).sub(rep, s)` */
  function ReplaceAllCI(s: string, pat: string, rep: string): string
    requires pat != []
  {
    if |s| < |pat| then s
    else if StartsWithCI(s, pat) then rep + ReplaceAllCI(s[|pat|..], pat, rep)
    else [s[0]] + ReplaceAllCI(s[1..], pat, rep)
  }

  /** `sep.join(parts)` */
  function Join(parts: seq<string>, sep: string): string {
    if |parts| == 0 then ""
    else if |parts| == 1 then parts[0]
    else parts[0] + sep + Join(parts[1..], sep)
  }

  function DigitChar(d: nat): char
    requires d < 10
  {
    ('0' as int + d) as char
  }

  /** `str(n)` for a non-negative integer. */
  function NatToString(n: nat): string {
    if n < 10 then [DigitChar(n)] else NatToString(n / 10) + [DigitChar(n % 10)]
  }

  /** `int(s)` for a string of decimal digits. */
  function ParseNat(s: string): nat
    requires AllDigits(s)
  {
    if s == [] then 0 else ParseNat(s[..|s| - 1]) * 10 + (s[|s| - 1] as int - '0' as int)
  }

  // ---------------------------------------------------------------------------
  // Properties of the helpers

  /** `str(n)` is a non-empty run of digits and `int(str(n)) == n`. */
  lemma {:induction false} NatToStringRoundTrip(n: nat)
    ensures NatToString(n) != [] && AllDigits(NatToString(n))
    ensures ParseNat(NatToString(n)) == n
  {
    if n >= 10 {
      NatToStringRoundTrip(n / 10);
      var s := NatToString(n);
      assert s[..|s| - 1] == NatToString(n / 10);
    }
  }

  /** Different numbers render differently, so rendered labels identify their number. */
  lemma NatToStringInjective(m: nat, n: nat)
    requires NatToString(m) == NatToString(n)
    ensures m == n
  {
    NatToStringRoundTrip(m);
    NatToStringRoundTrip(n);
  }

  /** Python's `p in s` holds exactly when `p` occurs at some index of `s`. */
  lemma {:induction false} ContainsAt(s: string, p: string)
    ensures Contains(s, p) <==> exists i :: 0 <= i <= |s| - |p| && StartsWith(s[i..], p)
  {
    if StartsWith(s, p) {
      assert s[0..] == s;
    } else if s != [] {
      ContainsAt(s[1..], p);
      if Contains(s[1..], p) {
        var i :| 0 <= i <= |s[1..]| - |p| && StartsWith(s[1..][i..], p);
        assert s[1..][i..] == s[i + 1..];
      }
      if i :| 0 <= i <= |s| - |p| && StartsWith(s[i..], p) {
        assert i != 0;
        assert s[1..][i - 1..] == s[i..];
      }
    }
  }

  /** A string starting with `p + q` starts with `p`. */
  lemma StartsWithPrefix(s: string, p: string, q: string)
    requires StartsWith(s, p + q)
    ensures StartsWith(s, p)
  {
    assert s[..|p|] == (p + q)[..|p|];
  }

  /** A string containing `p + q` contains `q`. */
  lemma ContainsSuffix(s: string, p: string, q: string)
    requires Contains(s, p + q)
    ensures Contains(s, q)
  {
    ContainsAt(s, p + q);
    var i :| 0 <= i <= |s| - |p + q| && StartsWith(s[i..], p + q);
    assert s[i + |p|..][..|q|] == (p + q)[|p|..];
    ContainsAt(s, q);
    assert StartsWith(s[i + |p|..], q);
  }

  /** Replacing a string that does not occur changes nothing. */
  lemma {:induction false} ReplaceAllAbsent(s: string, pat: string, rep: string)
    requires pat != [] && !Contains(s, pat)
    ensures ReplaceAll(s, pat, rep) == s
  {
    if |s| >= |pat| {
      assert !StartsWith(s, pat);
      ReplaceAllAbsent(s[1..], pat, rep);
    }
  }

  /** A string that is digits from `j` on ends its digit run at its end. */
  lemma {:induction false} DigitEndAll(s: string, j: nat)
    requires j <= |s| && AllDigits(s[j..])
    ensures DigitEnd(s, j) == |s|
    decreases |s| - j
  {
    if j < |s| {
      assert s[j] == s[j..][0];
      assert s[j + 1..] == s[j..][1..];
      DigitEndAll(s, j + 1);
    }
  }
}
