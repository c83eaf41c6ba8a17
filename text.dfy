/** Character-level helpers standing for Python's `str.strip()`, `str.lower()`
    and `str.upper()` as the I/O helpers use them. */
module Text {

  /** Python's `str.isspace()` for a single character: the ASCII controls
      TAB..CR and FS..US, SPACE, NEL, NBSP and the Unicode space separators,
      line and paragraph separators. */
  predicate IsSpace(c: char)
  {
    || c == ' '
    || ('\t' <= c <= '\r')
    || ('\U{1C}' <= c <= '\U{1F}')
    || c == '\U{85}'
    || c == '\U{A0}'
    || c == '\U{1680}'
    || ('\U{2000}' <= c <= '\U{200A}')
    || c == '\U{2028}'
    || c == '\U{2029}'
    || c == '\U{202F}'
    || c == '\U{205F}'
    || c == '\U{3000}'
  }

  /** Index of the first non-space character (|s| when there is none). */
  function LeadEnd(s: string): (i: nat)
    ensures i <= |s|
    ensures forall k :: 0 <= k < i ==> IsSpace(s[k])
    ensures i < |s| ==> !IsSpace(s[i])
  {
    if |s| == 0 || !IsSpace(s[0]) then 0 else 1 + LeadEnd(s[1..])
  }

  /** Index just past the last non-space character (0 when there is none). */
  function TrailStart(s: string): (j: nat)
    ensures j <= |s|
    ensures forall k :: j <= k < |s| ==> IsSpace(s[k])
    ensures 0 < j ==> !IsSpace(s[j - 1])
  {
    if |s| == 0 || !IsSpace(s[|s| - 1]) then |s| else TrailStart(s[..|s| - 1])
  }

  /** A string with no white space at either end. */
  predicate Trimmed(t: string)
  {
    t == [] || (!IsSpace(t[0]) && !IsSpace(t[|t| - 1]))
  }

  predicate AllSpace(s: string)
  {
    forall k :: 0 <= k < |s| ==> IsSpace(s[k])
  }

  /** `s.strip()`: the slice of `s` between its leading and trailing white space. */
  function Strip(s: string): (r: string)
    ensures Trimmed(r)
    ensures |r| <= |s|
  {
    var i := LeadEnd(s);
    if i == |s| then "" else s[i..TrailStart(s)]
  }

  /** Stripping removes exactly the white-space padding around a trimmed core. */
  lemma StripPadding(pre: string, t: string, post: string)
    requires AllSpace(pre) && AllSpace(post) && Trimmed(t)
    ensures Strip(pre + t + post) == t
  {
    var s := pre + t + post;
    var i := LeadEnd(s);
    if t == [] {
      assert forall k :: 0 <= k < |s| ==> IsSpace(s[k]) by {
        forall k | 0 <= k < |s| ensures IsSpace(s[k]) {
          if k < |pre| { assert s[k] == pre[k]; } else { assert s[k] == post[k - |pre|]; }
        }
      }
      assert i == |s|;
    } else {
      assert s[|pre|] == t[0];
      assert s[|pre| + |t| - 1] == t[|t| - 1];
      assert i == |pre|;
      var j := TrailStart(s);
      assert j == |pre| + |t|;
      assert s[i..j] == t;
    }
  }

  lemma StripIdempotent(s: string)
    ensures Strip(Strip(s)) == Strip(s)
  {
    StripPadding("", Strip(s), "");
    assert "" + Strip(s) + "" == Strip(s);
  }

  /** `str.lower()` on one character. ASCII letters are folded; the only other
      character whose lower case is an ASCII letter, KELVIN SIGN, folds to 'k'. */
  function LowerChar(c: char): char
  {
    if 'A' <= c <= 'Z' then (c as int + 32) as char
    else if c == '\U{212A}' then 'k'
    else c
  }

  function Lower(s: string): (r: string)
    ensures |r| == |s|
  {
    seq(|s|, i requires 0 <= i < |s| => LowerChar(s[i]))
  }

  /** `str.upper()` on one character. ASCII letters are raised; the two other
      characters whose upper case is a single ASCII letter, DOTLESS I and LONG S,
      map to 'I' and 'S'. */
  function UpperChar(c: char): char
  {
    if 'a' <= c <= 'z' then (c as int - 32) as char
    else if c == '\U{131}' then 'I'
    else if c == '\U{17F}' then 'S'
    else c
  }

  function Upper(s: string): (r: string)
    ensures |r| == |s|
  {
    seq(|s|, i requires 0 <= i < |s| => UpperChar(s[i]))
  }

  /** A string written only with characters that lower-casing leaves alone and
      that are not letters of the other case: '.', digits and lower-case ASCII. */
  predicate LowerAscii(t: string)
  {
    forall k :: 0 <= k < |t| ==> t[k] == '.' || ('a' <= t[k] <= 'z') || ('0' <= t[k] <= '9')
  }

  /** `c` stands for the letter `d` when case is ignored: it is `d`, the
      other-case form of an ASCII letter `d`, or KELVIN SIGN for 'k'. */
  predicate SameLetter(c: char, d: char)
  {
    || c == d
    || ('a' <= d <= 'z' && c == (d as int - 32) as char)
    || ('A' <= d <= 'Z' && c == (d as int + 32) as char)
    || (d == 'k' && c == '\U{212A}')
  }

  /** `s` spells `t` when letter case is ignored, stated without `Lower` or
      `Upper`. */
  predicate EqualsIgnoringCase(s: string, t: string)
  {
    |s| == |t| && forall k :: 0 <= k < |s| ==> SameLetter(s[k], t[k])
  }

  /** Lower-casing lands on a lower-case ASCII word exactly when the two are
      equal up to letter case. */
  lemma LowerEqualsIff(s: string, t: string)
    requires LowerAscii(t)
    ensures Lower(s) == t <==> EqualsIgnoringCase(s, t)
  {
    if Lower(s) == t {
      forall k | 0 <= k < |s| ensures SameLetter(s[k], t[k]) {
        assert LowerChar(s[k]) == t[k];
      }
    }
    if EqualsIgnoringCase(s, t) {
      forall k | 0 <= k < |s| ensures Lower(s)[k] == t[k] {
        assert LowerChar(s[k]) == t[k];
      }
    }
  }
}
