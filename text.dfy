/**
 * The string operations the request handlers apply to ids and names:
 * `String.prototype.trim`, `length` (counted in UTF-16 code units) and the
 * game id pattern `^[a-zA-Z0-9_-]+$`.
 */
module Text {
  /** The characters `trim` removes: ECMAScript WhiteSpace and LineTerminator. */
  predicate IsTrimmable(c: char) {
    ('\U{9}' <= c <= '\U{D}') || c == ' ' || c == '\U{A0}' || c == '\U{1680}'
    || ('\U{2000}' <= c <= '\U{200A}') || c == '\U{2028}' || c == '\U{2029}'
    || c == '\U{202F}' || c == '\U{205F}' || c == '\U{3000}' || c == '\U{FEFF}'
  }

  /** The number of trimmable characters at the start of `s`. */
  function LeadingCount(s: string): (k: nat)
    ensures k <= |s|
    ensures forall i :: 0 <= i < k ==> IsTrimmable(s[i])
    ensures k < |s| ==> !IsTrimmable(s[k])
  {
    if s == [] || !IsTrimmable(s[0]) then 0 else 1 + LeadingCount(s[1..])
  }

  /** The number of trimmable characters at the end of `s`. */
  function TrailingCount(s: string): (k: nat)
    ensures k <= |s|
    ensures forall i :: |s| - k <= i < |s| ==> IsTrimmable(s[i])
    ensures k < |s| ==> !IsTrimmable(s[|s| - 1 - k])
  {
    if s == [] || !IsTrimmable(s[|s| - 1]) then 0 else 1 + TrailingCount(s[..|s| - 1])
  }

  /** `s.trim()`: `s` without its leading and trailing whitespace. */
  function Trim(s: string): string {
    var t := s[LeadingCount(s)..];
    t[..|t| - TrailingCount(t)]
  }

  /**
   * `Trim(s)` is the slice of `s` between a run of whitespace at the front
   * and one at the back, and it neither starts nor ends with whitespace.
   */
  lemma TrimSlice(s: string)
    ensures exists i, j :: (0 <= i <= j <= |s| && Trim(s) == s[i..j]
      && (forall k :: 0 <= k < i ==> IsTrimmable(s[k]))
      && (forall k :: j <= k < |s| ==> IsTrimmable(s[k])))
    ensures Trim(s) != [] ==> !IsTrimmable(Trim(s)[0]) && !IsTrimmable(Trim(s)[|Trim(s)| - 1])
  {
    var i := LeadingCount(s);
    var t := s[i..];
    var j := i + |t| - TrailingCount(t);
    assert Trim(s) == s[i..j];
    forall k | j <= k < |s|
      ensures IsTrimmable(s[k])
    {
      assert s[k] == t[k - i];
    }
    if Trim(s) != [] {
      assert Trim(s)[0] == t[0];
    }
  }

  /** A string is trimmed to nothing exactly when it is all whitespace. */
  lemma TrimEmpty(s: string)
    ensures Trim(s) == [] <==> forall k :: 0 <= k < |s| ==> IsTrimmable(s[k])
  {
    var i := LeadingCount(s);
    var t := s[i..];
    if i < |s| {
      assert !IsTrimmable(t[0]);
      assert TrailingCount(t) < |t|;
    }
  }

  lemma LeadingNone(s: string)
    requires s == [] || !IsTrimmable(s[0])
    ensures LeadingCount(s) == 0
  {
  }

  lemma TrailingNone(s: string)
    requires s == [] || !IsTrimmable(s[|s| - 1])
    ensures TrailingCount(s) == 0
  {
  }

  /** Trimming a trimmed string changes nothing. */
  lemma TrimIdempotent(s: string)
    ensures Trim(Trim(s)) == Trim(s)
  {
    TrimSlice(s);
    var t := Trim(s);
    LeadingNone(t);
    assert t[LeadingCount(t)..] == t;
    TrailingNone(t);
    assert t[..|t| - TrailingCount(t)] == t;
  }

  /** The length of `s` in UTF-16 code units: characters above U+FFFF take two. */
  function Utf16Length(s: string): (n: nat)
    ensures |s| <= n <= 2 * |s|
    ensures (forall k :: 0 <= k < |s| ==> s[k] as int < 0x10000) ==> n == |s|
  {
    if s == [] then 0 else Utf16Length(s[..|s| - 1]) + (if s[|s| - 1] as int < 0x10000 then 1 else 2)
  }

  /** The characters of the pattern `[a-zA-Z0-9_-]`. */
  predicate IsIdChar(c: char) {
    ('a' <= c <= 'z') || ('A' <= c <= 'Z') || ('0' <= c <= '9') || c == '_' || c == '-'
  }

  /** `/^[a-zA-Z0-9_-]+$/.test(s)`. */
  predicate MatchesIdPattern(s: string) {
    |s| > 0 && forall k :: 0 <= k < |s| ==> IsIdChar(s[k])
  }

  /** An id that matches the pattern is made of single-unit characters and has nothing to trim. */
  lemma IdPatternPlain(s: string)
    requires MatchesIdPattern(s)
    ensures Utf16Length(s) == |s|
    ensures Trim(s) == s
  {
    LeadingNone(s);
    TrailingNone(s);
    assert s[0..] == s;
    assert s[..|s|] == s;
  }
}
