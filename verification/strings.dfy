/**
 * The string helpers of the console layer (signal.c): trimming, case mapping
 * and the blank test, each working in place on a NUL-terminated char buffer.
 * A buffer is an array of characters; its text is everything before its
 * first NUL, and a null reference stands for a NULL pointer.
 */
module Strings {
  import opened CType

  /** strlen: the index of the first NUL of a terminated buffer. */
  function Strlen(b: seq<char>): (n: nat)
    requires '\0' in b
    ensures n < |b| && b[n] == '\0'
    ensures forall i :: 0 <= i < n ==> b[i] != '\0'
  {
    if b[0] == '\0' then 0 else 1 + Strlen(b[1..])
  }

  /** The text a terminated buffer holds. */
  function CStr(b: seq<char>): (s: string)
    requires '\0' in b
    ensures '\0' !in s && |s| < |b|
  {
    b[..Strlen(b)]
  }

  /** The first NUL is the only NUL with none before it. */
  lemma StrlenAt(b: seq<char>, n: nat)
    requires n < |b| && b[n] == '\0'
    requires forall i :: 0 <= i < n ==> b[i] != '\0'
    ensures Strlen(b) == n
  {
  }

  predicate AllSpace(s: string) {
    forall i :: 0 <= i < |s| ==> IsSpace(s[i])
  }

  /** The length left once trailing whitespace is cut off. */
  function RightLen(s: string): (n: nat)
    ensures n <= |s|
    ensures AllSpace(s[n..])
    ensures n == 0 || !IsSpace(s[n - 1])
  {
    if s == [] || !IsSpace(s[|s| - 1]) then |s| else RightLen(s[..|s| - 1])
  }

  /** The number of leading whitespace characters. */
  function LeadingSpaces(s: string): (p: nat)
    ensures p <= |s|
    ensures AllSpace(s[..p])
    ensures p == |s| || !IsSpace(s[p])
  {
    if s == [] || !IsSpace(s[0]) then 0 else 1 + LeadingSpaces(s[1..])
  }

  /** trim_string's result: trailing whitespace removed first, then leading whitespace. */
  function Trim(s: string): string {
    var r := s[..RightLen(s)];
    r[LeadingSpaces(r)..]
  }

  lemma RightLenUnique(s: string, n: nat)
    requires n <= |s| && AllSpace(s[n..])
    requires n == 0 || !IsSpace(s[n - 1])
    ensures RightLen(s) == n
  {
  }

  lemma LeadingSpacesUnique(s: string, p: nat)
    requires p <= |s| && AllSpace(s[..p])
    requires p == |s| || !IsSpace(s[p])
    ensures LeadingSpaces(s) == p
  {
  }

  /**
   * Trim removes exactly a maximal whitespace prefix and suffix: whenever
   * s is blank text, then m, then blank text, and m neither starts nor ends
   * with whitespace, the trimmed string is m, its interior untouched.
   */
  lemma TrimExact(p: string, m: string, q: string)
    requires AllSpace(p) && AllSpace(q)
    requires m != [] ==> !IsSpace(m[0]) && !IsSpace(m[|m| - 1])
    ensures Trim(p + m + q) == m
  {
    var s := p + m + q;
    if m == [] {
      assert AllSpace(s) by {
        forall i | 0 <= i < |s| ensures IsSpace(s[i]) {
          if i < |p| { assert s[i] == p[i]; } else { assert s[i] == q[i - |p|]; }
        }
      }
      RightLenUnique(s, 0);
      assert s[..0] == [];
    } else {
      var n := |p| + |m|;
      assert s[n..] == q;
      assert s[n - 1] == m[|m| - 1];
      RightLenUnique(s, n);
      var r := s[..n];
      assert r == p + m;
      assert r[..|p|] == p;
      assert r[|p|] == m[0];
      LeadingSpacesUnique(r, |p|);
      assert r[|p|..] == m;
    }
  }

  /** The trimmed text neither starts nor ends with whitespace and is a slice of its input. */
  lemma TrimShape(s: string)
    ensures var t := Trim(s);
      (t != [] ==> !IsSpace(t[0]) && !IsSpace(t[|t| - 1])) &&
      exists i, j :: 0 <= i <= j <= |s| && t == s[i..j] && AllSpace(s[..i]) && AllSpace(s[j..])
  {
    var n := RightLen(s);
    var r := s[..n];
    var p := LeadingSpaces(r);
    var t := r[p..];
    assert t == s[p..n];
    assert s[..p] == r[..p];
    if t != [] {
      assert t[|t| - 1] == s[n - 1];
      assert t[0] == r[p];
    }
  }

  /** Trimming twice is trimming once. */
  lemma TrimIdempotent(s: string)
    ensures Trim(Trim(s)) == Trim(s)
  {
    var t := Trim(s);
    TrimShape(s);
    TrimExact([], t, []);
    assert [] + t + [] == t;
  }

  /** A string is blank exactly when trimming empties it. */
  lemma TrimEmptyIffBlank(s: string)
    ensures Trim(s) == [] <==> AllSpace(s)
  {
    if AllSpace(s) {
      TrimExact(s, [], []);
      assert s + [] + [] == s;
    } else {
      var n := RightLen(s);
      var r := s[..n];
      assert r[n - 1] == s[n - 1];
      var p := LeadingSpaces(r);
      assert p < |r|;
    }
  }

  /** str_to_lower's mapping of a whole string. */
  function Lower(s: string): (r: string)
    ensures |r| == |s|
  {
    if s == [] then [] else [ToLower(s[0])] + Lower(s[1..])
  }

  /** str_to_upper's mapping of a whole string. */
  function Upper(s: string): (r: string)
    ensures |r| == |s|
  {
    if s == [] then [] else [ToUpper(s[0])] + Upper(s[1..])
  }

  /** Lower maps position by position, keeps everything but 'A'..'Z', and keeps NUL-freedom. */
  lemma {:induction false} LowerAt(s: string, i: nat)
    requires i < |s|
    ensures Lower(s)[i] == ToLower(s[i])
  {
    if i > 0 {
      LowerAt(s[1..], i - 1);
    }
  }

  lemma {:induction false} UpperAt(s: string, i: nat)
    requires i < |s|
    ensures Upper(s)[i] == ToUpper(s[i])
  {
    if i > 0 {
      UpperAt(s[1..], i - 1);
    }
  }

  /** Mapping to lower case a second time changes nothing. */
  lemma {:induction false} LowerIdempotent(s: string)
    ensures Lower(Lower(s)) == Lower(s)
  {
    if s != [] {
      LowerIdempotent(s[1..]);
    }
  }

  /** Mapping to upper case a second time changes nothing. */
  lemma {:induction false} UpperIdempotent(s: string)
    ensures Upper(Upper(s)) == Upper(s)
  {
    if s != [] {
      UpperIdempotent(s[1..]);
    }
  }

  /**
   * trim_string: a NULL pointer is left alone; otherwise trailing whitespace
   * is overwritten with NULs from the end, and the text after the leading
   * whitespace is moved, with its terminator, to the front of the buffer.
   */
  method TrimString(str: array?<char>)
    requires str != null ==> '\0' in str[..]
    modifies str
    ensures str != null ==> TrimmedBuffer(old(str[..]), str[..])
  {
    if str == null {
      return;
    }
    ghost var before := str[..];
    ghost var s := CStr(before);
    var len := Strlen(str[..]);
    ghost var n := len;
    while len > 0 && IsSpace(str[len - 1])
      invariant 0 <= len <= n
      invariant AllSpace(s[len..])
      invariant forall i :: 0 <= i < str.Length ==> str[i] == if len <= i < n then '\0' else before[i]
    {
      len := len - 1;
      str[len] := '\0';
    }
    assert len > 0 ==> s[len - 1] == str[len - 1];
    RightLenUnique(s, len);
    ghost var mid := str[..];
    var start := 0;
    while str[start] != '\0' && IsSpace(str[start])
      invariant 0 <= start <= len
      invariant AllSpace(s[..len][..start])
      decreases len - start
    {
      start := start + 1;
    }
    assert start < len ==> str[start] == s[..len][start];
    LeadingSpacesUnique(s[..len], start);
    if start != 0 {
      // shift the kept text, with its terminator, to the front of the buffer
      forall i | 0 <= i <= len - start {
        str[i] := str[i + start];
      }
    }
    TrimmedBufferIntro(before, mid, str[..], len, start);
  }

  /** The buffer states trim_string passes through, from the first pass to the move. */
  lemma TrimmedBufferIntro(before: seq<char>, mid: seq<char>, after: seq<char>, len: nat, start: nat)
    requires '\0' in before && |mid| == |before| == |after|
    requires len == RightLen(CStr(before))
    requires start == LeadingSpaces(CStr(before)[..len])
    requires forall i :: 0 <= i < |mid| ==> mid[i] == if len <= i < Strlen(before) then '\0' else before[i]
    requires forall i :: 0 <= i <= len - start ==> after[i] == mid[i + start]
    requires forall i :: len - start < i < |after| ==> after[i] == mid[i]
    ensures TrimmedBuffer(before, after)
  {
    var s := CStr(before);
    var n := Strlen(before);
    var r := s[..len];
    var t := r[start..];
    assert t == Trim(s);
    assert |t| == len - start;
    assert mid[len] == '\0';
    forall i | 0 <= i < |t| + 1
      ensures after[i] == (t + ['\0'])[i]
    {
      if i < |t| {
        assert after[i] == mid[i + start];
        assert mid[i + start] == before[i + start];
        assert t[i] == s[i + start];
      }
    }
    assert after[..|t| + 1] == t + ['\0'];
    forall i | |t| < i < |after|
      ensures after[i] == if len <= i < |s| then '\0' else before[i]
    {
      assert after[i] == mid[i];
    }
  }

  /**
   * The buffer trim_string leaves: the trimmed text and its terminator at the
   * front; behind them the NULs written over the trailing whitespace; every
   * other position as it was.
   */
  ghost predicate TrimmedBuffer(before: seq<char>, after: seq<char>)
  {
    '\0' in before && |after| == |before| &&
    var s := CStr(before);
    var t := Trim(s);
    var k := RightLen(s);
    |t| < |after| &&
    after[..|t| + 1] == t + ['\0'] &&
    forall i :: |t| < i < |after| ==> after[i] == if k <= i < |s| then '\0' else before[i]
  }

  /** After trim_string the buffer holds the trimmed text. */
  lemma TrimmedText(before: seq<char>, after: seq<char>)
    requires TrimmedBuffer(before, after)
    ensures '\0' in after && CStr(after) == Trim(CStr(before))
  {
    var t := Trim(CStr(before));
    assert after[|t|] == (t + ['\0'])[|t|];
    forall i | 0 <= i < |t| ensures after[i] != '\0' {
      assert after[i] == (t + ['\0'])[i];
      assert t[i] in t;
    }
    StrlenAt(after, |t|);
    assert after[..|t|] == (t + ['\0'])[..|t|];
  }

  /**
   * str_to_lower: a NULL pointer is left alone; otherwise each character
   * before the terminator goes through tolower, and the rest of the buffer
   * is untouched.
   */
  method StrToLower(str: array?<char>)
    requires str != null ==> '\0' in str[..]
    modifies str
    ensures str != null ==> str[..] == Lower(old(CStr(str[..]))) + old(str[Strlen(str[..])..])
  {
    if str == null {
      return;
    }
    ghost var before := str[..];
    ghost var n := Strlen(before);
    var i := 0;
    while str[i] != '\0'
      invariant 0 <= i <= n
      invariant forall j :: 0 <= j < i ==> str[j] == ToLower(before[j])
      invariant forall j :: i <= j < str.Length ==> str[j] == before[j]
      decreases n - i
    {
      str[i] := ToLower(str[i]);
      i := i + 1;
    }
    forall j | 0 <= j < str.Length
      ensures str[j] == (Lower(before[..n]) + before[n..])[j]
    {
      if j < n {
        LowerAt(before[..n], j);
      }
    }
  }

  /**
   * str_to_upper: a NULL pointer is left alone; otherwise each character
   * before the terminator goes through toupper, and the rest of the buffer
   * is untouched.
   */
  method StrToUpper(str: array?<char>)
    requires str != null ==> '\0' in str[..]
    modifies str
    ensures str != null ==> str[..] == Upper(old(CStr(str[..]))) + old(str[Strlen(str[..])..])
  {
    if str == null {
      return;
    }
    ghost var before := str[..];
    ghost var n := Strlen(before);
    var i := 0;
    while str[i] != '\0'
      invariant 0 <= i <= n
      invariant forall j :: 0 <= j < i ==> str[j] == ToUpper(before[j])
      invariant forall j :: i <= j < str.Length ==> str[j] == before[j]
      decreases n - i
    {
      str[i] := ToUpper(str[i]);
      i := i + 1;
    }
    forall j | 0 <= j < str.Length
      ensures str[j] == (Upper(before[..n]) + before[n..])[j]
    {
      if j < n {
        UpperAt(before[..n], j);
      }
    }
  }

  /** is_empty_string: 1 for a NULL pointer or text made only of whitespace, else 0. */
  method IsEmptyString(str: array?<char>) returns (r: int)
    requires str != null ==> '\0' in str[..]
    ensures r == 0 || r == 1
    ensures r == 1 <==> str == null || AllSpace(CStr(str[..]))
  {
    if str == null {
      return 1;
    }
    ghost var n := Strlen(str[..]);
    var i := 0;
    while str[i] != '\0'
      invariant 0 <= i <= n
      invariant forall j :: 0 <= j < i ==> IsSpace(str[j])
      decreases n - i
    {
      if !IsSpace(str[i]) {
        assert CStr(str[..])[i] == str[i];
        return 0;
      }
      i := i + 1;
    }
    return 1;
  }
}
