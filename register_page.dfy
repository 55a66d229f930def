/**
 * The username handling of src/app/register/page.tsx: every keystroke drops the characters
 * outside `[a-zA-Z0-9_-]`, and the submitted value is `username.toLowerCase().trim()`.
 */
module RegisterPage {
  import RegisterApi

  /** One character of the class `[a-zA-Z0-9_-]`. */
  predicate InputChar(c: char)
  {
    'a' <= c <= 'z' || 'A' <= c <= 'Z' || '0' <= c <= '9' || c == '_' || c == '-'
  }

  /** `value.replace(/[^a-zA-Z0-9_-]/g, '')` */
  function Sanitize(s: string): (r: string)
    ensures forall i :: 0 <= i < |r| ==> InputChar(r[i])
    ensures forall c :: c in r <==> c in s && InputChar(c)
    ensures forall c :: InputChar(c) ==> multiset(r)[c] == multiset(s)[c]
  {
    if s == [] then []
    else
      assert s == [s[0]] + s[1..];
      if InputChar(s[0]) then [s[0]] + Sanitize(s[1..])
      else Sanitize(s[1..])
  }

  /** `a` is `b` with some characters removed, the rest in their order. */
  predicate IsSubsequence(a: string, b: string)
    decreases |b|
  {
    if a == [] then true
    else if b == [] then false
    else if a[0] == b[0] then IsSubsequence(a[1..], b[1..])
    else IsSubsequence(a, b[1..])
  }

  /** The sanitiser keeps the allowed characters in their original order. */
  lemma {:induction false} SanitizeIsSubsequence(s: string)
    ensures IsSubsequence(Sanitize(s), s)
  {
    if s != [] {
      SanitizeIsSubsequence(s[1..]);
      if !InputChar(s[0]) {
        SubsequenceOfTail(Sanitize(s[1..]), s);
      }
    }
  }

  /** Dropping the first character of `b` keeps every subsequence of the rest a subsequence. */
  lemma {:induction false} SubsequenceOfTail(a: string, b: string)
    requires b != [] && IsSubsequence(a, b[1..])
    ensures IsSubsequence(a, b)
    decreases |b|, 0
  {
    if a != [] && a[0] == b[0] {
      SubsequenceDropHead(a, b[1..]);
    }
  }

  /** Dropping the first character of `a` keeps it a subsequence. */
  lemma {:induction false} SubsequenceDropHead(a: string, c: string)
    requires a != [] && IsSubsequence(a, c)
    ensures IsSubsequence(a[1..], c)
    decreases |c|, 1
  {
    if a[0] == c[0] {
      SubsequenceOfTail(a[1..], c);
    } else {
      SubsequenceDropHead(a, c[1..]);
      SubsequenceOfTail(a[1..], c);
    }
  }

  /** A value that is already clean passes through unchanged. */
  lemma {:induction false} SanitizeKeepsClean(s: string)
    requires forall i :: 0 <= i < |s| ==> InputChar(s[i])
    ensures Sanitize(s) == s
  {
    if s != [] {
      SanitizeKeepsClean(s[1..]);
    }
  }

  /** Sanitising twice is sanitising once. */
  lemma SanitizeIdempotent(s: string)
    ensures Sanitize(Sanitize(s)) == Sanitize(s)
  {
    SanitizeKeepsClean(Sanitize(s));
  }

  /** `toLowerCase` on one character, for the ASCII letters. */
  function LowerChar(c: char): char
  {
    if 'A' <= c <= 'Z' then (c as int - 'A' as int + 'a' as int) as char else c
  }

  function ToLower(s: string): (r: string)
    ensures |r| == |s| && forall i :: 0 <= i < |s| ==> r[i] == LowerChar(s[i])
  {
    seq(|s|, i requires 0 <= i < |s| => LowerChar(s[i]))
  }

  /** The characters `String.prototype.trim` removes: white space and line terminators. */
  predicate JsWhitespace(c: char)
  {
    ('\t' <= c <= '\r') || c == ' ' || c == '\U{00A0}' || c == '\U{1680}' ||
    ('\U{2000}' <= c <= '\U{200A}') || c == '\U{2028}' || c == '\U{2029}' ||
    c == '\U{202F}' || c == '\U{205F}' || c == '\U{3000}' || c == '\U{FEFF}'
  }

  function TrimStart(s: string): (r: string)
    ensures |r| <= |s| && r == s[|s| - |r|..]
    ensures r == [] || !JsWhitespace(r[0])
    ensures forall i :: 0 <= i < |s| - |r| ==> JsWhitespace(s[i])
  {
    if s != [] && JsWhitespace(s[0]) then
      var r := TrimStart(s[1..]);
      assert forall i :: 1 <= i < |s| - |r| ==> s[i] == s[1..][i - 1];
      r
    else s
  }

  function TrimEnd(s: string): (r: string)
    ensures |r| <= |s| && r == s[..|r|]
    ensures r == [] || !JsWhitespace(r[|r| - 1])
    ensures forall i :: |r| <= i < |s| ==> JsWhitespace(s[i])
  {
    if s != [] && JsWhitespace(s[|s| - 1]) then
      var r := TrimEnd(s[..|s| - 1]);
      assert s[..|s| - 1][..|r|] == s[..|r|];
      r
    else s
  }

  /** `r` is `s` with its first `a` characters and its tail after `r` cut, all of them white space. */
  ghost predicate CutAt(s: string, r: string, a: int)
  {
    && 0 <= a <= |s| - |r| && r == s[a..a + |r|]
    && (forall i :: 0 <= i < a ==> JsWhitespace(s[i]))
    && (forall i :: a + |r| <= i < |s| ==> JsWhitespace(s[i]))
  }

  /** `trim()`: drop white space at both ends. */
  function Trim(s: string): (r: string)
    ensures |r| <= |s|
    ensures r == [] || (!JsWhitespace(r[0]) && !JsWhitespace(r[|r| - 1]))
    ensures exists a :: CutAt(s, r, a)
  {
    TrimCuts(s);
    TrimEnd(TrimStart(s))
  }

  /** Trimming cuts white space only: the leading part `TrimStart` drops and the trailing part `TrimEnd` drops. */
  lemma TrimCuts(s: string)
    ensures CutAt(s, TrimEnd(TrimStart(s)), |s| - |TrimStart(s)|)
  {
    var t := TrimStart(s);
    CutsCompose(s, t, TrimEnd(t), |s| - |t|);
  }

  /** A cut of white space at the front followed by a cut at the back is one `CutAt`. */
  lemma CutsCompose(s: string, t: string, r: string, a: int)
    requires 0 <= a <= |s| && t == s[a..] && (forall i :: 0 <= i < a ==> JsWhitespace(s[i]))
    requires |r| <= |t| && r == t[..|r|] && (forall j :: |r| <= j < |t| ==> JsWhitespace(t[j]))
    ensures CutAt(s, r, a)
  {
    assert r == s[a..a + |r|];
    forall i | a + |r| <= i < |s| ensures JsWhitespace(s[i]) {
      assert s[i] == t[i - a];
    }
  }

  /** `username.toLowerCase().trim()` */
  function SubmittedUsername(s: string): (r: string)
    ensures |r| <= |s|
    ensures r == [] || (!JsWhitespace(r[0]) && !JsWhitespace(r[|r| - 1]))
    ensures exists a :: CutAt(ToLower(s), r, a)
  {
    Trim(ToLower(s))
  }

  /** A string with no white space trims to itself. */
  lemma TrimNoWhitespace(s: string)
    requires forall i :: 0 <= i < |s| ==> !JsWhitespace(s[i])
    ensures Trim(s) == s
  {
    if s != [] {
      assert !JsWhitespace(s[0]) && !JsWhitespace(s[|s| - 1]);
    }
    TrimStartKeeps(s);
    TrimEndKeeps(s);
  }

  lemma TrimStartKeeps(s: string)
    requires s == [] || !JsWhitespace(s[0])
    ensures TrimStart(s) == s
  {
  }

  lemma TrimEndKeeps(s: string)
    requires s == [] || !JsWhitespace(s[|s| - 1])
    ensures TrimEnd(s) == s
  {
  }

  /** A lower-cased input character is one the handler accepts, and not white space. */
  lemma LowerInputChar(c: char)
    requires InputChar(c)
    ensures RegisterApi.UsernameChar(LowerChar(c)) && !JsWhitespace(LowerChar(c))
  {
  }

  /**
   * What the page submits from a sanitised field is the lower-cased field, unchanged by the trim,
   * and uses only `[a-z0-9_-]`, so a non-empty one passes the handler's pattern check.
   */
  lemma SubmittedSanitizedIsServerClean(input: string)
    ensures var r := SubmittedUsername(Sanitize(input));
      && r == ToLower(Sanitize(input))
      && |r| == |Sanitize(input)|
      && (forall i :: 0 <= i < |r| ==> RegisterApi.UsernameChar(r[i]))
      && (r != "" ==> RegisterApi.UsernamePattern(r))
  {
    var s := Sanitize(input);
    var lower := ToLower(s);
    forall i | 0 <= i < |lower|
      ensures RegisterApi.UsernameChar(lower[i]) && !JsWhitespace(lower[i])
    {
      LowerInputChar(s[i]);
    }
    TrimNoWhitespace(lower);
  }
}
