/** The string clean-ups the dashboard applies to CSV cells: Python's `str.strip()` and
    `str.upper()`, and the client-code normalisation `astype(str).str.replace(r'\.0$', '').str.strip()`. */
module Text {

  /** Python's `str.isspace()` for a single character. */
  predicate IsSpace(c: char) {
    || c == ' ' || c == '\t' || c == '\n' || c == '\r' || c == '\U{000B}' || c == '\U{000C}'
    || ('\U{001C}' <= c <= '\U{001F}') || c == '\U{0085}' || c == '\U{00A0}' || c == '\U{1680}'
    || ('\U{2000}' <= c <= '\U{200A}') || c == '\U{2028}' || c == '\U{2029}' || c == '\U{202F}'
    || c == '\U{205F}' || c == '\U{3000}'
  }

  predicate AllSpace(s: string) {
    forall i :: 0 <= i < |s| ==> IsSpace(s[i])
  }

  /** Neither end of `s` is whitespace. */
  predicate Trimmed(s: string) {
    |s| > 0 ==> !IsSpace(s[0]) && !IsSpace(s[|s| - 1])
  }

  /** Number of leading whitespace characters. */
  function LeadingSpace(s: string): (n: nat)
    ensures n <= |s|
    ensures forall i :: 0 <= i < n ==> IsSpace(s[i])
    ensures n < |s| ==> !IsSpace(s[n])
  {
    if |s| == 0 || !IsSpace(s[0]) then 0
    else
      var m := LeadingSpace(s[1..]);
      assert forall i :: 1 <= i < m + 1 ==> s[i] == s[1..][i - 1];
      m + 1
  }

  /** Length of `s` once its trailing whitespace is dropped. */
  function TrailingStart(s: string): (n: nat)
    ensures n <= |s|
    ensures forall i :: n <= i < |s| ==> IsSpace(s[i])
    ensures n > 0 ==> !IsSpace(s[n - 1])
  {
    if |s| == 0 || !IsSpace(s[|s| - 1]) then |s|
    else
      var m := TrailingStart(s[..|s| - 1]);
      assert forall i :: m <= i < |s| - 1 ==> s[i] == s[..|s| - 1][i];
      m
  }

  /** Python's `str.strip()`: the longest middle slice with whitespace removed from both ends. */
  function Strip(s: string): (r: string)
    ensures Trimmed(r)
    ensures exists i, j :: 0 <= i <= j <= |s| && r == s[i..j] && AllSpace(s[..i]) && AllSpace(s[j..])
    ensures r == [] <==> AllSpace(s)
  {
    var i := LeadingSpace(s);
    var j := i + TrailingStart(s[i..]);
    StripSlice(s, i, j);
    s[i..j]
  }

  lemma StripSlice(s: string, i: nat, j: nat)
    requires i == LeadingSpace(s) && j == i + TrailingStart(s[i..])
    ensures i <= j <= |s|
    ensures Trimmed(s[i..j]) && AllSpace(s[..i]) && AllSpace(s[j..])
    ensures s[i..j] == [] <==> AllSpace(s)
  {
    TrailingFacts(s, i);
    PrefixAllSpace(s, i);
    SuffixAllSpace(s, j);
    SpaceSplit(s, i, j);
    TrimmedSlice(s, i, j);
  }

  lemma TrimmedSlice(s: string, i: nat, j: nat)
    requires i <= j <= |s|
    requires i < |s| ==> !IsSpace(s[i])
    requires j > i ==> !IsSpace(s[j - 1])
    ensures Trimmed(s[i..j])
  {
    if j > i {
      assert s[i..j][0] == s[i];
      assert s[i..j][j - i - 1] == s[j - 1];
    }
  }

  /** What `TrailingStart` says about the rest of a string, restated on the whole string. */
  lemma TrailingFacts(s: string, i: nat)
    requires i <= |s|
    ensures var j := i + TrailingStart(s[i..]);
      && j <= |s|
      && (forall k :: j <= k < |s| ==> IsSpace(s[k]))
      && (j > i ==> !IsSpace(s[j - 1]))
  {
    var t := s[i..];
    var j := i + TrailingStart(t);
    forall k | j <= k < |s| ensures IsSpace(s[k]) {
      assert t[k - i] == s[k];
    }
    assert j > i ==> t[j - i - 1] == s[j - 1];
  }

  lemma PrefixAllSpace(s: string, i: nat)
    requires i <= |s| && forall k :: 0 <= k < i ==> IsSpace(s[k])
    ensures AllSpace(s[..i])
  {
    assert forall k :: 0 <= k < i ==> s[..i][k] == s[k];
  }

  lemma SuffixAllSpace(s: string, j: nat)
    requires j <= |s| && forall k :: j <= k < |s| ==> IsSpace(s[k])
    ensures AllSpace(s[j..])
  {
    forall k | 0 <= k < |s| - j ensures IsSpace(s[j..][k]) {
      assert s[j..][k] == s[j + k];
    }
  }

  lemma SpaceSplit(s: string, i: nat, j: nat)
    requires i == LeadingSpace(s) && j == i + TrailingStart(s[i..])
    ensures s[i..j] == [] <==> AllSpace(s)
  {
    TrailingFacts(s, i);
  }

  /** A string that is already trimmed is unchanged by `Strip`. */
  lemma StripTrimmed(s: string)
    requires Trimmed(s)
    ensures Strip(s) == s
  {
    if |s| > 0 {
      assert LeadingSpace(s) == 0;
      assert TrailingStart(s) == |s|;
    }
  }

  /** Python's `str.upper()` on one character, for ASCII and Latin-1 letters. */
  function UpperChar(c: char): char {
    if 'a' <= c <= 'z' then (c as int - 32) as char
    else if '\U{00E0}' <= c <= '\U{00FE}' && c != '\U{00F7}' then (c as int - 32) as char
    else if c == '\U{00FF}' then '\U{0178}'
    else if c == '\U{00B5}' then '\U{039C}'
    else c
  }

  /** The lower-case letters `UpperChar` maps to another character. */
  predicate IsLower(c: char) {
    ('a' <= c <= 'z') || ('\U{00E0}' <= c <= '\U{00FF}' && c != '\U{00F7}') || c == '\U{00B5}'
  }

  /** Python's `str.upper()`: every character mapped by `UpperChar`. */
  function Upper(s: string): (r: string)
    ensures |r| == |s|
    ensures forall i :: 0 <= i < |s| ==> r[i] == UpperChar(s[i])
    ensures forall i :: 0 <= i < |r| ==> !IsLower(r[i])
  {
    if |s| == 0 then [] else [UpperChar(s[0])] + Upper(s[1..])
  }

  /** Upper-casing changes letters only, so whitespace stays whitespace and nothing else becomes it. */
  lemma UpperKeepsSpace(c: char)
    ensures IsSpace(UpperChar(c)) <==> IsSpace(c)
  {
  }

  /** Upper-casing twice is upper-casing once. */
  lemma UpperIdempotent(s: string)
    ensures Upper(Upper(s)) == Upper(s)
  {
    var u := Upper(s);
    assert forall i :: 0 <= i < |u| ==> UpperChar(u[i]) == u[i];
  }

  /** Upper-casing keeps a trimmed string trimmed. */
  lemma UpperTrimmed(s: string)
    requires Trimmed(s)
    ensures Trimmed(Upper(s))
  {
    if |s| > 0 {
      UpperKeepsSpace(s[0]);
      UpperKeepsSpace(s[|s| - 1]);
    }
  }

  /** The text ends in ".0". */
  predicate EndsWithPointZero(s: string) {
    |s| >= 2 && s[|s| - 2] == '.' && s[|s| - 1] == '0'
  }

  /** `str.replace(r'\.0$', '', regex=True)`: removes a final ".0"; Python's `$` also matches
      just before a final newline, so ".0\n" loses its ".0" as well. */
  function DropPointZero(s: string): (r: string)
    ensures EndsWithPointZero(s) ==> r == s[..|s| - 2]
    ensures !EndsWithPointZero(s) && |s| >= 1 && s[|s| - 1] == '\n' && EndsWithPointZero(s[..|s| - 1]) ==>
      r == s[..|s| - 3] + "\n"
    ensures !EndsWithPointZero(s) && !(|s| >= 3 && s[|s| - 1] == '\n' && EndsWithPointZero(s[..|s| - 1])) ==>
      r == s
    ensures |r| == |s| || |r| == |s| - 2
    ensures |r| == |s| ==> r == s
  {
    if EndsWithPointZero(s) then s[..|s| - 2]
    else if |s| >= 3 && s[|s| - 1] == '\n' && EndsWithPointZero(s[..|s| - 1]) then s[..|s| - 3] + "\n"
    else s
  }

  /** Dropping the suffix undoes appending it: the float rendering of any code loses exactly its ".0". */
  lemma DropPointZeroUndoesSuffix(s: string)
    ensures DropPointZero(s + ".0") == s
  {
    var t := s + ".0";
    assert EndsWithPointZero(t);
    assert t[..|t| - 2] == s;
  }

  /** The client-code clean-up applied to every code column before codes are compared. */
  function CleanCode(s: string): (r: string)
    ensures Trimmed(r)
  {
    Strip(DropPointZero(s))
  }

  /** A code already written without a ".0" suffix and without surrounding blanks is kept as is;
      a float-rendered code "123.0" becomes "123". */
  lemma CleanCodeExamples(s: string)
    requires Trimmed(s) && !EndsWithPointZero(s)
    ensures CleanCode(s) == s
    ensures Trimmed(s) && |s| > 0 ==> CleanCode(s + ".0") == s
  {
    assert |s| >= 1 ==> IsSpace('\n') && s[|s| - 1] != '\n';
    StripTrimmed(s);
    var t := s + ".0";
    assert EndsWithPointZero(t);
    assert t[..|t| - 2] == s;
  }
}
