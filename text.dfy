/** Character-level scans that stand for the regular expression, `split`,
    `in` and `lower` calls made on cell and file-name text. Letters, digits,
    whitespace and case are the ASCII ones. */
module Text {

  predicate IsAsciiLetter(c: char) { 'a' <= c <= 'z' || 'A' <= c <= 'Z' }

  predicate IsAsciiDigit(c: char) { '0' <= c <= '9' }

  /** The ASCII characters that `str.split()` with no argument treats as separators. */
  predicate IsSpace(c: char)
  {
    c == ' ' || c == '\t' || c == '\n' || c == '\r' || c == '\U{B}' || c == '\U{C}'
    || ('\U{1C}' <= c <= '\U{1F}')
  }

  // ---------------------------------------------------------------------
  // The activity-code pattern `[a-zA-Z]-\d`, searched anywhere in the text

  /** An activity code starts at index i: a letter, a hyphen, then a digit. */
  predicate CodeAt(s: string, i: int)
  {
    0 <= i && i + 2 < |s| && IsAsciiLetter(s[i]) && s[i + 1] == '-' && IsAsciiDigit(s[i + 2])
  }

  /** `re.search(r"[a-zA-Z]-\d", s)` succeeds. */
  function HasActivityCode(s: string): (found: bool)
    ensures found <==> exists i :: CodeAt(s, i)
  {
    if |s| < 3 then
      assert forall i :: !CodeAt(s, i);
      false
    else if CodeAt(s, 0) then
      true
    else
      var rest := HasActivityCode(s[1..]);
      assert forall i :: CodeAt(s[1..], i) <==> CodeAt(s, i + 1);
      assert rest ==> exists i :: CodeAt(s, i) by {
        if rest {
          var i :| CodeAt(s[1..], i);
          assert CodeAt(s, i + 1);
        }
      }
      assert (exists i :: CodeAt(s, i)) ==> rest by {
        if exists i :: CodeAt(s, i) {
          var i :| CodeAt(s, i);
          assert i != 0;
          assert CodeAt(s[1..], i - 1);
        }
      }
      rest
  }

  // ---------------------------------------------------------------------
  // Substring test `sub in s`

  predicate OccursAt(s: string, sub: string, i: int)
  {
    0 <= i && i + |sub| <= |s| && s[i..i + |sub|] == sub
  }

  /** Python's `sub in s`. */
  function Contains(s: string, sub: string): (found: bool)
    ensures found <==> exists i :: OccursAt(s, sub, i)
    decreases |s|
  {
    if |sub| > |s| then
      assert forall i :: !OccursAt(s, sub, i);
      false
    else if s[..|sub|] == sub then
      assert OccursAt(s, sub, 0);
      true
    else
      var rest := Contains(s[1..], sub);
      assert rest ==> exists i :: OccursAt(s, sub, i) by {
        if rest {
          var i :| OccursAt(s[1..], sub, i);
          assert s[1..][i..i + |sub|] == s[i + 1..i + 1 + |sub|];
          assert OccursAt(s, sub, i + 1);
        }
      }
      assert (exists i :: OccursAt(s, sub, i)) ==> rest by {
        if exists i :: OccursAt(s, sub, i) {
          var i :| OccursAt(s, sub, i);
          assert i != 0;
          assert s[1..][i - 1..i - 1 + |sub|] == s[i..i + |sub|];
          assert OccursAt(s[1..], sub, i - 1);
        }
      }
      rest
  }

  // ---------------------------------------------------------------------
  // First whitespace-separated token, `s.split()[0]`

  /** t is the first token of s, starting at index i: only separators come
      before it, it holds none, and a separator or the end of s follows it.
      When s holds no token, t is empty and i is |s|. */
  predicate IsFirstToken(s: string, t: string, i: int)
  {
    && 0 <= i && i + |t| <= |s|
    && (forall k :: 0 <= k < i ==> IsSpace(s[k]))
    && (forall k :: 0 <= k < |t| ==> !IsSpace(t[k]))
    && s[i..i + |t|] == t
    && (i + |t| == |s| || IsSpace(s[i + |t|]))
    && (t == [] ==> i == |s|)
  }

  /** The longest separator-free prefix of s. */
  function TakeToken(s: string): (t: string)
    ensures |t| <= |s| && s[..|t|] == t
    ensures forall k :: 0 <= k < |t| ==> !IsSpace(t[k])
    ensures |t| == |s| || IsSpace(s[|t|])
  {
    if s == [] || IsSpace(s[0]) then [] else [s[0]] + TakeToken(s[1..])
  }

  /** The first whitespace-separated token of s, or "" when s is all
      separators (where Python's `split()[0]` would raise). */
  function FirstToken(s: string): (t: string)
    ensures exists i :: IsFirstToken(s, t, i)
  {
    if s == [] then
      assert IsFirstToken(s, [], 0);
      []
    else if IsSpace(s[0]) then
      var t := FirstToken(s[1..]);
      var i :| IsFirstToken(s[1..], t, i);
      assert s[1..][i..i + |t|] == s[i + 1..i + 1 + |t|];
      assert IsFirstToken(s, t, i + 1);
      t
    else
      var t := TakeToken(s);
      assert IsFirstToken(s, t, 0);
      t
  }

  // ---------------------------------------------------------------------
  // Last occurrence of a character, for `rsplit('.', 1)`

  /** Index of the last c in s, or -1 when s holds no c. */
  function LastIndexOf(s: string, c: char): (i: int)
    ensures -1 <= i < |s|
    ensures i >= 0 ==> s[i] == c
    ensures forall k :: i < k < |s| ==> s[k] != c
  {
    if s == [] then -1
    else if s[|s| - 1] == c then |s| - 1
    else LastIndexOf(s[..|s| - 1], c)
  }

  function LowerChar(c: char): char
  {
    if 'A' <= c <= 'Z' then (c as int - 'A' as int + 'a' as int) as char else c
  }

  /** `s.lower()` on the ASCII letters. */
  function Lower(s: string): (r: string)
    ensures |r| == |s|
    ensures forall k :: 0 <= k < |s| ==> r[k] == LowerChar(s[k])
  {
    if s == [] then [] else [LowerChar(s[0])] + Lower(s[1..])
  }
}
