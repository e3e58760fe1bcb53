/** The parts of Rust's string handling that bounds are checked with. */
module Text {
  /** The White_Space property of Unicode, which str::trim uses. */
  predicate IsWhitespace(c: char) {
    || '\U{9}' <= c <= '\U{D}' || c == ' ' || c == '\U{85}' || c == '\U{A0}' || c == '\U{1680}'
    || '\U{2000}' <= c <= '\U{200A}' || c == '\U{2028}' || c == '\U{2029}' || c == '\U{202F}'
    || c == '\U{205F}' || c == '\U{3000}'
  }

  predicate IsControl(c: char) {
    c <= '\U{1F}' || '\U{7F}' <= c <= '\U{9F}'
  }

  predicate IsAsciiAlphanumeric(c: char) {
    '0' <= c <= '9' || 'A' <= c <= 'Z' || 'a' <= c <= 'z'
  }

  function TrimStart(s: string): (r: string)
    ensures r == [] || !IsWhitespace(r[0])
    ensures |r| <= |s| && r == s[|s| - |r|..]
    ensures forall i | 0 <= i < |s| - |r| :: IsWhitespace(s[i])
  {
    if s != [] && IsWhitespace(s[0]) then TrimStart(s[1..]) else s
  }

  function TrimEnd(s: string): (r: string)
    ensures r == [] || !IsWhitespace(r[|r| - 1])
    ensures r <= s
    ensures forall i | |r| <= i < |s| :: IsWhitespace(s[i])
  {
    if s != [] && IsWhitespace(s[|s| - 1]) then TrimEnd(s[..|s| - 1]) else s
  }

  predicate IsTrimmed(s: string) {
    s != [] ==> !IsWhitespace(s[0]) && !IsWhitespace(s[|s| - 1])
  }

  function Trim(s: string): (r: string)
    ensures IsTrimmed(r) && |r| <= |s|
  {
    TrimEnd(TrimStart(s))
  }

  /** A note that is neither blank nor too long nor contains a control character, once trimmed. */
  predicate IsAcceptableNote(note: string, maxChars: nat) {
    var trimmed := Trim(note);
    trimmed != [] && |trimmed| <= maxChars && forall c | c in trimmed :: !IsControl(c)
  }

  lemma TrimmedMeansUnchanged(s: string)
    ensures Trim(s) == s <==> IsTrimmed(s)
  {
    StartUnchanged(s);
    EndUnchanged(s);
    hide TrimStart, TrimEnd, IsWhitespace;
    assert |TrimEnd(TrimStart(s))| <= |TrimStart(s)| <= |s|;
  }

  lemma StartUnchanged(s: string)
    ensures (s == [] || !IsWhitespace(s[0])) ==> TrimStart(s) == s
  {
  }

  lemma EndUnchanged(s: string)
    ensures (s == [] || !IsWhitespace(s[|s| - 1])) ==> TrimEnd(s) == s
  {
  }

  lemma TrimIs(s: string)
    ensures Trim(s) == TrimEnd(TrimStart(s))
  {
    hide TrimStart, TrimEnd, IsWhitespace;
  }

  /** What was dropped before and after r is white space. */
  ghost predicate IsTrimOf(r: string, s: string, i: nat) {
    && i + |r| <= |s| && r == s[i..i + |r|]
    && (forall k | 0 <= k < i :: IsWhitespace(s[k]))
    && forall k | i + |r| <= k < |s| :: IsWhitespace(s[k])
  }

  /** Trimming drops white space at both ends, and nothing else. */
  lemma TrimDropsOuterWhitespace(s: string)
    ensures exists i: nat :: IsTrimOf(Trim(s), s, i)
  {
    hide TrimStart, TrimEnd, Trim, IsWhitespace;
    TrimIs(s);
    var started := TrimStart(s);
    var r, i := TrimEnd(started), |s| - |started|;
    assert r == s[i..i + |r|];
    forall k | i + |r| <= k < |s|
      ensures IsWhitespace(s[k])
    {
      assert s[k] == started[k - i];
    }
    assert IsTrimOf(r, s, i);
  }
}
