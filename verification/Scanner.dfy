/** The scan of the static index page for inline scripts: inline_script_hashes in rust/src/server.rs.
    The digest is a parameter. */
module Scanner {
  import opened Wrappers

  const OPEN := "<script"
  const CLOSE := "</script>"
  const TAG_END := ">"
  const SRC := "src="

  datatype ScanError = InvalidStaticIndex

  // ---- search ----

  /** The pattern stands at position i. */
  predicate At(s: string, p: string, i: nat) {
    i + |p| <= |s| && forall j | 0 <= j < |p| :: s[i + j] == p[j]
  }

  lemma AtShifted(s: string, p: string, n: nat, i: nat)
    requires n <= |s|
    ensures At(s[n..], p, i) <==> At(s, p, n + i)
  {
    if n + i + |p| <= |s| {
      assert forall j | 0 <= j < |p| :: p[j] == s[n..][i + j] <==> p[j] == s[n + i + j];
    }
  }

  lemma AtChar(s: string, p: string, i: nat, j: nat)
    ensures At(s, p, i) && j < |p| ==> i + j < |s| && s[i + j] == p[j] && p[j] in p
  {
  }

  /** str::find: the first occurrence. */
  function Find(s: string, p: string): (r: Option<nat>)
    ensures r.Some? ==> At(s, p, r.value) && forall j: nat | j < r.value :: !At(s, p, j)
    ensures r.None? ==> forall j: nat :: !At(s, p, j)
  {
    if At(s, p, 0) then Some(0)
    else if s == [] then None
    else
      var rest := Find(s[1..], p);
      assert forall j: nat :: 0 < j ==> (At(s, p, j) <==> At(s[1..], p, j - 1)) by {
        forall j: nat | 0 < j
          ensures At(s, p, j) <==> At(s[1..], p, j - 1)
        {
          AtShifted(s, p, 1, j - 1);
        }
      }
      if rest.Some? then Some(rest.value + 1) else None
  }

  ghost predicate Contains(s: string, p: string) {
    exists i: nat :: At(s, p, i)
  }

  /** The first character of the pattern occurs nowhere else in it. */
  predicate LeadOnly(p: string) {
    p != [] && forall j | 0 < j < |p| :: p[j] != p[0]
  }

  /** Such a pattern is found right after a text that does not contain it: no occurrence can straddle. */
  lemma FindsAfter(text: string, p: string, rest: string)
    requires LeadOnly(p) && !Contains(text, p)
    ensures Find(text + (p + rest), p) == Some(|text|)
  {
    var s := text + (p + rest);
    assert At(s, p, |text|);
    forall j: nat | j < |text|
      ensures !At(s, p, j)
    {
      if j + |p| <= |text| {
        assert !At(text, p, j);
      } else {
        AtChar(s, p, j, |text| - j);
      }
    }
  }

  lemma Occurrences(s: string, p: string)
    requires p != []
    ensures forall i: nat | At(s, p, i) :: i < |s| && s[i] == p[0] && s[i] in s
  {
    assert forall i: nat :: At(s, p, i) ==> i < |s| && s[i + 0] == p[0];
  }

  lemma PrefixLacks(s: string, p: string, n: nat)
    requires n <= |s| && p != [] && forall j: nat | j < n :: !At(s, p, j)
    ensures !Contains(s[..n], p)
  {
    forall j: nat
      ensures !At(s[..n], p, j)
    {
      if j + |p| <= n {
        assert !At(s, p, j);
      }
    }
  }

  // ---- start tags ----

  predicate IsAsciiWhitespace(c: char) {
    c == ' ' || c == '\t' || c == '\n' || c == '\U{C}' || c == '\r'
  }

  function WordLength(s: string): (n: nat)
    ensures n <= |s| && (n < |s| ==> IsAsciiWhitespace(s[n]))
    ensures forall i | 0 <= i < n :: !IsAsciiWhitespace(s[i])
    ensures s != [] && !IsAsciiWhitespace(s[0]) ==> 0 < n
  {
    if s == [] || IsAsciiWhitespace(s[0]) then 0 else 1 + WordLength(s[1..])
  }

  /** split_ascii_whitespace. */
  function Parts(s: string): seq<string>
    decreases |s|
  {
    if s == [] then []
    else if IsAsciiWhitespace(s[0]) then Parts(s[1..])
    else [s[..WordLength(s)]] + Parts(s[WordLength(s)..])
  }

  predicate IsExternal(tag: string) {
    exists part | part in Parts(tag) :: At(part, SRC, 0)
  }

  /** "src=" stands where a part of the tag begins. */
  predicate BeginsAt(s: string, k: nat) {
    At(s, SRC, k) && (k == 0 || IsAsciiWhitespace(s[k - 1]))
  }

  lemma SrcIsPlain()
    ensures |SRC| == 4 && forall j | 0 <= j < 4 :: !IsAsciiWhitespace(SRC[j])
  {
  }

  /** A script counts as external exactly when "src=" begins one of its whitespace-separated parts. */
  lemma {:induction false} ExternalMeansSrcBeginsAPart(s: string)
    ensures IsExternal(s) <==> exists k: nat :: BeginsAt(s, k)
    decreases |s|
  {
    SrcIsPlain();
    if s == [] {
      assert !IsExternal(s);
    } else if IsAsciiWhitespace(s[0]) {
      ExternalMeansSrcBeginsAPart(s[1..]);
      hide IsExternal;
      assert IsExternal(s) == IsExternal(s[1..]) by {
        SkipWhitespace(s);
      }
      BeginsLater(s, 1);
    } else {
      var n := WordLength(s);
      ExternalMeansSrcBeginsAPart(s[n..]);
      SplitWord(s);
      hide IsExternal;
      SrcInWord(s);
      BeginsLater(s, n);
    }
  }

  lemma SkipWhitespace(s: string)
    requires s != [] && IsAsciiWhitespace(s[0])
    ensures IsExternal(s) == IsExternal(s[1..])
  {
  }

  lemma SplitWord(s: string)
    requires s != [] && !IsAsciiWhitespace(s[0])
    ensures var n := WordLength(s); IsExternal(s) <==> At(s[..n], SRC, 0) || IsExternal(s[n..])
  {
    var n := WordLength(s);
    var word, later := s[..n], Parts(s[n..]);
    assert Parts(s) == [word] + later;
    assert forall part :: part in [word] + later <==> part == word || part in later;
  }

  /** A text that starts with "src=" has it inside its first word. */
  lemma SrcInWord(s: string)
    requires s != [] && !IsAsciiWhitespace(s[0])
    ensures At(s[..WordLength(s)], SRC, 0) <==> BeginsAt(s, 0)
  {
    SrcIsPlain();
    var n := WordLength(s);
    AtChar(s, SRC, 0, n);
    assert |SRC| <= n ==> forall j | 0 <= j < |SRC| :: SRC[j] == s[..n][0 + j] <==> SRC[j] == s[0 + j];
  }

  /** Beyond position 0, "src=" begins a part exactly where it does in what follows the first n
      characters, when these are one white-space character or one word. */
  lemma BeginsLater(s: string, n: nat)
    requires 0 < n <= |s|
    requires (n == 1 && IsAsciiWhitespace(s[0]))
             || ((forall i | 0 <= i < n :: !IsAsciiWhitespace(s[i])) && (n < |s| ==> IsAsciiWhitespace(s[n])))
    ensures (exists k: nat :: BeginsAt(s, k)) <==> BeginsAt(s, 0) || exists k: nat :: BeginsAt(s[n..], k)
    ensures IsAsciiWhitespace(s[0]) ==> !BeginsAt(s, 0)
  {
    SrcIsPlain();
    forall k: nat
      ensures 0 < n + k && BeginsAt(s, n + k) <==> BeginsAt(s[n..], k)
    {
      AtShifted(s, SRC, n, k);
      AtChar(s[n..], SRC, k, 0);
    }
    if k: nat :| BeginsAt(s, k) && k != 0 {
      AtChar(s, SRC, k, 0);
      assert k >= n;
      assert BeginsAt(s[n..], k - n);
    }
    AtChar(s, SRC, 0, 0);
  }

  // ---- the scan ----

  /** Where the first script of a text starts, where its start tag ends, and where its end tag starts. */
  datatype Script = Script(start: nat, tagEnd: nat, close: nat)

  function FirstScript(s: string): (r: Result<Option<Script>, ScanError>)
    ensures r.Ok? && r.value.Some? ==>
              var f := r.value.value; f.start <= f.tagEnd < f.close && f.close + |CLOSE| <= |s|
  {
    match Find(s, OPEN)
    case None => Ok(None)
    case Some(start) =>
      match Find(s[start..], TAG_END)
      case None => Err(InvalidStaticIndex)
      case Some(tagEnd) =>
        match Find(s[start + tagEnd + 1..], CLOSE)
        case None => Err(InvalidStaticIndex)
        case Some(close) => Ok(Some(Script(start, start + tagEnd, start + tagEnd + 1 + close)))
  }

  /** The body of a script, unless its start tag has a src part. */
  function Inline(tag: string, body: string): seq<string> {
    if IsExternal(tag) then [] else [body]
  }

  /** The inline scripts of a text, in order. */
  function Scan(s: string): Result<seq<string>, ScanError>
    decreases |s|
  {
    match FirstScript(s)
    case Err(e) => Err(e)
    case Ok(None) => Ok([])
    case Ok(Some(f)) =>
      var rest := Scan(s[f.close + |CLOSE|..]);
      if rest.Err? then rest else Ok(Inline(s[f.start..f.tagEnd + 1], s[f.tagEnd + 1..f.close]) + rest.value)
  }

  function Digests(digest: string -> string, bodies: seq<string>): seq<string> {
    seq(|bodies|, i requires 0 <= i < |bodies| => digest(bodies[i]))
  }

  /** What remains of a scan after some bodies were collected. */
  predicate Continues(index: string, offset: nat, bodies: seq<string>)
    requires offset <= |index|
  {
    Scan(index) ==
      if Scan(index[offset..]).Ok? then Ok(bodies + Scan(index[offset..]).value) else Err(InvalidStaticIndex)
  }

  lemma ContinuesAtStart(index: string)
    ensures Continues(index, 0, [])
  {
    assert index[0..] == index;
    match Scan(index) {
      case Ok(bodies) => assert [] + bodies == bodies;
      case Err(e) => assert e.InvalidStaticIndex?;
    }
  }

  lemma ContinuesAfterScript(index: string, offset: nat, bodies: seq<string>, f: Script)
    requires offset <= |index| && Continues(index, offset, bodies) && FirstScript(index[offset..]) == Ok(Some(f))
    ensures var next :=
            bodies + Inline(index[offset + f.start..offset + f.tagEnd + 1],
            index[offset + f.tagEnd + 1..offset + f.close]);
            Continues(index, offset + f.close + |CLOSE|, next)
  {
    hide FirstScript, Inline;
    var s := index[offset..];
    assert s[f.close + |CLOSE|..] == index[offset + f.close + |CLOSE|..];
    assert s[f.start..f.tagEnd + 1] == index[offset + f.start..offset + f.tagEnd + 1];
    assert s[f.tagEnd + 1..f.close] == index[offset + f.tagEnd + 1..offset + f.close];
    var found := Inline(s[f.start..f.tagEnd + 1], s[f.tagEnd + 1..f.close]);
    var rest := Scan(s[f.close + |CLOSE|..]);
    assert rest.Ok? ==> bodies + found + rest.value == bodies + (found + rest.value);
  }

  lemma DigestsOneMore(digest: string -> string, bodies: seq<string>, body: string)
    ensures Digests(digest, bodies + [body]) == Digests(digest, bodies) + [digest(body)]
  {
  }

  lemma NoMoreScripts(index: string, offset: nat, bodies: seq<string>)
    requires offset <= |index| && Continues(index, offset, bodies)
    ensures FirstScript(index[offset..]) == Ok(None) ==> Scan(index) == Ok(bodies)
    ensures FirstScript(index[offset..]).Err? ==> Scan(index) == Err(InvalidStaticIndex)
  {
    hide FirstScript;
    assert bodies + [] == bodies;
  }

  method InlineScriptHashes(index: string, digest: string -> string) returns (r: Result<seq<string>, ScanError>)
    ensures r.Ok? <==> Scan(index).Ok?
    ensures r.Ok? ==>
              && |r.value| == |Scan(index).value|
              && forall i | 0 <= i < |r.value| :: r.value[i] == digest(Scan(index).value[i])
  {
    hide Scan, Continues, Digests, IsExternal, Find, At;
    var hashes: seq<string>, offset := [], 0;
    ghost var bodies: seq<string> := [];
    ContinuesAtStart(index);
    assert Digests(digest, []) == [] by {
      DigestsOfNothing(digest);
    }
    while true
      invariant 0 <= offset <= |index|
      invariant hashes == Digests(digest, bodies) && Continues(index, offset, bodies)
      decreases |index| - offset
    {
      ghost var s := index[offset..];
      NoMoreScripts(index, offset, bodies);
      var relativeStart := Find(index[offset..], OPEN);
      if relativeStart.None? {
        DigestsAre(digest, bodies);
        return Ok(hashes);
      }
      FoundIsInside(s, OPEN);
      var start := offset + relativeStart.value;
      assert s[relativeStart.value..] == index[start..];
      var relativeEnd := Find(index[start..], TAG_END);
      if relativeEnd.None? {
        return Err(InvalidStaticIndex);
      }
      FoundIsInside(index[start..], TAG_END);
      var tagEnd := start + relativeEnd.value;
      assert s[relativeStart.value + relativeEnd.value + 1..] == index[tagEnd + 1..];
      var relativeClose := Find(index[tagEnd + 1..], CLOSE);
      if relativeClose.None? {
        return Err(InvalidStaticIndex);
      }
      FoundIsInside(index[tagEnd + 1..], CLOSE);
      var closeStart := tagEnd + 1 + relativeClose.value;
      ghost var f := Script(start - offset, tagEnd - offset, closeStart - offset);
      assert FirstScript(s) == Ok(Some(f));
      ContinuesAfterScript(index, offset, bodies, f);
      if !IsExternal(index[start..tagEnd + 1]) {
        var script := index[tagEnd + 1..closeStart];
        DigestsOneMore(digest, bodies, script);
        hashes, bodies := hashes + [digest(script)], bodies + [script];
      } else {
        assert bodies + [] == bodies;
      }
      offset := closeStart + |CLOSE|;
    }
  }

  lemma DigestsAre(digest: string -> string, bodies: seq<string>)
    ensures var hashes := Digests(digest, bodies);
            |hashes| == |bodies| && forall i | 0 <= i < |bodies| :: hashes[i] == digest(bodies[i])
  {
  }

  lemma DigestsOfNothing(digest: string -> string)
    ensures Digests(digest, []) == []
  {
  }

  lemma FoundIsInside(s: string, p: string)
    ensures Find(s, p).Some? ==> Find(s, p).value + |p| <= |s|
  {
  }

  // ---- printing ----

  datatype Element = Element(attributes: string, body: string)

  /** Text, and then elements each followed by text. */
  datatype Document = Document(head: string, elements: seq<(Element, string)>)

  function StartTag(e: Element): string {
    OPEN + e.attributes + TAG_END
  }

  function PrintElement(e: Element): string {
    StartTag(e) + e.body + CLOSE
  }

  function Print(d: Document): string
    decreases |d.elements|
  {
    if d.elements == [] then d.head
    else d.head + (PrintElement(d.elements[0].0) + Print(Document(d.elements[0].1, d.elements[1..])))
  }

  ghost predicate WellFormedElement(e: Element) {
    '>' !in e.attributes && !Contains(e.body, CLOSE)
  }

  ghost predicate WellFormed(d: Document) {
    && !Contains(d.head, OPEN)
    && forall p | p in d.elements :: WellFormedElement(p.0) && !Contains(p.1, OPEN)
  }

  /** "src=" begins no part of the start tag. */
  ghost predicate HasNoSrc(e: Element) {
    forall k: nat :: !BeginsAt(StartTag(e), k)
  }

  /** The bodies of the elements without a src part, in order. */
  ghost function InlineBodies(elements: seq<(Element, string)>): seq<string> {
    if elements == [] then []
    else (if HasNoSrc(elements[0].0) then [elements[0].0.body] else []) + InlineBodies(elements[1..])
  }

  lemma InlineMeansNoSrc(e: Element)
    ensures Inline(StartTag(e), e.body) == if HasNoSrc(e) then [e.body] else []
  {
    ExternalMeansSrcBeginsAPart(StartTag(e));
    hide StartTag, BeginsAt, IsExternal;
  }

  lemma PatternsLead()
    ensures LeadOnly(OPEN) && LeadOnly(CLOSE) && LeadOnly(TAG_END) && '>' !in OPEN && |OPEN| == 7 && |CLOSE| == 9
            && TAG_END == ['>']
  {
  }

  lemma NoTagEnd(s: string)
    requires '>' !in s
    ensures !Contains(s, TAG_END)
  {
    Occurrences(s, TAG_END);
  }

  lemma CutAt(a: string, b: string)
    ensures (a + b)[|a|..] == b && (a + b)[..|a|] == a
  {
  }

  lemma Regrouped(lead: string, open: string, tail: string, rest: string)
    requires open <= lead && tail == lead[|open|..]
    ensures lead + rest == open + (tail + rest)
  {
  }

  lemma CutTwice(text: string, lead: string, mark: string, rest: string)
    requires |mark| == 1
    ensures var s := text + (lead + (mark + rest));
            |text| + |lead| + 1 <= |s| && s[|text| + |lead| + 1..] == rest
  {
  }

  /** What the scan finds first in a text, an element and whatever follows. */
  lemma FirstScriptOf(text: string, open: string, lead: string, body: string, rest: string)
    requires open == OPEN && open <= lead && !Contains(text, open) && '>' !in lead && !Contains(body, CLOSE)
    ensures FirstScript(text + (lead + (TAG_END + (body + (CLOSE + rest))))) ==
              Ok(Some(Script(|text|, |text| + |lead|, |text| + |lead| + 1 + |body|)))
  {
    hide *;
    PatternsLead();
    OpenIs();
    var tail := lead[|open|..];
    var afterTag := body + (CLOSE + rest);
    var tag := lead + (TAG_END + afterTag);
    Regrouped(lead, open, tail, TAG_END + afterTag);
    FindsAfter(text, open, tail + (TAG_END + afterTag));
    NoTagEnd(lead);
    FindsAfter(lead, TAG_END, afterTag);
    FindsAfter(body, CLOSE, rest);
    CutAt(text, tag);
    CutTwice(text, lead, TAG_END, afterTag);
    FirstScriptIs(text + tag, |text|, |lead|, |body|);
  }

  lemma OpenIs()
    ensures forall s :: s == OPEN ==> LeadOnly(s)
  {
  }

  lemma FirstScriptIs(s: string, start: nat, tagEnd: nat, close: nat)
    requires Find(s, OPEN) == Some(start) && start <= |s| && Find(s[start..], TAG_END) == Some(tagEnd)
    requires start + tagEnd + 1 <= |s| && Find(s[start + tagEnd + 1..], CLOSE) == Some(close)
    ensures FirstScript(s) == Ok(Some(Script(start, start + tagEnd, start + tagEnd + 1 + close)))
  {
    hide Find;
  }

  /** One element: what the scan finds in a text, an element and what follows. */
  lemma ScanElement(text: string, e: Element, rest: string)
    requires !Contains(text, OPEN) && WellFormedElement(e)
    ensures Scan(text + (PrintElement(e) + rest)) ==
              if Scan(rest).Err? then Scan(rest) else Ok(Inline(StartTag(e), e.body) + Scan(rest).value)
  {
    hide *;
    ElementParts(e);
    var lead, close := OPEN + e.attributes, CLOSE;
    var f := Script(|text|, |text| + |lead|, |text| + |lead| + 1 + |e.body|);
    var s := text + (lead + (TAG_END + (e.body + (close + rest))));
    FirstScriptOf(text, OPEN, lead, e.body, rest);
    Pieces(text, lead, TAG_END, e.body, close, rest);
    ScanStep(s, f);
  }

  lemma ElementParts(e: Element)
    requires WellFormedElement(e)
    ensures OPEN <= OPEN + e.attributes && '>' !in OPEN + e.attributes && !Contains(e.body, CLOSE) && |TAG_END| == 1
    ensures StartTag(e) == OPEN + e.attributes + TAG_END
            && PrintElement(e) == OPEN + e.attributes + TAG_END + e.body + CLOSE
  {
    PatternsLead();
  }

  lemma ScanStep(s: string, f: Script)
    requires FirstScript(s) == Ok(Some(f))
    ensures var rest := Scan(s[f.close + |CLOSE|..]);
            Scan(s) == if rest.Err? then rest
              else Ok(Inline(s[f.start..f.tagEnd + 1], s[f.tagEnd + 1..f.close]) + rest.value)
  {
    hide FirstScript, Inline;
  }

  lemma Pieces(text: string, lead: string, mark: string, body: string, close: string, rest: string)
    requires |mark| == 1
    ensures var s := text + (lead + (mark + (body + (close + rest))));
            && s == text + ((lead + mark + body + close) + rest)
            && |s| == |text| + |lead| + 1 + |body| + |close| + |rest|
            && s[|text|..|text| + |lead| + 1] == lead + mark
            && s[|text| + |lead| + 1..|text| + |lead| + 1 + |body|] == body
            && s[|text| + |lead| + 1 + |body| + |close|..] == rest
  {
  }

  /** The scan of a printed document returns, in order, the bodies of exactly those elements in whose start
      tag "src=" begins no part. */
  lemma {:induction false} ScanPrinted(d: Document)
    requires WellFormed(d)
    ensures Scan(Print(d)) == Ok(InlineBodies(d.elements))
    decreases |d.elements|
  {
    if d.elements == [] {
      assert Find(d.head, OPEN).None?;
    } else {
      assert d.elements[0] in d.elements;
      var rest := Document(d.elements[0].1, d.elements[1..]);
      ScanPrinted(rest);
      ScanElement(d.head, d.elements[0].0, Print(rest));
      InlineMeansNoSrc(d.elements[0].0);
    }
  }

  /** Conversely, whatever the scan accepts is such a document: it rejects exactly the pages in which a
      script tag or a script is not closed. */
  lemma {:induction false} ScannedIsPrinted(s: string)
    requires Scan(s).Ok?
    ensures exists d :: WellFormed(d) && Print(d) == s
    decreases |s|
  {
    hide *;
    ScanStepOk(s);
    var first := FirstScript(s).value;
    if first.None? {
      OnlyText(s);
    } else {
      var f := first.value;
      var later := s[f.close + |CLOSE|..];
      ScannedIsPrinted(later);
      var inner :| WellFormed(inner) && Print(inner) == later;
      var e := FoundElement(s, f);
      Prepended(s[..f.start], e, inner);
    }
  }

  /** The scan accepts exactly the pages that are printed documents, and returns their inline scripts
      however they are read as one. */
  lemma ScanAcceptsExactlyDocuments(s: string)
    ensures Scan(s).Ok? <==> exists d :: WellFormed(d) && Print(d) == s
    ensures forall d | WellFormed(d) && Print(d) == s :: Scan(s) == Ok(InlineBodies(d.elements))
  {
    hide *;
    if Scan(s).Ok? {
      ScannedIsPrinted(s);
    }
    forall d | WellFormed(d) && Print(d) == s
      ensures Scan(s) == Ok(InlineBodies(d.elements))
    {
      ScanPrinted(d);
    }
  }

  lemma ScanStepOk(s: string)
    requires Scan(s).Ok?
    ensures FirstScript(s).Ok?
    ensures FirstScript(s).value.Some? ==>
              var f := FirstScript(s).value.value;
              f.start <= |s| && f.close + |CLOSE| <= |s| && |s[f.close + |CLOSE|..]| < |s|
                && Scan(s[f.close + |CLOSE|..]).Ok?
  {
    PatternsLead();
    hide FirstScript, Inline;
  }

  lemma OnlyText(s: string)
    requires FirstScript(s) == Ok(None)
    ensures WellFormed(Document(s, [])) && Print(Document(s, [])) == s
  {
  }

  lemma Prepended(head: string, e: Element, inner: Document)
    requires WellFormedElement(e) && !Contains(head, OPEN) && WellFormed(inner)
    ensures var d := Document(head, [(e, inner.head)] + inner.elements);
            WellFormed(d) && Print(d) == head + (PrintElement(e) + Print(inner))
  {
    var d := Document(head, [(e, inner.head)] + inner.elements);
    assert d.elements[1..] == inner.elements;
    hide Contains, WellFormedElement, PrintElement;
  }

  lemma FoundElement(s: string, f: Script) returns (e: Element)
    requires FirstScript(s) == Ok(Some(f))
    ensures WellFormedElement(e) && !Contains(s[..f.start], OPEN)
    ensures s == s[..f.start] + (PrintElement(e) + s[f.close + |CLOSE|..])
  {
    hide *;
    FoundBounds(s, f);
    e := Element(s[f.start + |OPEN|..f.tagEnd], s[f.tagEnd + 1..f.close]);
    FoundIsWellFormed(s, f, e);
    FoundSlices(s, f);
    Printed(e);
    Reassembled(s, f, OPEN, TAG_END, CLOSE);
  }

  lemma FoundBounds(s: string, f: Script)
    requires FirstScript(s) == Ok(Some(f))
    ensures f.start + |OPEN| <= f.tagEnd < f.close && f.close + |CLOSE| <= |s| && |TAG_END| == 1
  {
    TagIsAtLeastOpen(s, f);
  }

  lemma Printed(e: Element)
    ensures PrintElement(e) == OPEN + e.attributes + TAG_END + e.body + CLOSE
  {
  }

  lemma FirstScriptFinds(s: string, f: Script)
    requires FirstScript(s) == Ok(Some(f))
    ensures Find(s, OPEN) == Some(f.start) && Find(s[f.start..], TAG_END) == Some(f.tagEnd - f.start)
    ensures Find(s[f.tagEnd + 1..], CLOSE) == Some(f.close - f.tagEnd - 1)
    ensures OPEN != [] && CLOSE != []
  {
    hide Find, At;
  }

  lemma BeforeFoundLacks(s: string, p: string, i: nat)
    requires Find(s, p) == Some(i)
    ensures i <= |s| && (p != [] ==> !Contains(s[..i], p))
  {
    if p != [] {
      PrefixLacks(s, p, i);
    }
  }

  lemma AtTagEnd(s: string, i: nat)
    ensures At(s, TAG_END, i) <==> i < |s| && s[i] == '>'
  {
    AtChar(s, TAG_END, i, 0);
  }

  lemma NoneBefore(s: string, p: string, n: nat, i: nat)
    requires Find(s, p) == Some(n) && i < n
    ensures !At(s, p, i)
  {
  }

  lemma NotInPrefix(s: string, n: nat, i: nat)
    requires Find(s, TAG_END) == Some(n) && i <= n < |s|
    ensures '>' !in s[i..n]
  {
    hide *;
    forall j | i <= j < n
      ensures s[j] != '>'
    {
      NoneBefore(s, TAG_END, n, j);
      AtTagEnd(s, j);
    }
  }

  lemma FoundIsWellFormed(s: string, f: Script, e: Element)
    requires FirstScript(s) == Ok(Some(f)) && f.start + |OPEN| <= f.tagEnd
    requires e == Element(s[f.start + |OPEN|..f.tagEnd], s[f.tagEnd + 1..f.close])
    ensures WellFormedElement(e) && !Contains(s[..f.start], OPEN)
  {
    hide *;
    FirstScriptFinds(s, f);
    var tag, body, m := s[f.start..], s[f.tagEnd + 1..], f.close - f.tagEnd - 1;
    BeforeFoundLacks(s, OPEN, f.start);
    BeforeFoundLacks(body, CLOSE, m);
    NotInPrefix(tag, f.tagEnd - f.start, |OPEN|);
    SliceOfSuffix(s, f.tagEnd + 1, 0, m);
    SliceOfSuffix(s, f.start, |OPEN|, f.tagEnd - f.start - |OPEN|);
    IsWellFormed(e);
  }

  lemma IsWellFormed(e: Element)
    requires '>' !in e.attributes && !Contains(e.body, CLOSE)
    ensures WellFormedElement(e)
  {
  }

  lemma FoundSlices(s: string, f: Script)
    requires FirstScript(s) == Ok(Some(f)) && |TAG_END| == 1
    ensures f.start + |OPEN| <= |s| && s[f.start..f.start + |OPEN|] == OPEN && s[f.tagEnd..f.tagEnd + 1] == TAG_END
    ensures s[f.close..f.close + |CLOSE|] == CLOSE
  {
    hide *;
    FirstScriptFinds(s, f);
    FoundSlice(s, OPEN, f.start);
    FoundSlice(s[f.start..], TAG_END, f.tagEnd - f.start);
    FoundSlice(s[f.tagEnd + 1..], CLOSE, f.close - f.tagEnd - 1);
    SliceOfSuffix(s, f.start, f.tagEnd - f.start, 1);
    SliceOfSuffix(s, f.tagEnd + 1, f.close - f.tagEnd - 1, |CLOSE|);
  }

  lemma FoundSlice(s: string, p: string, i: nat)
    requires Find(s, p) == Some(i)
    ensures i + |p| <= |s| && s[i..i + |p|] == p
  {
    AtIsSlice(s, p, i);
  }

  lemma SliceOfSuffix(s: string, n: nat, i: nat, k: nat)
    requires n + i + k <= |s|
    ensures s[n..][i..i + k] == s[n + i..n + i + k]
  {
  }

  lemma AtIsSlice(s: string, p: string, i: nat)
    requires At(s, p, i)
    ensures s[i..i + |p|] == p
  {
    assert forall j | 0 <= j < |p| :: s[i + j] == p[j];
  }

  lemma TagIsAtLeastOpen(s: string, f: Script)
    requires FirstScript(s) == Ok(Some(f))
    ensures f.start + |OPEN| <= f.tagEnd
  {
    PatternsLead();
    var n := f.tagEnd - f.start;
    assert At(s, OPEN, f.start) && At(s[f.start..], TAG_END, n);
    AtChar(s[f.start..], TAG_END, n, 0);
    AtChar(s, OPEN, f.start, n);
  }

  lemma Reassembled(s: string, f: Script, open: string, tagEnd: string, close: string)
    requires f.start + |open| <= f.tagEnd < f.close && f.close + |close| <= |s| && |tagEnd| == 1
    requires s[f.start..f.start + |open|] == open && s[f.tagEnd..f.tagEnd + 1] == tagEnd
             && s[f.close..f.close + |close|] == close
    ensures s
            == s[..f.start]
            + ((open + s[f.start + |open|..f.tagEnd] + tagEnd + s[f.tagEnd + 1..f.close] + close)
            + s[f.close + |close|..])
  {
    var tag := s[f.start..f.tagEnd + 1];
    assert tag == open + s[f.start + |open|..f.tagEnd] + tagEnd;
    var element := s[f.start..f.close + |close|];
    assert element == tag + s[f.tagEnd + 1..f.close] + close;
  }
}
