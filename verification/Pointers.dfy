/** JSON pointer text, sections 3 and 4 of RFC 6901: how rust/src/assistant/tools.rs escapes a key,
    appends it to a pointer and unescapes it again. */
module Pointers {
  import opened Wrappers

  /** str::replace of one character. */
  function ReplaceChar(s: string, c: char, with: string): string {
    if s == [] then [] else (if s[0] == c then with else [s[0]]) + ReplaceChar(s[1..], c, with)
  }

  /** str::replace of a pattern of two characters, left to right without overlap. */
  function ReplacePair(s: string, first: char, second: char, with: char): string {
    if |s| < 2 then s
    else if s[0] == first && s[1] == second then [with] + ReplacePair(s[2..], first, second, with)
    else [s[0]] + ReplacePair(s[1..], first, second, with)
  }

  function Escape(key: string): string {
    ReplaceChar(ReplaceChar(key, '~', "~0"), '/', "~1")
  }

  function Unescape(token: string): string {
    ReplacePair(ReplacePair(token, '~', '1', '/'), '~', '0', '~')
  }

  lemma {:induction false} ReplaceCharAppends(a: string, b: string, c: char, with: string)
    ensures ReplaceChar(a + b, c, with) == ReplaceChar(a, c, with) + ReplaceChar(b, c, with)
  {
    if a == [] {
      assert a + b == b;
    } else {
      hide *;
      ReplaceCharAppends(a[1..], b, c, with);
      assert (a + b)[1..] == a[1..] + b;
      ReplaceCharUnfolds(a, c, with);
      ReplaceCharUnfolds(a + b, c, with);
      Associative(if a[0] == c then with else [a[0]], ReplaceChar(a[1..], c, with), ReplaceChar(b, c, with));
    }
  }

  lemma Associative(x: string, y: string, z: string)
    ensures x + (y + z) == x + y + z
  {
  }

  lemma ReplaceCharUnfolds(s: string, c: char, with: string)
    requires s != []
    ensures ReplaceChar(s, c, with) == (if s[0] == c then with else [s[0]]) + ReplaceChar(s[1..], c, with)
  {
  }

  function EscapedChar(c: char): string {
    if c == '~' then "~0" else if c == '/' then "~1" else [c]
  }

  lemma EscapeUnfolds(key: string)
    requires key != []
    ensures Escape(key) == EscapedChar(key[0]) + Escape(key[1..])
  {
    var head := if key[0] == '~' then "~0" else [key[0]];
    ReplaceCharAppends(head, ReplaceChar(key[1..], '~', "~0"), '/', "~1");
    assert ReplaceChar(head, '/', "~1") == EscapedChar(key[0]) by {
      if key[0] == '~' {
        assert head[1..] == ['0'] && head[1..][1..] == [];
      } else {
        assert head[1..] == [];
      }
    }
  }

  function TildeEscapedChar(c: char): string {
    if c == '~' then "~0" else [c]
  }

  /** The first pass of Unescape applied to an escaped key: slashes are back, tildes are not. */
  function TildesEscaped(key: string): string {
    if key == [] then [] else TildeEscapedChar(key[0]) + TildesEscaped(key[1..])
  }

  lemma {:induction false} FirstPass(key: string)
    ensures ReplacePair(Escape(key), '~', '1', '/') == TildesEscaped(key)
  {
    assert key == [] ==> Escape(key) == [];
    hide Escape, EscapedChar, TildeEscapedChar;
    if key != [] {
      EscapeUnfolds(key);
      FirstPass(key[1..]);
      FirstPassStep(key[0], Escape(key[1..]));
    }
  }

  lemma FirstPassStep(c: char, rest: string)
    ensures ReplacePair(EscapedChar(c) + rest, '~', '1', '/') == TildeEscapedChar(c) + ReplacePair(rest, '~', '1', '/')
  {
    if c == '~' {
      assert EscapedChar(c) + rest == ['~'] + (['0'] + rest);
      KeepTilde(rest);
    } else if c == '/' {
      MatchPair(rest, '~', '1', '/');
    } else {
      SkipChar(c, rest, '~', '1', '/');
    }
  }

  lemma KeepTilde(rest: string)
    ensures ReplacePair(['~'] + (['0'] + rest), '~', '1', '/') == ['~'] + (['0'] + ReplacePair(rest, '~', '1', '/'))
  {
    assert (['~'] + (['0'] + rest))[1..] == ['0'] + rest;
    SkipChar('0', rest, '~', '1', '/');
  }

  lemma MatchPair(rest: string, first: char, second: char, with: char)
    ensures ReplacePair([first, second] + rest, first, second, with) == [with] + ReplacePair(rest, first, second, with)
  {
    assert ([first, second] + rest)[2..] == rest;
  }

  lemma SkipChar(c: char, rest: string, first: char, second: char, with: char)
    requires c != first
    ensures ReplacePair([c] + rest, first, second, with) == [c] + ReplacePair(rest, first, second, with)
  {
    assert ([c] + rest)[1..] == rest;
  }

  lemma {:induction false} SecondPass(key: string)
    ensures ReplacePair(TildesEscaped(key), '~', '0', '~') == key
  {
    if key != [] {
      SecondPass(key[1..]);
      var rest := TildesEscaped(key[1..]);
      assert key == [key[0]] + key[1..];
      if key[0] == '~' {
        MatchPair(rest, '~', '0', '~');
      } else {
        SkipChar(key[0], rest, '~', '0', '~');
      }
    }
  }

  /** Unescaping an escaped key returns it, for every key. */
  lemma UnescapeEscape(key: string)
    ensures Unescape(Escape(key)) == key
  {
    FirstPass(key);
    SecondPass(key);
  }

  lemma {:induction false} EscapedHasNoSlash(key: string)
    ensures '/' !in Escape(key)
  {
    if key != [] {
      EscapeUnfolds(key);
      EscapedHasNoSlash(key[1..]);
    }
  }

  lemma {:induction false} PlainKeysAreUnchanged(key: string)
    requires '~' !in key && '/' !in key
    ensures Escape(key) == key
  {
    if key != [] {
      EscapeUnfolds(key);
      PlainKeysAreUnchanged(key[1..]);
      assert key == [key[0]] + key[1..];
    }
  }

  // ---- whole pointers ----

  /** The pointer text of a path of keys. */
  function Render(path: seq<string>): string {
    if path == [] then "" else Render(path[..|path| - 1]) + "/" + Escape(path[|path| - 1])
  }

  lemma {:induction false} RenderPrepends(key: string, path: seq<string>)
    ensures Render([key] + path) == "/" + Escape(key) + Render(path)
  {
    if path == [] {
      assert ([key] + path)[..0] == [] && [key] + path == [key];
    } else {
      var whole := [key] + path;
      assert whole[..|whole| - 1] == [key] + path[..|path| - 1];
      RenderPrepends(key, path[..|path| - 1]);
    }
  }

  lemma RenderAppends(path: seq<string>, key: string)
    ensures Render(path + [key]) == Render(path) + "/" + Escape(key)
  {
    assert (path + [key])[..|path|] == path;
  }

  /** Length of the text before the first slash. */
  function TokenLength(s: string): (n: nat)
    ensures n <= |s| && '/' !in s[..n] && (n < |s| ==> s[n] == '/')
  {
    if s == [] || s[0] == '/' then 0 else 1 + TokenLength(s[1..])
  }

  /** The keys of a pointer: the tokens after each slash, unescaped. */
  function Parse(pointer: string): seq<string>
    decreases |pointer|
  {
    if pointer == [] then [] else
      var n := TokenLength(pointer[1..]);
      [Unescape(pointer[1..][..n])] + Parse(pointer[1..][n..])
  }

  lemma {:induction false} TokenLengthIs(token: string, rest: string)
    requires '/' !in token && (rest == [] || rest[0] == '/')
    ensures TokenLength(token + rest) == |token|
  {
    if token == [] {
      assert token + rest == rest;
    } else {
      TokenLengthIs(token[1..], rest);
      assert (token + rest)[1..] == token[1..] + rest;
    }
  }

  lemma RenderStartsWithSlash(path: seq<string>)
    ensures path != [] ==> Render(path) != [] && Render(path)[0] == '/'
  {
    if path != [] {
      RenderPrepends(path[0], path[1..]);
      assert path == [path[0]] + path[1..];
    }
  }

  /** Pointer text determines its path. */
  lemma {:induction false} ParseRender(path: seq<string>)
    ensures Parse(Render(path)) == path
  {
    if path != [] {
      var key, rest := path[0], path[1..];
      assert path == [key] + rest;
      RenderPrepends(key, rest);
      EscapedHasNoSlash(key);
      RenderStartsWithSlash(rest);
      TokenLengthIs(Escape(key), Render(rest));
      var tail := Render(path)[1..];
      assert tail == Escape(key) + Render(rest);
      assert tail[..|Escape(key)|] == Escape(key) && tail[|Escape(key)|..] == Render(rest);
      UnescapeEscape(key);
      ParseRender(rest);
    }
  }

  /** Distinct key paths have distinct pointers. */
  lemma RenderIsInjective(p: seq<string>, q: seq<string>)
    requires Render(p) == Render(q)
    ensures p == q
  {
    ParseRender(p);
    ParseRender(q);
  }

  lemma SameFirstToken(k: string, inner: string, l: string, outer: string)
    requires '/' !in k && '/' !in l && k + inner <= l + outer
    requires inner != [] && inner[0] == '/' && (outer == [] || outer[0] == '/')
    ensures k == l && inner <= outer
  {
    var a, b := k + inner, l + outer;
    assert a == b[..|a|];
    TokenLengthIs(k, inner);
    TokenLengthIs(l, outer);
    assert a[|k|] == '/' && b[|k|] == '/';
    assert k == a[..|k|] && l == b[..|k|];
    assert inner == a[|k|..] && outer == b[|k|..];
  }

  lemma SameFirstSlashedToken(p: string, k: string, inner: string, q: string, l: string, outer: string)
    requires '/' !in k && '/' !in l && p + "/" <= q
    requires p == "/" + k + inner && q == "/" + l + outer
    requires (inner == [] || inner[0] == '/') && (outer == [] || outer[0] == '/')
    ensures k == l && inner + "/" <= outer
  {
    var a, b := k + (inner + "/"), l + outer;
    assert a == (p + "/")[1..] && b == q[1..];
    assert |a| <= |b| && forall i | 0 <= i < |a| :: a[i] == (p + "/")[i + 1] && b[i] == q[i + 1];
    SameFirstToken(k, inner + "/", l, outer);
  }

  lemma InsideStep(k: string, p: seq<string>, l: string, q: seq<string>)
    requires Render([k] + p) + "/" <= Render([l] + q)
    ensures k == l && Render(p) + "/" <= Render(q)
  {
    RenderPrepends(k, p);
    RenderPrepends(l, q);
    EscapedHasNoSlash(k);
    EscapedHasNoSlash(l);
    RenderStartsWithSlash(p);
    RenderStartsWithSlash(q);
    assert p == [] ==> Render(p) == [];
    assert q == [] ==> Render(q) == [];
    UnescapeEscape(k);
    UnescapeEscape(l);
    hide Render, Escape, Unescape;
    SameFirstSlashedToken(Render([k] + p), Escape(k), Render(p), Render([l] + q), Escape(l), Render(q));
  }

  /** One pointer text addresses a place inside the other only when its path is a prefix. */
  lemma {:induction false} InsideMeansPrefix(p: seq<string>, q: seq<string>)
    requires Render(p) + "/" <= Render(q)
    ensures p < q
  {
    assert q != [];
    hide Render;
    if p != [] {
      assert p == [p[0]] + p[1..] && q == [q[0]] + q[1..];
      InsideStep(p[0], p[1..], q[0], q[1..]);
      InsideMeansPrefix(p[1..], q[1..]);
    }
  }

  // ---- array indices ----

  function Digit(d: nat): char
    requires d < 10
  {
    '0' + d as char
  }

  /** The decimal text of an array index. */
  function Decimal(n: nat): (s: string)
    ensures s != [] && forall c | c in s :: '0' <= c <= '9'
  {
    if n < 10 then [Digit(n)] else Decimal(n / 10) + [Digit(n % 10)]
  }

  function IndexOf(token: string): Option<nat> {
    if token == [] then None
    else
      var last := token[|token| - 1];
      if !('0' <= last <= '9') then None
      else if |token| == 1 then Some(last as nat - '0' as nat)
      else
        var rest := IndexOf(token[..|token| - 1]);
        if rest.None? then None else Some(10 * rest.value + (last as nat - '0' as nat))
  }

  lemma {:induction false} IndexOfDecimal(n: nat)
    ensures IndexOf(Decimal(n)) == Some(n)
  {
    if n >= 10 {
      IndexOfDecimal(n / 10);
      var s := Decimal(n);
      assert s[..|s| - 1] == Decimal(n / 10);
    }
  }

  lemma DecimalIsPlain(n: nat)
    ensures Escape(Decimal(n)) == Decimal(n)
  {
    PlainKeysAreUnchanged(Decimal(n));
  }

  /** Escaping works character by character: a tilde becomes ~0, a slash ~1, and nothing else changes. */
  lemma EscapesExactly(a: string, b: string)
    ensures Escape(a + b) == Escape(a) + Escape(b)
    ensures Escape("~") == "~0" && Escape("/") == "~1"
    ensures '~' !in a && '/' !in a ==> Escape(a) == a
  {
    ReplaceCharAppends(a, b, '~', "~0");
    ReplaceCharAppends(ReplaceChar(a, '~', "~0"), ReplaceChar(b, '~', "~0"), '/', "~1");
    EscapeUnfolds("~");
    EscapeUnfolds("/");
    assert "~"[1..] == [] && "/"[1..] == [] && Escape([]) == [];
    if '~' !in a && '/' !in a {
      PlainKeysAreUnchanged(a);
    }
  }
}
