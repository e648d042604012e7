/** Two scans of blockscout-graphql-guard.ts: dropping string literals and comments
    from a GraphQL document, and bounding how deep its braces nest. */
module GraphQlGuard {
  import opened JsText

  const QUOTE: CodeUnit := 34
  const HASH: CodeUnit := 35
  const BACKSLASH: CodeUnit := 92
  const NEWLINE: CodeUnit := 10
  const SPACE: CodeUnit := 32
  const OPEN: CodeUnit := 123
  const CLOSE: CodeUnit := 125

  // ------------------------------------------------- strings and comments

  predicate TripleQuote(t: Text) { |t| >= 3 && t[0] == QUOTE && t[1] == QUOTE && t[2] == QUOTE }

  /** How much of the text is inside a block string and its closing quotes. */
  function BlockEnd(t: Text): (k: nat)
    ensures k <= |t|
  {
    if t == [] then 0 else if TripleQuote(t) then 3 else 1 + BlockEnd(t[1..])
  }

  /** How much is inside a string, where a backslash hides what follows it. */
  function StringEnd(t: Text): (k: nat)
    ensures k <= |t|
    decreases |t|
  {
    if t == [] then 0
    else if t[0] == QUOTE then 1
    else if t[0] == BACKSLASH then if |t| == 1 then 1 else 2 + StringEnd(t[2..])
    else 1 + StringEnd(t[1..])
  }

  /** How much is left of a comment's line. */
  function CommentEnd(t: Text): (k: nat)
    ensures k <= |t|
  {
    if t == [] || t[0] == NEWLINE then 0 else 1 + CommentEnd(t[1..])
  }

  function Strip(t: Text): (r: Text)
    ensures |r| <= |t|
    decreases |t|
  {
    if t == [] then []
    else if TripleQuote(t) then [SPACE] + Strip(t[3..][BlockEnd(t[3..])..])
    else if t[0] == QUOTE then [SPACE] + Strip(t[1..][StringEnd(t[1..])..])
    else if t[0] == HASH then [SPACE] + Strip(t[1..][CommentEnd(t[1..])..])
    else [t[0]] + Strip(t[1..])
  }

  /** `stripStringsAndComments`: the index may pass the end when a literal does not. */
  method StripStringsAndComments(src: Text) returns (out: Text)
    ensures out == Strip(src)
  {
    out := [];
    var i := 0;
    var n := |src|;
    while i < n
      invariant 0 <= i
      invariant out + Strip(src[Clamp(i, n)..]) == Strip(src)
      decreases n - i
    {
      ghost var here := src[i..];
      var ch := src[i];
      if ch == QUOTE && i + 2 < n && src[i + 1] == QUOTE && src[i + 2] == QUOTE {
        i := SkipBlock(src, i);
        Regroup(out, [SPACE], Strip(src[Clamp(i, n)..]));
        out := out + [SPACE];
        continue;
      }
      if ch == QUOTE {
        i := SkipString(src, i);
        Regroup(out, [SPACE], Strip(src[Clamp(i, n)..]));
        out := out + [SPACE];
        continue;
      }
      if ch == HASH {
        i := SkipComment(src, i);
        Regroup(out, [SPACE], Strip(src[Clamp(i, n)..]));
        out := out + [SPACE];
        continue;
      }
      assert here[1..] == src[i + 1..];
      Regroup(out, [ch], Strip(src[i + 1..]));
      out := out + [ch];
      i := i + 1;
    }
    assert src[n..] == [];
  }

  function Clamp(i: nat, n: nat): (k: nat)
    ensures k <= n
  {
    if i < n then i else n
  }

  lemma Regroup(a: Text, b: Text, c: Text)
    ensures a + b + c == a + (b + c)
  {
  }

  lemma Tail(src: Text, i: nat, d: nat, k: nat)
    requires i + d <= |src| && k <= |src| - i - d
    ensures src[i..][d..] == src[i + d..] && src[i..][d..][k..] == src[i + d + k..]
  {
  }

  /** The inner loops, from the opening of a literal to behind its end. */
  method SkipBlock(src: Text, start: nat) returns (i: nat)
    requires start + 2 < |src|
    ensures i > start && src[Clamp(i, |src|)..] == src[start..][3..][BlockEnd(src[start..][3..])..]
  {
    var n := |src|;
    i := start + 3;
    ghost var body := src[i..];
    while i < n && !(i + 2 < n && src[i] == QUOTE && src[i + 1] == QUOTE && src[i + 2] == QUOTE)
      invariant start + 3 <= i <= n
      invariant BlockEnd(body) == i - (start + 3) + BlockEnd(src[i..])
    {
      assert src[i..][1..] == src[i + 1..];
      i := i + 1;
    }
    Tail(src, start, 3, BlockEnd(body));
    assert body == src[start..][3..];
    i := i + 3;
  }

  lemma StringStep(src: Text, i: nat)
    requires i < |src| && src[i] != QUOTE
    ensures var j := if src[i] == BACKSLASH then Clamp(i + 2, |src|) else i + 1;
            StringEnd(src[i..]) == j - i + StringEnd(src[j..])
  {
    if src[i] != BACKSLASH {
      assert src[i..][1..] == src[i + 1..];
    } else if i + 2 <= |src| {
      assert src[i..][2..] == src[i + 2..];
    }
  }

  lemma StringStop(src: Text, i: nat)
    requires i < |src| ==> src[i] == QUOTE
    ensures StringEnd(src[Clamp(i, |src|)..]) == if i < |src| then 1 else 0
  {
  }

  method SkipString(src: Text, start: nat) returns (i: nat)
    requires start < |src|
    ensures i > start && src[Clamp(i, |src|)..] == src[start..][1..][StringEnd(src[start..][1..])..]
  {
    hide StringEnd;
    var n := |src|;
    i := start + 1;
    ghost var body := src[i..];
    while i < n && src[i] != QUOTE
      invariant start + 1 <= i <= n + 1
      invariant StringEnd(body) == Clamp(i, n) - (start + 1) + StringEnd(src[Clamp(i, n)..])
      decreases n - i
    {
      StringStep(src, i);
      if src[i] == BACKSLASH { i := i + 1; }
      i := i + 1;
    }
    Tail(src, start, 1, StringEnd(body));
    StringStop(src, i);
    assert body == src[start..][1..];
    i := i + 1;
  }

  method SkipComment(src: Text, start: nat) returns (i: nat)
    requires start < |src| && src[start] == HASH
    ensures i > start && src[Clamp(i, |src|)..] == src[start..][1..][CommentEnd(src[start..][1..])..]
  {
    var n := |src|;
    i := start;
    ghost var body := src[start + 1..];
    while i < n && src[i] != NEWLINE
      invariant start <= i <= n
      invariant i > start ==> CommentEnd(body) == i - (start + 1) + CommentEnd(src[i..])
    {
      assert src[i..][1..] == src[i + 1..];
      i := i + 1;
    }
    Tail(src, start, 1, CommentEnd(body));
    assert body == src[start..][1..];
  }

  // -------------------------------------------------- what stripping leaves

  /** No quote and no hash. */
  predicate Clean(t: Text) { forall i :: 0 <= i < |t| ==> t[i] != QUOTE && t[i] != HASH }

  lemma {:induction false} StripCleans(t: Text)
    ensures Clean(Strip(t))
    decreases |t|
  {
    if t != [] {
      if TripleQuote(t) {
        StripCleans(t[3..][BlockEnd(t[3..])..]);
      } else if t[0] == QUOTE {
        StripCleans(t[1..][StringEnd(t[1..])..]);
      } else if t[0] == HASH {
        StripCleans(t[1..][CommentEnd(t[1..])..]);
      } else {
        StripCleans(t[1..]);
      }
    }
  }

  lemma StripPlain(t: Text)
    requires t != [] && t[0] != QUOTE && t[0] != HASH
    ensures Strip(t) == [t[0]] + Strip(t[1..])
  {
  }

  lemma StripAtQuote(t: Text)
    requires t != [] && t[0] == QUOTE && !TripleQuote(t)
    ensures Strip(t) == [SPACE] + Strip(t[1..][StringEnd(t[1..])..])
  {
  }

  lemma StripAtHash(t: Text)
    requires t != [] && t[0] == HASH
    ensures Strip(t) == [SPACE] + Strip(t[1..][CommentEnd(t[1..])..])
  {
  }

  /** Clean text comes through as it is, whatever follows. */
  lemma {:induction false} CleanTextKept(a: Text, b: Text)
    requires Clean(a)
    ensures Strip(a + b) == a + Strip(b)
    decreases |a|
  {
    hide Strip;
    if a == [] {
      assert a + b == b;
      assert a + Strip(b) == Strip(b);
    } else {
      CleanTextKept(a[1..], b);
      StripPlain(a + b);
      assert (a + b)[1..] == a[1..] + b;
      Regroup([a[0]], a[1..], Strip(b));
      assert a == [a[0]] + a[1..];
    }
  }

  /** What is left holds no quote and no hash, stripping it again changes nothing, and
      a document is left as it was exactly when it has no literal and no comment. */
  lemma {:induction false} StripIsIdempotent(t: Text)
    ensures Clean(Strip(t)) && Strip(Strip(t)) == Strip(t)
    ensures Strip(t) == t <==> Clean(t)
  {
    StripCleans(t);
    CleanTextKept(Strip(t), []);
    assert Strip(t) + [] == Strip(t);
    if Clean(t) {
      CleanTextKept(t, []);
      assert t + [] == t;
    }
  }

  /** What may stand between the quotes of a string: every quote in it is escaped, and
      it does not end within an escape. */
  predicate StringContents(body: Text)
    decreases |body|
  {
    || body == []
    || (body[0] == BACKSLASH && |body| > 1 && StringContents(body[2..]))
    || (body[0] != BACKSLASH && body[0] != QUOTE && StringContents(body[1..]))
  }

  lemma {:induction false} StringBody(body: Text, rest: Text)
    requires StringContents(body)
    ensures StringEnd(body + [QUOTE] + rest) == |body| + 1
    decreases |body|
  {
    if body == [] {
      assert body + [QUOTE] + rest == [QUOTE] + rest;
    } else {
      var k := if body[0] == BACKSLASH then 2 else 1;
      StringBody(body[k..], rest);
      assert (body + [QUOTE] + rest)[k..] == body[k..] + [QUOTE] + rest;
    }
  }

  /** What a string says has no effect on what is left, braces, keywords and escaped
      quotes included. */
  lemma {:induction false} StringIsInert(before: Text, body: Text, rest: Text)
    requires Clean(before) && StringContents(body)
    requires body != [] || rest == [] || rest[0] != QUOTE
    ensures Strip(before + ([QUOTE] + body + [QUOTE] + rest)) == before + ([SPACE] + Strip(rest))
  {
    hide Strip, StringEnd, Clean;
    var t := [QUOTE] + body + [QUOTE] + rest;
    CleanTextKept(before, t);
    StringBody(body, rest);
    StringShape(t, body, rest);
    StripAtQuote(t);
  }

  lemma StringShape(t: Text, body: Text, rest: Text)
    requires t == [QUOTE] + body + [QUOTE] + rest && (body != [] ==> body[0] != QUOTE)
    requires body != [] || rest == [] || rest[0] != QUOTE
    ensures t[0] == QUOTE && !TripleQuote(t)
    ensures t[1..] == body + [QUOTE] + rest && t[1..][|body| + 1..] == rest
  {
    var inner := body + [QUOTE] + rest;
    assert t == [QUOTE] + inner;
    if body == [] {
      assert inner == [QUOTE] + rest;
      assert |rest| > 0 ==> t[2] == rest[0];
    } else {
      assert t[1] == inner[0] == body[0];
    }
  }

  const QUOTES: Text := [QUOTE, QUOTE, QUOTE]

  /** What may stand between the quotes of a block string: no three quotes in a row, and
      no quote before the closing ones. */
  predicate BlockContents(body: Text) {
    && (body != [] ==> body[|body| - 1] != QUOTE)
    && forall i :: 0 <= i < |body| - 2 ==> !(body[i] == QUOTE && body[i + 1] == QUOTE && body[i + 2] == QUOTE)
  }

  lemma {:induction false} BlockBody(body: Text, rest: Text)
    requires BlockContents(body)
    ensures BlockEnd(body + QUOTES + rest) == |body| + 3
  {
    var t := body + QUOTES + rest;
    if body == [] {
      assert t == QUOTES + rest;
    } else {
      assert |body| > 1 ==> t[1] == body[1];
      assert |body| > 2 ==> t[2] == body[2];
      assert !TripleQuote(t);
      assert BlockContents(body[1..]);
      BlockBody(body[1..], rest);
      assert t[1..] == body[1..] + QUOTES + rest;
    }
  }

  /** Nor has what a block string says, and what follows it is stripped as it would be
      alone. */
  lemma {:induction false} BlockIsInert(before: Text, body: Text, rest: Text)
    requires Clean(before) && BlockContents(body)
    ensures Strip(before + (QUOTES + body + QUOTES + rest)) == before + ([SPACE] + Strip(rest))
  {
    hide Strip, BlockEnd, Clean, BlockContents;
    var t := QUOTES + body + QUOTES + rest;
    CleanTextKept(before, t);
    BlockBody(body, rest);
    BlockShape(t, body, rest);
    StripAtBlock(t);
  }

  lemma BlockShape(t: Text, body: Text, rest: Text)
    requires t == QUOTES + body + QUOTES + rest
    ensures TripleQuote(t) && t[3..] == body + QUOTES + rest && t[3..][|body| + 3..] == rest
  {
    var inner := body + QUOTES + rest;
    assert t == QUOTES + inner;
    assert inner == (body + QUOTES) + rest;
  }

  lemma StripAtBlock(t: Text)
    requires TripleQuote(t)
    ensures Strip(t) == [SPACE] + Strip(t[3..][BlockEnd(t[3..])..])
  {
  }

  lemma {:induction false} CommentBody(body: Text, rest: Text)
    requires forall i :: 0 <= i < |body| ==> body[i] != NEWLINE
    requires rest == [] || rest[0] == NEWLINE
    ensures CommentEnd(body + rest) == |body|
  {
    if body == [] {
      assert body + rest == rest;
    } else {
      CommentBody(body[1..], rest);
      assert (body + rest)[1..] == body[1..] + rest;
    }
  }

  /** Nor has what a comment says, up to the end of its line or of the document. */
  lemma {:induction false} CommentIsInert(before: Text, body: Text, rest: Text)
    requires Clean(before)
    requires forall i :: 0 <= i < |body| ==> body[i] != NEWLINE
    requires rest == [] || rest[0] == NEWLINE
    ensures Strip(before + ([HASH] + body + rest)) == before + ([SPACE] + Strip(rest))
  {
    hide Strip, CommentEnd, Clean;
    var t := [HASH] + body + rest;
    CleanTextKept(before, t);
    CommentBody(body, rest);
    CommentShape(t, body, rest);
    StripAtHash(t);
  }

  lemma CommentShape(t: Text, body: Text, rest: Text)
    requires t == [HASH] + body + rest
    ensures t[0] == HASH && t[1..] == body + rest && t[1..][|body|..] == rest
  {
  }

  // ------------------------------------------------------------ brace depth

  const MAX_GRAPHQL_DEPTH: int := 8

  /** How many more braces a text opens than it closes. */
  function Net(t: Text): int {
    if t == [] then 0
    else Net(t[..|t| - 1]) + Brace(t[|t| - 1])
  }

  function Brace(u: CodeUnit): int { if u == OPEN then 1 else if u == CLOSE then -1 else 0 }

  /** The depth after a text, which never falls below zero. */
  function Depth(t: Text): (d: nat) {
    if t == [] then 0 else Max(0, Depth(t[..|t| - 1]) + Brace(t[|t| - 1]))
  }

  /** Some stretch of the document opens more braces than the limit over those it closes. */
  ghost predicate TooDeep(t: Text) {
    exists i, j :: 0 <= i <= j <= |t| && Net(t[i..j]) > MAX_GRAPHQL_DEPTH
  }

  /** The depth is the most that any stretch up to there opens over what it closes. */
  lemma {:induction false} DepthIsDeepestStretch(t: Text)
    ensures forall i :: 0 <= i <= |t| ==> Net(t[i..]) <= Depth(t)
    ensures exists i :: 0 <= i <= |t| && Net(t[i..]) == Depth(t)
  {
    assert t[|t|..] == [];
    if t != [] {
      var c := t[..|t| - 1];
      DepthIsDeepestStretch(c);
      forall i | 0 <= i < |t|
        ensures Net(t[i..]) == Net(c[i..]) + Brace(t[|t| - 1])
      {
        assert t[i..][..|t[i..]| - 1] == c[i..];
      }
      var k :| 0 <= k <= |c| && Net(c[k..]) == Depth(c);
      assert Net(t[k..]) == Depth(c) + Brace(t[|t| - 1]);
    }
  }

  /** `assertBoundedDepth` throws exactly when some stretch of the document opens more
      than eight braces over those it closes. */
  method AssertBoundedDepth(structural: Text) returns (accepted: bool)
    ensures accepted <==> !TooDeep(structural)
  {
    var depth := 0;
    var maxDepth := 0;
    for k := 0 to |structural|
      invariant depth == Depth(structural[..k]) && depth <= maxDepth <= MAX_GRAPHQL_DEPTH
      invariant forall j :: 0 <= j <= k ==> Depth(structural[..j]) <= MAX_GRAPHQL_DEPTH
    {
      var ch := structural[k];
      assert structural[..k + 1][..k] == structural[..k];
      if ch == OPEN {
        depth := depth + 1;
        if depth > maxDepth { maxDepth := depth; }
        if maxDepth > MAX_GRAPHQL_DEPTH {
          DeepPrefix(structural, k + 1);
          return false;
        }
      } else if ch == CLOSE {
        depth := Max(0, depth - 1);
      }
    }
    ShallowPrefixes(structural);
    return true;
  }

  lemma DeepPrefix(t: Text, k: nat)
    requires k <= |t| && Depth(t[..k]) > MAX_GRAPHQL_DEPTH
    ensures TooDeep(t)
  {
    var p := t[..k];
    DepthIsDeepestStretch(p);
    var i :| 0 <= i <= k && Net(p[i..]) == Depth(p);
    assert p[i..] == t[i..k];
  }

  lemma ShallowPrefixes(t: Text)
    requires forall j :: 0 <= j <= |t| ==> Depth(t[..j]) <= MAX_GRAPHQL_DEPTH
    ensures !TooDeep(t)
  {
    forall i, j | 0 <= i <= j <= |t|
      ensures Net(t[i..j]) <= MAX_GRAPHQL_DEPTH
    {
      DepthIsDeepestStretch(t[..j]);
      assert t[..j][i..] == t[i..j];
    }
  }
}
