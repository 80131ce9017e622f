/**
  Cursor themes: the Inherits line of a theme's index file, the colon-separated list made of it, the walk
  over such a list, and the directory name of a theme. C strings are their characters before the NUL; a
  malloc'd buffer is an array.
 */
module XcursorTheme {
  import opened Basics

  // ------------------------------------------------------------------------- tokens

  /** XcursorSep or XcursorWhite. */
  predicate Separator(c: char)
  {
    c == ';' || c == ',' || c == ' ' || c == '\t' || c == '\n'
  }

  /** The five separators, and some characters that are none. */
  lemma Separators()
    ensures forall c :: Separator(c) <==> c in ";, \t\n"
    ensures !Separator(':') && !Separator('=') && !Separator('a') && !Separator('-')
  {
    assert forall c :: c in ";, \t\n" <==> c == ';' || c == ',' || c == ' ' || c == '\t' || c == '\n';
  }

  /** A finished word, unless it is empty. */
  function Flush(word: string): seq<string>
  {
    if word == "" then [] else [word]
  }

  /** Splits at every separator and drops the empty pieces; `word` is the piece begun before `s`. */
  function TokensFrom(s: string, word: string): seq<string>
    decreases |s|
  {
    if s == "" then Flush(word)
    else if Separator(s[0]) then Flush(word) + TokensFrom(s[1..], "")
    else TokensFrom(s[1..], word + [s[0]])
  }

  function Tokens(s: string): seq<string>
  {
    TokensFrom(s, "")
  }

  lemma {:induction false} TokensSplitFrom(a: string, c: char, b: string, word: string)
    requires Separator(c)
    ensures TokensFrom(a + [c] + b, word) == TokensFrom(a, word) + Tokens(b)
    decreases |a|
  {
    var s := a + [c] + b;
    if a == "" {
      assert s[1..] == b;
    } else {
      assert s[1..] == a[1..] + [c] + b;
      if Separator(a[0]) {
        TokensSplitFrom(a[1..], c, b, "");
        assert Flush(word) + (Tokens(a[1..]) + Tokens(b)) == Flush(word) + Tokens(a[1..]) + Tokens(b);
      } else {
        TokensSplitFrom(a[1..], c, b, word + [a[0]]);
      }
    }
  }

  /** A separator separates: the tokens are those before it and those after it. */
  lemma TokensSplit(a: string, c: char, b: string)
    requires Separator(c)
    ensures Tokens(a + [c] + b) == Tokens(a) + Tokens(b)
  {
    TokensSplitFrom(a, c, b, "");
  }

  lemma {:induction false} TokensWordFrom(s: string, word: string)
    requires forall c :: c in s ==> !Separator(c)
    ensures TokensFrom(s, word) == if word + s == "" then [] else [word + s]
    decreases |s|
  {
    if s == "" {
      assert word + s == word;
    } else {
      TokensWordFrom(s[1..], word + [s[0]]);
      assert word + [s[0]] + s[1..] == word + s;
    }
  }

  /** And nothing else does: a text without separators is one token, or none if it is empty. */
  lemma TokensWord(s: string)
    requires forall c :: c in s ==> !Separator(c)
    ensures Tokens(s) == if s == "" then [] else [s]
  {
    TokensWordFrom(s, "");
    assert "" + s == s;
  }

  /** The tokens one after the other, with a colon between each two. */
  function Join(ts: seq<string>): string
  {
    if ts == [] then "" else if |ts| == 1 then ts[0] else Join(ts[..|ts| - 1]) + ":" + ts[|ts| - 1]
  }

  lemma JoinMore(ts: seq<string>, t: string)
    ensures Join(ts + [t]) == if ts == [] then t else Join(ts) + ":" + t
  {
    assert (ts + [t])[..|ts|] == ts;
  }

  lemma {:induction false} JoinFirst(t: string, ts: seq<string>)
    requires ts != []
    ensures Join([t] + ts) == t + ":" + Join(ts)
  {
    var n := |ts| - 1;
    assert [t] + ts == ([t] + ts[..n]) + [ts[n]];
    assert ts == ts[..n] + [ts[n]];
    JoinMore([t] + ts[..n], ts[n]);
    JoinMore(ts[..n], ts[n]);
    if n > 0 {
      JoinFirst(t, ts[..n]);
    }
  }

  lemma {:induction false} TokensNonEmpty(s: string, word: string)
    ensures forall i :: 0 <= i < |TokensFrom(s, word)| ==> TokensFrom(s, word)[i] != ""
    decreases |s|
  {
    if s != "" {
      TokensNonEmpty(s[1..], if Separator(s[0]) then "" else word + [s[0]]);
    }
  }

  /** Some token of the list holds the character. */
  ghost predicate Mentions(ts: seq<string>, c: char)
  {
    exists i :: 0 <= i < |ts| && c in ts[i]
  }

  lemma MentionsFirst(t: string, ts: seq<string>, c: char)
    ensures Mentions([t] + ts, c) <==> c in t || Mentions(ts, c)
  {
    var all := [t] + ts;
    if Mentions(ts, c) {
      var i :| 0 <= i < |ts| && c in ts[i];
      assert c in all[i + 1];
    }
    if Mentions(all, c) && c !in t {
      var i :| 0 <= i < |all| && c in all[i];
      assert c in ts[i - 1];
    }
    assert all[0] == t;
  }

  /** A character that is no separator is in the line exactly when it is in a token. */
  lemma {:induction false} TokensMention(s: string, word: string, c: char)
    requires !Separator(c)
    ensures Mentions(TokensFrom(s, word), c) <==> c in word || c in s
    decreases |s|
  {
    if s == "" {
      assert word != "" ==> Flush(word)[0] == word;
    } else if Separator(s[0]) {
      TokensMention(s[1..], "", c);
      assert c in s <==> c in s[1..];
      if word != "" {
        MentionsFirst(word, TokensFrom(s[1..], ""), c);
      } else {
        assert Flush(word) + TokensFrom(s[1..], "") == TokensFrom(s[1..], "");
      }
    } else {
      TokensMention(s[1..], word + [s[0]], c);
      assert s == [s[0]] + s[1..];
    }
  }

  // ------------------------------------------------------------------------- the normalising loop

  /** Where the loop stands: `i` characters read, `r` written; `done` are the finished tokens and `word`
      the one being copied. */
  ghost predicate Copying(l: string, buf: seq<char>, i: int, r: int, done: seq<string>, word: string)
  {
    && 0 <= r <= i <= |l| < |buf|
    && Tokens(l) == done + TokensFrom(l[i..], word)
    && buf[..r] == Join(done + Flush(word))
  }

  /** Between two tokens: either nothing is written yet, or a separator or the end comes next. */
  ghost predicate Between(l: string, buf: seq<char>, i: int, r: int, done: seq<string>)
  {
    && Copying(l, buf, i, r, done, "")
    && (r == 0 <==> done == [])
    && (r == 0 || i == |l| || Separator(l[i]) || r < i)
  }

  lemma SkipSeparator(l: string, buf: seq<char>, i: int, r: int, done: seq<string>)
    requires Between(l, buf, i, r, done) && i < |l| && Separator(l[i])
    ensures Between(l, buf, i + 1, r, done) && r < i + 1
  {
    assert l[i..][1..] == l[i + 1..];
    assert Flush("") + TokensFrom(l[i + 1..], "") == TokensFrom(l[i + 1..], "");
  }

  /** The first character of a token, after its colon if it is not the first token. */
  lemma BeginWord(l: string, buf: seq<char>, next: seq<char>, i: int, r: int, done: seq<string>)
    requires Between(l, buf, i, r, done) && i < |l| && !Separator(l[i]) && |next| == |buf|
    requires next[..if r == 0 then 1 else r + 2] == (if r == 0 then "" else buf[..r] + ":") + [l[i]]
    ensures Copying(l, next, i + 1, if r == 0 then 1 else r + 2, done, [l[i]])
  {
    assert l[i..][1..] == l[i + 1..];
    assert done + Flush("") == done;
    assert "" + [l[i]] == [l[i]];
    JoinMore(done, [l[i]]);
    if r != 0 {
      assert Join(done) + ":" + [l[i]] == next[..r + 2];
    }
  }

  lemma GrowWord(l: string, buf: seq<char>, next: seq<char>, i: int, r: int, done: seq<string>, word: string)
    requires Copying(l, buf, i, r, done, word) && word != "" && i < |l| && !Separator(l[i])
    requires |next| == |buf| && next[..r + 1] == buf[..r] + [l[i]]
    ensures Copying(l, next, i + 1, r + 1, done, word + [l[i]])
  {
    assert l[i..][1..] == l[i + 1..];
    JoinMore(done, word);
    JoinMore(done, word + [l[i]]);
    if done != [] {
      assert Join(done) + ":" + (word + [l[i]]) == Join(done) + ":" + word + [l[i]];
    }
  }

  lemma EndWord(l: string, buf: seq<char>, i: int, r: int, done: seq<string>, word: string)
    requires Copying(l, buf, i, r, done, word) && word != "" && r > 0 && (i == |l| || Separator(l[i]))
    ensures Between(l, buf, i, r, done + [word])
  {
    assert done + [word] + Flush("") == done + [word];
    if i == |l| {
      assert l[i..] == "";
      assert done + Flush(word) == done + [word] + TokensFrom("", "");
    } else {
      var rest := TokensFrom(l[i + 1..], "");
      assert l[i..][1..] == l[i + 1..];
      assert Flush("") + rest == rest;
      assert done + (Flush(word) + rest) == done + [word] + rest;
    }
  }

  lemma CopyEnds(l: string, buf: seq<char>, r: int, done: seq<string>)
    requires Between(l, buf, |l|, r, done)
    ensures buf[..r] == Join(Tokens(l))
  {
    assert l[|l|..] == "";
    assert done + TokensFrom("", "") == done && done + Flush("") == done;
  }

  /** The tokens of the value `l`, joined by colons, always fit a buffer one longer than `l`. */
  method Normalise(l: string) returns (result: array<char>, len: nat)
    ensures fresh(result) && result.Length == |l| + 1 && len <= |l|
    ensures result[..len] == Join(Tokens(l)) && result[len] == '\0'
  {
    result := new char[|l| + 1];
    var i, r := 0, 0;
    ghost var done: seq<string> := [];
    assert l[0..] == l;
    while i < |l|
      invariant fresh(result) && result.Length == |l| + 1
      invariant Between(l, result[..], i, r, done)
      decreases |l| - i
    {
      i := SkipSeparators(l, result, i, r, done);
      if i == |l| { break; }
      i, r, done := CopyWord(l, result, i, r, done);
    }
    CopyEnds(l, result[..], r, done);
    assert result[..][..r] == result[..r];
    result[r] := '\0';
    len := r;
  }

  method SkipSeparators(l: string, result: array<char>, i: int, r: int, ghost done: seq<string>) returns (k: int)
    requires Between(l, result[..], i, r, done)
    ensures Between(l, result[..], k, r, done) && i <= k && (k == |l| || !Separator(l[k]))
  {
    k := i;
    while k < |l| && Separator(l[k])
      invariant i <= k <= |l| && Between(l, result[..], k, r, done)
    {
      SkipSeparator(l, result[..], k, r, done);
      k := k + 1;
    }
  }

  /** The colon, if one is due, and the characters up to the next separator. */
  method CopyWord(l: string, result: array<char>, i: int, r: int, ghost done: seq<string>)
    returns (k: int, q: int, ghost more: seq<string>)
    requires Between(l, result[..], i, r, done) && i < |l| && !Separator(l[i])
    modifies result
    ensures Between(l, result[..], k, q, more) && i < k
  {
    var first := CopyFirst(l, result, i, r, done);
    k, q, more := CopyRest(l, result, i + 1, first, done, [l[i]]);
  }

  method CopyRest(l: string, result: array<char>, i: int, r: int, ghost done: seq<string>, ghost begun: string)
    returns (k: int, q: int, ghost more: seq<string>)
    requires r > 0 && begun != "" && Copying(l, result[..], i, r, done, begun)
    modifies result
    ensures Between(l, result[..], k, q, more) && i <= k
  {
    k, q := i, r;
    ghost var word := begun;
    while k < |l| && !Separator(l[k])
      invariant i <= k && q > 0 && word != "" && Copying(l, result[..], k, q, done, word)
      decreases |l| - k
    {
      CopyNext(l, result, k, q, done, word);
      word := word + [l[k]];
      k, q := k + 1, q + 1;
    }
    EndWord(l, result[..], k, q, done, word);
    more := done + [word];
  }

  method CopyFirst(l: string, result: array<char>, i: int, r: int, ghost done: seq<string>) returns (q: int)
    requires Between(l, result[..], i, r, done) && i < |l| && !Separator(l[i])
    modifies result
    ensures q > 0 && Copying(l, result[..], i + 1, q, done, [l[i]])
  {
    q := r;
    ghost var was := result[..];
    if q != 0 {
      result[q] := ':';
      q := q + 1;
    }
    result[q] := l[i];
    q := q + 1;
    assert result[..][..q] == (if r == 0 then "" else was[..r] + ":") + [l[i]];
    BeginWord(l, was, result[..], i, r, done);
  }

  method CopyNext(l: string, result: array<char>, k: int, q: int, ghost done: seq<string>, ghost word: string)
    requires Copying(l, result[..], k, q, done, word) && word != "" && k < |l| && !Separator(l[k])
    modifies result
    ensures Copying(l, result[..], k + 1, q + 1, done, word + [l[k]])
  {
    ghost var before := result[..];
    result[q] := l[k];
    assert result[..][..q + 1] == before[..q] + [l[k]];
    GrowWord(l, before, result[..], k, q, done, word);
  }

  // ------------------------------------------------------------------------- the Inherits line

  function SkipSpaces(s: string): string
  {
    if s != "" && s[0] == ' ' then SkipSpaces(s[1..]) else s
  }

  /** What an Inherits line says after its equals sign. */
  function ValueOf(line: string): Option<string>
  {
    if "Inherits" <= line && "=" <= SkipSpaces(line[8..]) then Some(SkipSpaces(SkipSpaces(line[8..])[1..]))
    else None
  }

  predicate AllSpaces(s: string)
  {
    forall i :: 0 <= i < |s| ==> s[i] == ' '
  }

  lemma {:induction false} SpacesSkipped(spaces: string, rest: string)
    requires AllSpaces(spaces) && !(" " <= rest)
    ensures SkipSpaces(spaces + rest) == rest
  {
    if spaces == "" {
      assert spaces + rest == rest;
    } else {
      assert (spaces + rest)[1..] == spaces[1..] + rest;
      SpacesSkipped(spaces[1..], rest);
    }
  }

  lemma {:induction false} SkipSplits(s: string) returns (spaces: string)
    ensures AllSpaces(spaces) && s == spaces + SkipSpaces(s) && !(" " <= SkipSpaces(s))
  {
    if s != "" && s[0] == ' ' {
      spaces := SkipSplits(s[1..]);
      spaces := " " + spaces;
    } else {
      spaces := "";
    }
  }

  /** An Inherits line is the word, spaces, an equals sign, spaces and the value, in this order; */
  lemma InheritsLine(before: string, after: string, value: string)
    requires AllSpaces(before) && AllSpaces(after) && !(" " <= value)
    ensures ValueOf("Inherits" + before + "=" + after + value) == Some(value)
  {
    var line := "Inherits" + before + "=" + after + value;
    assert line[..8] == "Inherits";
    assert line[8..] == before + ("=" + (after + value));
    assert ("=" + (after + value))[0] == '=';
    SpacesSkipped(before, "=" + (after + value));
    assert ("=" + (after + value))[1..] == after + value;
    SpacesSkipped(after, value);
  }

  /** and nothing else is one. */
  lemma OnlyInheritsLine(line: string) returns (before: string, after: string)
    requires ValueOf(line).Some?
    ensures AllSpaces(before) && AllSpaces(after)
    ensures line == "Inherits" + before + "=" + after + ValueOf(line).value
  {
    before := SkipSplits(line[8..]);
    var rest := SkipSpaces(line[8..]);
    after := SkipSplits(rest[1..]);
    assert line == "Inherits" + line[8..];
    assert rest == "=" + rest[1..];
  }

  /** The tokens of the first line that is an Inherits line. */
  function InheritsOf(lines: seq<string>): Option<seq<string>>
  {
    if lines == [] then None
    else if ValueOf(lines[0]).Some? then Some(Tokens(ValueOf(lines[0]).value))
    else InheritsOf(lines[1..])
  }

  /** The first Inherits line counts, whatever follows it. */
  lemma {:induction false} FirstInherits(lines: seq<string>, i: nat)
    requires i < |lines| && ValueOf(lines[i]).Some? && forall j :: 0 <= j < i ==> ValueOf(lines[j]).None?
    ensures InheritsOf(lines) == Some(Tokens(ValueOf(lines[i]).value))
  {
    if i > 0 {
      FirstInherits(lines[1..], i - 1);
    }
  }

  /** `_XcursorThemeInherits` on the lines of the index file. */
  method ThemeInherits(lines: seq<string>) returns (result: Option<string>)
    ensures InheritsOf(lines).None? ==> result == None
    ensures InheritsOf(lines).Some? ==> result == Some(Join(InheritsOf(lines).value))
  {
    var n := 0;
    while n < |lines|
      invariant 0 <= n <= |lines| && InheritsOf(lines) == InheritsOf(lines[n..])
    {
      var value := ReadValue(lines[n]);
      if value.Some? {
        var buf, len := Normalise(value.value);
        return Some(buf[..len]);
      }
      n := n + 1;
    }
    result := None;
  }

  method ReadValue(line: string) returns (value: Option<string>)
    ensures value == ValueOf(line)
  {
    if !("Inherits" <= line) { return None; }
    var l := SkipSpacesFrom(line, 8);
    if l == |line| || line[l] != '=' { return None; }
    assert line[l..][1..] == line[l + 1..];
    l := SkipSpacesFrom(line, l + 1);
    value := Some(line[l..]);
  }

  method SkipSpacesFrom(line: string, from: nat) returns (l: nat)
    requires from <= |line|
    ensures from <= l <= |line| && line[l..] == SkipSpaces(line[from..])
  {
    l := from;
    while l < |line| && line[l] == ' '
      invariant from <= l <= |line| && SkipSpaces(line[l..]) == SkipSpaces(line[from..])
    {
      assert line[l..][1..] == line[l + 1..];
      l := l + 1;
    }
  }

  // ------------------------------------------------------------------------- walking the list

  /** The characters before the first colon (strchr, or the end). */
  function Cut(path: string): string
  {
    if path == "" || path[0] == ':' then "" else [path[0]] + Cut(path[1..])
  }

  /** `_XcursorNextPath`. */
  function NextPath(path: string): (next: Option<string>)
    ensures next.Some? ==> |next.value| < |path|
  {
    if path == "" then None else if path[0] == ':' then Some(path[1..]) else NextPath(path[1..])
  }

  /** The names met by following NextPath from `path` to the end, each cut at its colon. */
  function Walk(path: string): seq<string>
    decreases |path|
  {
    [Cut(path)] + (var next := NextPath(path); if next.None? then [] else Walk(next.value))
  }

  lemma {:induction false} CutFree(path: string)
    ensures ':' !in Cut(path)
  {
    if path != "" && path[0] != ':' {
      CutFree(path[1..]);
    }
  }

  /** Cutting and stepping after a colon-free name. */
  lemma {:induction false} CutName(t: string, rest: string)
    requires ':' !in t
    ensures Cut(t) == t && NextPath(t) == None
    ensures Cut(t + ":" + rest) == t && NextPath(t + ":" + rest) == Some(rest)
  {
    var path := t + ":" + rest;
    if t == "" {
      assert path[1..] == rest;
    } else {
      CutName(t[1..], rest);
      assert path[0] == t[0] && path[1..] == t[1..] + ":" + rest;
      assert [t[0]] + t[1..] == t;
    }
  }

  lemma {:induction false} WalkIsFree(path: string)
    ensures Walk(path) != [] && !Mentions(Walk(path), ':')
    decreases |path|
  {
    CutFree(path);
    var next := NextPath(path);
    var rest := if next.None? then [] else Walk(next.value);
    if next.Some? {
      WalkIsFree(next.value);
    }
    MentionsFirst(Cut(path), rest, ':');
  }

  lemma {:induction false} WalkOfJoin(ts: seq<string>)
    requires ts != [] && !Mentions(ts, ':')
    ensures Walk(Join(ts)) == ts
  {
    var t, rest := ts[0], ts[1..];
    assert ts == [t] + rest;
    MentionsFirst(t, rest, ':');
    if rest == [] {
      CutName(t, "");
    } else {
      JoinFirst(t, rest);
      CutName(t, Join(rest));
      WalkOfJoin(rest);
    }
  }

  /** Walking a joined list gives the names back exactly when there is one and none holds a colon. */
  lemma WalkOfJoinIff(ts: seq<string>)
    ensures Walk(Join(ts)) == ts <==> ts != [] && !Mentions(ts, ':')
  {
    WalkIsFree(Join(ts));
    if ts != [] && !Mentions(ts, ':') {
      WalkOfJoin(ts);
    }
  }

  ghost predicate AllSeparators(l: string)
  {
    forall i :: 0 <= i < |l| ==> Separator(l[i])
  }

  lemma {:induction false} NoTokensIff(l: string, word: string)
    ensures TokensFrom(l, word) == [] <==> word == "" && AllSeparators(l)
    decreases |l|
  {
    if l != "" {
      var after := if Separator(l[0]) then "" else word + [l[0]];
      NoTokensIff(l[1..], after);
      assert AllSeparators(l) <==> Separator(l[0]) && AllSeparators(l[1..]) by {
        assert l == [l[0]] + l[1..];
      }
    }
  }

  /** Normalising an Inherits value and walking the result visits exactly the value's tokens, in order, if
      and only if the value holds a name and no colon. */
  lemma WalkVisitsTokensIff(l: string)
    ensures Walk(Join(Tokens(l))) == Tokens(l) <==> !AllSeparators(l) && ':' !in l
  {
    WalkOfJoinIff(Tokens(l));
    NoTokensIff(l, "");
    TokensMention(l, "", ':');
  }

  /** One way it fails: a value of separators only still visits one theme, the nameless one. */
  lemma WalkMeetsNameless()
    ensures Tokens(" ") == [] && Walk(Join(Tokens(" "))) == [""]
  {
    var s := " ";
    assert s[1..] == "";
    NoTokensIff(s, "");
  }

  lemma ColonIsNoSeparator()
    ensures Tokens("a:b") == ["a:b"]
  {
    var t := "a:b";
    assert t[1..] == ":b" && ":b"[1..] == "b" && "b"[1..] == "";
    assert "" + ['a'] == "a" && "a" + [':'] == "a:" && "a:" + ['b'] == "a:b";
  }

  /** The other: a colon inside a name splits it. */
  lemma WalkSplitsName()
    ensures Tokens("a:b") == ["a:b"] && Walk(Join(Tokens("a:b"))) == ["a", "b"]
  {
    ColonIsNoSeparator();
    CutName("a", "b");
    CutName("b", "");
    assert "a" + ":" + "b" == "a:b";
  }

  // ------------------------------------------------------------------------- theme directories

  function StripSlashes(s: string): (r: string)
    ensures |r| <= |s|
    ensures r == "" || r[0] != '/'
  {
    if s != "" && s[0] == '/' then StripSlashes(s[1..]) else s
  }

  predicate AllSlashes(s: string)
  {
    forall i :: 0 <= i < |s| ==> s[i] == '/'
  }

  /** Exactly the leading slashes go. */
  lemma {:induction false} SlashesStripped(slashes: string, rest: string)
    requires AllSlashes(slashes) && !("/" <= rest)
    ensures StripSlashes(slashes + rest) == rest
  {
    if slashes == "" {
      assert slashes + rest == rest;
    } else {
      assert (slashes + rest)[1..] == slashes[1..] + rest;
      SlashesStripped(slashes[1..], rest);
    }
  }

  predicate EndsInSlash(path: string)
  {
    path != "" && path[|path| - 1] == '/'
  }

  function WithSlash(path: string): string
  {
    if EndsInSlash(path) then path else path + "/"
  }

  /** A path with one more element. */
  function Appended(path: string, elt: string): string
  {
    WithSlash(path) + StripSlashes(elt)
  }

  /** The directory of `theme` under `dir`; a leading tilde stands for `home`. */
  function ThemeDir(dir: string, theme: string, home: Option<string>): Option<string>
  {
    if "~" <= dir then
      if home.None? then None
      else Some(Appended(Appended(Appended("", home.value), Cut(dir)[1..]), Cut(theme)))
    else
      Some(Appended(Appended("", Cut(dir)), Cut(theme)))
  }

  ghost predicate NoDoubleSlash(s: string)
  {
    forall i :: 0 <= i < |s| - 1 ==> !(s[i] == '/' && s[i + 1] == '/')
  }

  lemma SlashKeeps(path: string)
    ensures NoDoubleSlash(WithSlash(path)) <==> NoDoubleSlash(path)
  {
    assert forall i :: 0 <= i < |path| ==> WithSlash(path)[i] == path[i];
  }

  /** Joining never doubles a slash, and the result starts at the root: a doubled slash comes from a piece. */
  lemma AppendedCleanIff(path: string, elt: string)
    requires path == "" || path[0] == '/'
    ensures NoDoubleSlash(Appended(path, elt)) <==> NoDoubleSlash(path) && NoDoubleSlash(StripSlashes(elt))
    ensures "/" <= Appended(path, elt)
  {
    var front, back := WithSlash(path), StripSlashes(elt);
    var all := front + back;
    SlashKeeps(path);
    assert forall i :: 0 <= i < |front| ==> all[i] == front[i];
    assert forall i :: 0 <= i < |back| ==> back[i] == all[|front| + i];
    if NoDoubleSlash(front) && NoDoubleSlash(back) {
      forall i | 0 <= i < |all| - 1
        ensures !(all[i] == '/' && all[i + 1] == '/')
      {
        if i + 1 < |front| {
          assert all[i] == front[i] && all[i + 1] == front[i + 1];
        } else if i < |front| {
          assert all[i + 1] == back[0];
        } else {
          assert all[i] == back[i - |front|] && all[i + 1] == back[i + 1 - |front|];
        }
      }
    }
  }

  lemma {:induction false} CutKeeps(s: string)
    ensures |Cut(s)| <= |s| && Cut(s) == s[..|Cut(s)|]
    ensures |Cut(s)| < |s| ==> s[|Cut(s)|] == ':'
  {
    if s != "" && s[0] != ':' {
      CutKeeps(s[1..]);
    }
  }

  /** A piece that joins plainly: not empty, no slash at either end. */
  predicate Plain(s: string)
  {
    s != "" && s[0] != '/' && s[|s| - 1] != '/'
  }

  /** A colon and what follows it in a search path, or nothing. */
  predicate Rest(s: string)
  {
    s == "" || s[0] == ':'
  }

  lemma {:induction false} CutBefore(s: string, rest: string)
    requires ':' !in s && Rest(rest)
    ensures Cut(s + rest) == s
  {
    if s == "" {
      assert s + rest == rest;
    } else {
      assert (s + rest)[1..] == s[1..] + rest;
      CutBefore(s[1..], rest);
      assert [s[0]] + s[1..] == s;
    }
  }

  lemma AppendPlain(path: string, elt: string)
    requires Plain(elt) && !EndsInSlash(path)
    ensures Appended(path, elt) == path + "/" + elt && !EndsInSlash(path + "/" + elt)
  {
  }

  /** Plain pieces in order: the home directory for the tilde, then the directory up to its colon, then the
      theme up to its colon. */
  lemma ThemeDirInOrder(home: string, d: string, t: string, dirs: string, themes: string)
    requires Plain(home) && Plain(d) && Plain(t) && ':' !in d && ':' !in t && Rest(dirs) && Rest(themes)
    ensures ThemeDir("~" + d + dirs, t + themes, Some(home)) == Some("/" + home + "/" + d + "/" + t)
    ensures d[0] != '~' ==> ThemeDir(d + dirs, t + themes, None) == Some("/" + d + "/" + t)
    ensures ThemeDir("~" + d + dirs, t + themes, None) == None
  {
    CutBefore(t, themes);
    CutBefore(d, dirs);
    CutBefore("~" + d, dirs);
    assert ("~" + d)[1..] == d;
    assert "" + "/" + home == "/" + home && "" + "/" + d == "/" + d;
    AppendPlain("", home);
    AppendPlain("/" + home, d);
    AppendPlain("/" + home + "/" + d, t);
    AppendPlain("", d);
    AppendPlain("/" + d, t);
  }

  /** The directory, theme and home as they go into the path. */
  ghost predicate CleanPieces(dir: string, theme: string, home: string)
  {
    && NoDoubleSlash(StripSlashes(if "~" <= dir then Cut(dir)[1..] else Cut(dir)))
    && NoDoubleSlash(StripSlashes(Cut(theme)))
    && ("~" <= dir ==> NoDoubleSlash(StripSlashes(home)))
  }

  /** The path is absolute, even from a relative directory, and holds a doubled slash if and only if a piece
      does, after its leading slashes. */
  lemma ThemeDirCleanIff(dir: string, theme: string, home: Option<string>)
    requires ThemeDir(dir, theme, home).Some?
    ensures "/" <= ThemeDir(dir, theme, home).value
    ensures NoDoubleSlash(ThemeDir(dir, theme, home).value) <==>
      CleanPieces(dir, theme, if home.Some? then home.value else "")
  {
    if "~" <= dir {
      var piece := Cut(dir)[1..];
      AppendedCleanIff("", home.value);
      AppendedCleanIff(Appended("", home.value), piece);
      AppendedCleanIff(Appended(Appended("", home.value), piece), Cut(theme));
    } else {
      AppendedCleanIff("", Cut(dir));
      AppendedCleanIff(Appended("", Cut(dir)), Cut(theme));
    }
  }

  // ------------------------------------------------------------------------- building it in a buffer

  /** The buffer holds `s` and its NUL. */
  ghost predicate HoldsText(a: array<char>, s: string)
    reads a
  {
    |s| < a.Length && a[..|s|] == s && a[|s|] == '\0' && '\0' !in s
  }

  method StrLen(a: array<char>, ghost s: string) returns (n: nat)
    requires HoldsText(a, s)
    ensures n == |s|
  {
    n := 0;
    while a[n] != '\0'
      invariant n <= |s|
      decreases |s| - n
    {
      assert n < |s|;
      n := n + 1;
    }
  }

  /** `_XcursorAddPathElt`: `len` characters of `elt`, or all of it when `len` is -1. */
  method AddPathElt(path: array<char>, elt: string, len: int, ghost was: string)
    requires HoldsText(path, was) && -1 <= len <= |elt| && '\0' !in elt
    requires |was| + 1 + (if len == -1 then |elt| else len) < path.Length
    modifies path
    ensures HoldsText(path, Appended(was, if len == -1 then elt else elt[..len]))
  {
    var pathlen := StrLen(path, was);
    if path[0] == '\0' || path[pathlen - 1] != '/' {
      path[pathlen] := '/';
      pathlen := pathlen + 1;
      path[pathlen] := '\0';
    }
    assert path[..pathlen] == WithSlash(was);
    var n := if len == -1 then |elt| else len;
    var e := 0;
    assert elt[0..n] == if len == -1 then elt else elt[..len];
    while n != e && elt[e] == '/'
      invariant 0 <= e <= n && StripSlashes(elt[e..n]) == StripSlashes(elt[0..n])
      decreases n - e
    {
      assert elt[e..n][1..] == elt[e + 1..n];
      e := e + 1;
    }
    assert StripSlashes(elt[e..n]) == elt[e..n];
    CopyAt(path, pathlen, elt, e, n);
  }

  /** strncpy to offset `at`, and the NUL after it. */
  method CopyAt(path: array<char>, at: nat, elt: string, e: nat, n: nat)
    requires e <= n <= |elt| && at + (n - e) < path.Length
    requires '\0' !in path[..at] && '\0' !in elt
    modifies path
    ensures HoldsText(path, old(path[..at]) + elt[e..n])
  {
    var k := 0;
    while k < n - e
      invariant 0 <= k <= n - e
      invariant path[..at] == old(path[..at]) && path[at..at + k] == elt[e..e + k]
    {
      path[at + k] := elt[e + k];
      k := k + 1;
    }
    path[at + k] := '\0';
    assert path[..at + k] == path[..at] + path[at..at + k];
  }

  function Base(home: Option<string>): string
  {
    if home.None? then "" else Appended("", home.value)
  }

  /** The pieces put together in a buffer of the computed length, which always suffices. */
  method Assemble(home: Option<string>, d: string, dirlen: nat, t: string, themelen: nat)
    returns (full: array<char>)
    requires dirlen <= |d| && themelen <= |t|
    requires '\0' !in d && '\0' !in t && (home.Some? ==> '\0' !in home.value)
    ensures fresh(full) && HoldsText(full, Appended(Appended(Base(home), d[..dirlen]), t[..themelen]))
  {
    var homelen := if home.None? then 0 else |home.value|;
    full := new char[1 + homelen + 1 + dirlen + 1 + themelen + 1];
    full[0] := '\0';
    ghost var s := "";
    if home.Some? {
      AddPathElt(full, home.value, -1, s);
      s := Appended(s, home.value);
    }
    AddPathElt(full, d, dirlen, s);
    s := Appended(s, d[..dirlen]);
    AddPathElt(full, t, themelen, s);
  }

  /** `_XcursorBuildThemeDir`; `home` is the HOME variable. */
  method BuildThemeDir(dir: Option<string>, theme: Option<string>, home: Option<string>)
    returns (full: array?<char>)
    requires dir.Some? ==> '\0' !in dir.value
    requires theme.Some? ==> '\0' !in theme.value
    requires home.Some? ==> '\0' !in home.value
    ensures full == null <==> dir.None? || theme.None? || ThemeDir(dir.value, theme.value, home).None?
    ensures full != null ==> fresh(full) && HoldsText(full, ThemeDir(dir.value, theme.value, home).value)
  {
    if dir.None? || theme.None? { return null; }
    var d, t := dir.value, theme.value;
    CutKeeps(d);
    CutKeeps(t);
    var dirlen, themelen := |Cut(d)|, |Cut(t)|;
    if "~" <= d {
      if home.None? { return null; }
      assert d[1..][..dirlen - 1] == Cut(d)[1..];
      full := Assemble(home, d[1..], dirlen - 1, t, themelen);
    } else {
      full := Assemble(None, d, dirlen, t, themelen);
    }
  }
}
