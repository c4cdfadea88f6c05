/** How path strings are cut into names. */
module Paths {
  import opened Volume

  function WordEnd(path: string, i: nat): (e: nat)
    requires i <= |path|
    ensures i <= e <= |path|
    ensures forall k :: i <= k < e ==> path[k] != '/'
    ensures e < |path| ==> path[e] == '/'
    decreases |path| - i
  {
    if i == |path| || path[i] == '/' then i else WordEnd(path, i + 1)
  }

  /** True when the word ending at `e` is the last one navPath looks at: the string ends there, or
      after one or two slashes. */
  predicate LastWord(path: string, e: nat)
    requires e <= |path|
  {
    e == |path| || e + 1 == |path| || (path[e + 1] == '/' && e + 2 == |path|)
  }

  function Words(path: string, i: nat): (r: seq<string>)
    requires i <= |path|
    ensures r != []
    decreases |path| - i
  {
    var e := WordEnd(path, i);
    if LastWord(path, e) then [path[i..e]] else [path[i..e]] + Words(path, e + 1)
  }

  /** The names navPath visits. The first character is never looked at. */
  function Components(path: string): seq<string> {
    if |path| <= 1 then [] else Words(path, 1)
  }

  /** Index of the last slash, searched from the end as create and mkdir do; -1 if there is none. */
  function LastSlash(path: string, from: int): (i: int)
    requires -1 <= from <= |path|
    ensures -1 <= i < |path| && i <= from
    ensures i >= 0 ==> path[i] == '/'
    decreases from
  {
    if from < 0 then -1
    else if from < |path| && path[from] == '/' then from
    else LastSlash(path, from - 1)
  }

  /** The names with slashes between them. */
  function Join(words: seq<string>): string
    requires words != []
  {
    if |words| == 1 then words[0] else words[0] + "/" + Join(words[1..])
  }

  /** Every path is its names with single slashes between them and up to two slashes at the end: a third one would
      stand behind an empty name. */
  ghost predicate IsPathOf(words: seq<string>, rest: string, tail: string) {
    && words != [] && rest == Join(words) + tail && (tail == "" || tail == "/" || tail == "//")
    && (forall c :: c in words ==> '/' !in c)
    && (|tail| < 2 ==> Join(words) == "" || Join(words)[|Join(words)| - 1] != '/')
  }

  lemma LastWordIs(path: string, i: nat, e: nat) returns (tail: string)
    requires i <= |path| && e == WordEnd(path, i) && LastWord(path, e)
    ensures IsPathOf([path[i..e]], path[i..], tail)
  {
    var c := path[i..e];
    assert forall k :: 0 <= k < |c| ==> c[k] == path[i + k];
    if e == |path| {
      tail := "";
    } else if e + 1 == |path| {
      tail := "/";
    } else {
      tail := "//";
    }
    assert path[i..] == c + tail;
  }

  lemma MoreWords(path: string, i: nat, e: nat, words: seq<string>, tail: string)
    requires i <= |path| && e == WordEnd(path, i) && !LastWord(path, e) && IsPathOf(words, path[e + 1..], tail)
    requires words == [""] ==> tail == "//"
    ensures IsPathOf([path[i..e]] + words, path[i..], tail)
  {
    var c := path[i..e];
    assert ([c] + words)[1..] == words;
    assert path[i..] == c + "/" + path[e + 1..];
    assert path[i..] == (c + "/" + Join(words)) + tail;
    JoinEmpty(words);
  }

  lemma JoinEmpty(words: seq<string>)
    requires words != []
    ensures Join(words) == "" <==> words == [""]
  {
  }

  lemma EmptyBehind(path: string, i: nat, e: nat, words: seq<string>, tail: string)
    requires i <= |path| && e == WordEnd(path, i) && !LastWord(path, e) && IsPathOf(words, path[e + 1..], tail)
    requires words == [""]
    ensures tail == "//"
  {
    assert path[e + 1..] == tail;
    assert |tail| == |path| - e - 1;
  }

  /** Cutting any path, canonical or not. */
  lemma {:induction false} WordsArePath(path: string, i: nat) returns (tail: string)
    requires i <= |path|
    ensures IsPathOf(Words(path, i), path[i..], tail)
    decreases |path| - i
  {
    var e := WordEnd(path, i);
    if LastWord(path, e) {
      tail := LastWordIs(path, i, e);
    } else {
      tail := WordsArePath(path, e + 1);
      var words := Words(path, e + 1);
      if words == [""] { EmptyBehind(path, i, e, words, tail); }
      MoreWords(path, i, e, words, tail);
    }
  }

  lemma ComponentsArePath(path: string) returns (tail: string)
    requires |path| > 1
    ensures IsPathOf(Components(path), path[1..], tail)
  {
    tail := WordsArePath(path, 1);
  }

  predicate ProperName(c: string) { c != "" && '/' !in c }

  predicate Proper(comps: seq<string>) { forall c :: c in comps ==> ProperName(c) }

  /** The canonical spelling of a list of names ("" for the root directory). */
  function Render(comps: seq<string>): string {
    if comps == [] then "" else "/" + (comps[0] + Render(comps[1..]))
  }

  lemma WordEndIs(path: string, i: nat, e: nat)
    requires i <= e <= |path|
    requires forall k :: i <= k < e ==> path[k] != '/'
    requires e < |path| ==> path[e] == '/'
    ensures WordEnd(path, i) == e
  {}

  /** A word that is followed by nothing, or by a slash and another word. */
  lemma WordsStep(path: string, i: nat, e: nat)
    requires i <= e <= |path| && forall k :: i <= k < e ==> path[k] != '/'
    requires e < |path| ==> path[e] == '/' && e + 1 < |path| && path[e + 1] != '/'
    ensures Words(path, i) == if e == |path| then [path[i..e]] else [path[i..e]] + Words(path, e + 1)
  {
    WordEndIs(path, i, e);
  }

  /** The rest of a path, cut in two. */
  lemma SuffixParts(path: string, i: nat, c: string, r: string)
    requires i <= |path| && path[i..] == c + r
    ensures |path| == i + |c| + |r| && path[i..i + |c|] == c && path[i + |c|..] == r
  {
    assert |path[i..]| == |c| + |r|;
    forall k | i <= k < |path| ensures path[k] == (c + r)[k - i] { assert path[i..][k - i] == path[k]; }
  }

  lemma RenderStart(rest: seq<string>)
    requires rest != [] && Proper(rest)
    ensures Render(rest) == "/" + (rest[0] + Render(rest[1..])) && ProperName(rest[0])
    ensures |Render(rest)| >= 2 && Render(rest)[0] == '/' && Render(rest)[1] != '/'
  {
    var d := rest[0];
    assert ProperName(d) by { assert d in rest; }
    assert d[0] != '/' by { assert d[0] in d; }
    assert Render(rest)[1] == d[0];
  }

  /** Where the first word of what is left of a rendered path ends. */
  lemma FirstWordEnds(path: string, i: nat, c: string, rest: seq<string>)
    requires ProperName(c) && Proper(rest) && i <= |path| && path[i..] == c + Render(rest)
    ensures var e := i + |c|; e <= |path| && path[i..e] == c && path[e..] == Render(rest)
    ensures i + |c| == |path| <==> rest == []
  {
    SuffixParts(path, i, c, Render(rest));
    if rest != [] { RenderStart(rest); }
  }

  datatype Unit = Unit

  ghost predicate IsCut(path: string, i: nat, ws: seq<string>, u: Unit) { i <= |path| && Words(path, i) == ws }

  /** The words of the path from `i` on are `ws`. The quantifier keeps the definition folded. */
  ghost predicate Cut(path: string, i: nat, ws: seq<string>) { forall u :: IsCut(path, i, ws, u) }

  lemma LastIsCut(path: string, i: nat, c: string)
    requires ProperName(c) && i + |c| == |path| && path[i..] == c
    ensures Cut(path, i, [c])
  {
    assert path[i..i + |c|] == c;
    NoSlashInside(path, i, c);
    WordsStep(path, i, |path|);
  }

  lemma NextIsCut(path: string, i: nat, e: nat, c: string, ws: seq<string>)
    requires ProperName(c) && i + |c| == e && e + 1 < |path| && path[i..e] == c && path[e] == '/' && path[e + 1] != '/'
    requires Cut(path, e + 1, ws)
    ensures Cut(path, i, [c] + ws)
  {
    assert IsCut(path, e + 1, ws, Unit);
    NoSlashInside(path, i, c);
    WordsStep(path, i, e);
  }

  lemma NextStarts(path: string, e: nat, rest: seq<string>)
    requires e <= |path| && path[e..] == Render(rest) && Proper(rest) && rest != []
    ensures e + 1 < |path| && path[e] == '/' && path[e + 1] != '/'
  {
    RenderStart(rest);
    assert path[e..][0] == path[e] && path[e..][1] == path[e + 1];
  }

  lemma NoSlashInside(path: string, i: nat, c: string)
    requires ProperName(c) && i + |c| <= |path| && path[i..i + |c|] == c
    ensures forall k :: i <= k < i + |c| ==> path[k] != '/'
  {
    forall k | i <= k < i + |c| ensures path[k] != '/' { assert path[k] == c[k - i] && c[k - i] in c; }
  }

  lemma {:induction false} WordsOfRendered(path: string, i: nat, c: string, rest: seq<string>)
    requires ProperName(c) && Proper(rest) && i <= |path| && path[i..] == c + Render(rest)
    ensures Cut(path, i, [c] + rest)
    decreases |rest|, 1
  {
    var e := i + |c|;
    FirstWordEnds(path, i, c, rest);
    if rest == [] {
      assert c + "" == c && [c] + [] == [c];
      LastIsCut(path, i, c);
    } else {
      NextStarts(path, e, rest);
      NextWords(path, e, rest);
      NextIsCut(path, i, e, c, rest);
    }
  }

  lemma {:induction false} NextWords(path: string, e: nat, rest: seq<string>)
    requires rest != [] && Proper(rest) && e < |path| && path[e..] == Render(rest)
    ensures Cut(path, e + 1, rest)
    decreases |rest|, 0
  {
    NextWord(path, e, rest);
    WordsOfRendered(path, e + 1, rest[0], rest[1..]);
    HeadAndTail(rest);
  }

  lemma HeadAndTail(comps: seq<string>)
    requires comps != []
    ensures [comps[0]] + comps[1..] == comps
  {
  }

  lemma NextWord(path: string, e: nat, rest: seq<string>)
    requires rest != [] && Proper(rest) && e < |path| && path[e..] == Render(rest)
    ensures path[e + 1..] == rest[0] + Render(rest[1..]) && ProperName(rest[0]) && Proper(rest[1..])
  {
    RenderStart(rest);
    SuffixParts(path, e, "/", rest[0] + Render(rest[1..]));
  }

  /** Cutting a canonical path gives its names back. */
  lemma ComponentsRoundTrip(comps: seq<string>)
    requires Proper(comps)
    ensures Components(Render(comps)) == comps
  {
    if comps != [] {
      RenderStart(comps);
      NextWord(Render(comps), 0, comps);
      WordsOfRendered(Render(comps), 1, comps[0], comps[1..]);
      assert IsCut(Render(comps), 1, [comps[0]] + comps[1..], Unit);
      assert comps == [comps[0]] + comps[1..];
    }
  }

  lemma Regroup(d: string, r: string, c: string)
    ensures "/" + (d + (r + "/" + c)) == "/" + (d + r) + "/" + c
  {
  }

  lemma {:induction false} RenderAppend(comps: seq<string>, c: string)
    ensures Render(comps + [c]) == Render(comps) + "/" + c
    decreases |comps|
  {
    if comps == [] {
      assert comps + [c] == [c] && [c][1..] == [];
    } else {
      RenderAppend(comps[1..], c);
      assert (comps + [c])[1..] == comps[1..] + [c];
      Regroup(comps[0], Render(comps[1..]), c);
    }
  }

  lemma {:induction false} LastSlashFrom(path: string, n: nat, from: int)
    requires n < |path| && path[n] == '/' && (forall k :: n < k < |path| ==> path[k] != '/') && n <= from <= |path|
    ensures LastSlash(path, from) == n
    decreases from
  {
    if from > n { LastSlashFrom(path, n, from - 1); }
  }

  /** Cutting a canonical path at its last slash separates the directory from the new name. */
  lemma SplitRoundTrip(dir: seq<string>, name: string)
    requires ProperName(name)
    ensures var path := Render(dir + [name]); var i := LastSlash(path, |path|);
            i == |Render(dir)| && path[..i] == Render(dir) && path[i + 1..] == name
  {
    RenderAppend(dir, name);
    SlashBetween(Render(dir), name);
  }

  lemma SlashBetween(a: string, b: string)
    requires '/' !in b
    ensures var path := a + "/" + b; LastSlash(path, |path|) == |a| && path[..|a|] == a && path[|a| + 1..] == b
  {
    var path, n := a + "/" + b, |a|;
    assert forall k :: n < k < |path| ==> path[k] == b[k - n - 1];
    LastSlashFrom(path, n, |path|);
  }
}
