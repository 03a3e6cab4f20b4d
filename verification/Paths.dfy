/** POSIX path normalization, as the governance code applies it to patterns and paths. */
module Paths {

  function SplitOn(text: string, sep: char): (parts: seq<string>)
    ensures parts != []
  {
    if text == [] then [""]
    else
      var rest := SplitOn(text[1..], sep);
      if text[0] == sep then [""] + rest else [[text[0]] + rest[0]] + rest[1..]
  }

  function Join(parts: seq<string>, sep: string): string {
    if parts == [] then ""
    else if |parts| == 1 then parts[0]
    else parts[0] + sep + Join(parts[1..], sep)
  }

  function ReplaceChar(text: string, from: char, to: char): (r: string)
    ensures |r| == |text|
  {
    if text == [] then "" else [if text[0] == from then to else text[0]] + ReplaceChar(text[1..], from, to)
  }

  /** One segment: empty and `.` are dropped, `..` undoes a kept segment where there is one. */
  function Push(kept: seq<string>, s: string, allowAboveRoot: bool): seq<string> {
    if s == "" || s == "." then kept
    else if s == ".." then
      if kept != [] && kept[|kept| - 1] != ".." then kept[..|kept| - 1]
      else if allowAboveRoot then kept + [".."]
      else kept
    else kept + [s]
  }

  function Resolve(segments: seq<string>, kept: seq<string>, allowAboveRoot: bool): seq<string> {
    if segments == [] then kept
    else Resolve(segments[1..], Push(kept, segments[0], allowAboveRoot), allowAboveRoot)
  }

  /** `posix.normalize`: collapse, keep a leading and a trailing slash, never return "". */
  function PosixNormalize(path: string): string {
    if path == "" then "."
    else
      var absolute := path[0] == '/';
      var trailing := path[|path| - 1] == '/';
      var body := Join(Resolve(SplitOn(path, '/'), [], !absolute), "/");
      if body == "" then
        if absolute then "/" else if trailing then "./" else "."
      else
        (if absolute then "/" else "") + body + (if trailing then "/" else "")
  }

  /** The digest's normal form of one pattern: slashes, normalize, drop one leading `./`. */
  function DigestPattern(path: string): string {
    var n := PosixNormalize(ReplaceChar(path, '\\', '/'));
    if |n| >= 2 && n[..2] == "./" then n[2..] else n
  }

  /** The selector's normal form, which also turns the empty pattern into `.`. */
  function NormalizePattern(path: string): string {
    var n := DigestPattern(path);
    if n == "" then "." else n
  }

  // --- normalizing twice changes nothing ----------------------------------------------

  /** Segments `Resolve` leaves behind: no empty, `.` or separator-bearing one, and `..` only as a prefix. */
  predicate Clean(segs: seq<string>, allowAboveRoot: bool) {
    && (forall i :: 0 <= i < |segs| ==>
          segs[i] != "" && segs[i] != "." && '/' !in segs[i] && (!allowAboveRoot ==> segs[i] != ".."))
    && (forall i, j :: 0 <= i < j < |segs| && segs[j] == ".." ==> segs[i] == "..")
  }

  predicate Free(segs: seq<string>, bad: char) {
    forall i :: 0 <= i < |segs| ==> bad !in segs[i]
  }

  lemma {:induction false} ResolveIsClean(segs: seq<string>, kept: seq<string>, above: bool)
    requires Clean(kept, above)
    requires Free(segs, '/')
    ensures Clean(Resolve(segs, kept, above), above)
    decreases |segs|
  {
    if segs != [] {
      var next := Push(kept, segs[0], above);
      assert Clean(next, above);
      ResolveIsClean(segs[1..], next, above);
    }
  }

  lemma {:induction false} ResolveFree(segs: seq<string>, kept: seq<string>, above: bool, bad: char)
    requires Free(segs, bad) && Free(kept, bad) && bad != '.'
    ensures Free(Resolve(segs, kept, above), bad)
    decreases |segs|
  {
    if segs != [] {
      var next := Push(kept, segs[0], above);
      ResolveFree(segs[1..], next, above, bad);
    }
  }

  lemma {:induction false} ResolveKeepsClean(segs: seq<string>, kept: seq<string>, above: bool)
    requires Clean(kept + segs, above)
    ensures Resolve(segs, kept, above) == kept + segs
    decreases |segs|
  {
    if segs == [] {
      assert kept + segs == kept;
    } else {
      var all := kept + segs;
      assert segs[0] == all[|kept|] && segs[0] in all;
      if segs[0] == ".." && kept != [] { assert all[|kept| - 1] == kept[|kept| - 1]; }
      assert (kept + [segs[0]]) + segs[1..] == all;
      ResolveKeepsClean(segs[1..], kept + [segs[0]], above);
    }
  }

  lemma {:induction false} SplitJoin(segs: seq<string>)
    requires segs != [] && Free(segs, '/')
    ensures SplitOn(Join(segs, "/"), '/') == segs
  {
    if |segs| == 1 {
      SplitPlain(segs[0]);
    } else {
      assert Join(segs, "/") == segs[0] + "/" + Join(segs[1..], "/");
      SplitJoin(segs[1..]);
      SplitAtSlash(segs[0], Join(segs[1..], "/"));
      assert segs == [segs[0]] + segs[1..];
    }
  }

  lemma {:induction false} SplitPlain(text: string)
    requires '/' !in text
    ensures SplitOn(text, '/') == [text]
  {
    if text != [] {
      SplitPlain(text[1..]);
      assert text == [text[0]] + text[1..];
    }
  }

  lemma {:induction false} SplitAtSlash(head: string, tail: string)
    requires '/' !in head
    ensures SplitOn(head + "/" + tail, '/') == [head] + SplitOn(tail, '/')
  {
    var text := head + "/" + tail;
    if head == [] {
      assert text[0] == '/' && text[1..] == tail;
    } else {
      assert text[0] == head[0] && text[1..] == head[1..] + "/" + tail;
      SplitAtSlash(head[1..], tail);
      assert head == [head[0]] + head[1..];
    }
  }

  lemma {:induction false} JoinChars(segs: seq<string>, bad: char)
    requires bad != '/' && Free(segs, bad)
    ensures bad !in Join(segs, "/")
  {
    if |segs| > 1 { JoinChars(segs[1..], bad); }
  }

  lemma {:induction false} ReplaceGone(text: string, from: char, to: char)
    requires from != to
    ensures from !in ReplaceChar(text, from, to)
    ensures from !in text ==> ReplaceChar(text, from, to) == text
  {
    if text != [] {
      var rest := text[1..];
      ReplaceGone(rest, from, to);
      assert text == [text[0]] + rest && (from in text <==> text[0] == from || from in rest);
    }
  }

  lemma {:induction false} SplitChars(text: string, sep: char, bad: char)
    requires bad !in text || bad == sep
    ensures Free(SplitOn(text, sep), bad)
  {
    if text != [] { SplitChars(text[1..], sep, bad); }
  }

  /** The shape of a normalized path: clean segments plus the two slashes that are kept. */
  function Assemble(absolute: bool, segs: seq<string>, trailing: bool): string {
    var body := Join(segs, "/");
    if body == "" then (if absolute then "/" else if trailing then "./" else ".")
    else (if absolute then "/" else "") + body + (if trailing then "/" else "")
  }

  lemma {:induction false} JoinEdges(segs: seq<string>)
    requires segs != [] && Free(segs, '/') && forall i :: 0 <= i < |segs| ==> segs[i] != ""
    ensures var j := Join(segs, "/"); j != "" && j[0] == segs[0][0] && j[0] != '/' && j[|j| - 1] != '/'
  {
    assert segs[0] != "";
    if |segs| > 1 { JoinEdges(segs[1..]); }
  }

  lemma {:induction false} ResolveDropsTrailing(segs: seq<string>, kept: seq<string>, above: bool)
    ensures Resolve(segs + [""], kept, above) == Resolve(segs, kept, above)
    decreases |segs|
  {
    if segs == [] {
      assert segs + [""] == [""];
      assert [""][1..] == [];
    } else {
      assert (segs + [""])[1..] == segs[1..] + [""];
      var next := Push(kept, segs[0], above);
      ResolveDropsTrailing(segs[1..], next, above);
    }
  }

  lemma {:induction false} SplitTrailingSlash(text: string)
    ensures SplitOn(text + "/", '/') == SplitOn(text, '/') + [""]
  {
    if text == [] {
      assert text + "/" == "/";
      assert "/"[1..] == "";
    } else {
      assert (text + "/")[0] == text[0] && (text + "/")[1..] == text[1..] + "/";
      SplitTrailingSlash(text[1..]);
    }
  }

  lemma NormalizeEmptyForms()
    ensures PosixNormalize("/") == "/" && PosixNormalize("./") == "./" && PosixNormalize(".") == "."
  {
    assert SplitOn("/", '/') == ["", ""] by { SplitTrailingSlash(""); assert "" + "/" == "/"; }
    assert SplitOn(".", '/') == ["."] by { SplitPlain("."); }
    assert SplitOn("./", '/') == [".", ""] by { SplitPlain("."); SplitTrailingSlash("."); assert "." + "/" == "./"; }
    assert Resolve(["."], [], true) == [] by { assert ["."][1..] == []; }
    assert Resolve([""], [], false) == [] by { assert [""][1..] == []; }
    assert Resolve(["", ""], [], false) == [] by { assert ["", ""][1..] == [""]; }
    assert Resolve([".", ""], [], true) == [] by { assert [".", ""] == ["."] + [""]; ResolveDropsTrailing(["."], [], true); }
  }

  /** Splitting and resolving a clean body, with its kept slashes, recovers the segments. */
  lemma ResolveAssembled(absolute: bool, segs: seq<string>, trailing: bool)
    requires Clean(segs, !absolute) && segs != []
    ensures var inner := Join(segs, "/") + (if trailing then "/" else "");
            Resolve(SplitOn((if absolute then "/" else "") + inner, '/'), [], !absolute) == segs
  {
    var body := Join(segs, "/");
    var inner := body + (if trailing then "/" else "");
    SplitJoin(segs);
    ResolveKeepsClean(segs, [], !absolute);
    assert [] + segs == segs;
    if trailing { SplitTrailingSlash(body); ResolveDropsTrailing(segs, [], !absolute); } else { assert inner == body; }
    if absolute {
      assert "/" + inner == "" + "/" + inner;
      SplitAtSlash("", inner);
    } else {
      assert "" + inner == inner;
    }
  }

  /** Normalizing an assembled clean path gives it back. */
  lemma NormalizeAssembled(absolute: bool, segs: seq<string>, trailing: bool)
    requires Clean(segs, !absolute)
    ensures PosixNormalize(Assemble(absolute, segs, trailing)) == Assemble(absolute, segs, trailing)
  {
    if segs == [] {
      NormalizeEmptyForms();
    } else {
      var text := Assemble(absolute, segs, trailing);
      var body := Join(segs, "/");
      JoinEdges(segs);
      ResolveAssembled(absolute, segs, trailing);
      assert text == (if absolute then "/" else "") + (body + (if trailing then "/" else ""));
      assert text[0] == '/' <==> absolute;
      assert text[|text| - 1] == '/' <==> trailing;
    }
  }

  /** `posix.normalize` is idempotent on backslash-free text. */
  lemma NormalizeTwice(path: string)
    requires '\\' !in path
    ensures PosixNormalize(PosixNormalize(path)) == PosixNormalize(path)
    ensures '\\' !in PosixNormalize(path)
  {
    if path == "" {
      NormalizeAssembled(false, [], false);
    } else {
      var absolute := path[0] == '/';
      var trailing := path[|path| - 1] == '/';
      SplitChars(path, '/', '/');
      SplitChars(path, '/', '\\');
      ResolveIsClean(SplitOn(path, '/'), [], !absolute);
      var segs := Resolve(SplitOn(path, '/'), [], !absolute);
      NormalizeAssembled(absolute, segs, trailing);
      ResolveFree(SplitOn(path, '/'), [], !absolute, '\\');
      JoinChars(segs, '\\');
    }
  }

  /** Dropping the leading `./` of a normal form leaves a normal form, or the empty text. */
  lemma DropDotSlash(path: string)
    requires '\\' !in path
    ensures var n := PosixNormalize(path); |n| >= 2 && n[..2] == "./" ==> n == "./"
  {
    if path != "" {
      var absolute := path[0] == '/';
      SplitChars(path, '/', '/');
      ResolveIsClean(SplitOn(path, '/'), [], !absolute);
      var segs := Resolve(SplitOn(path, '/'), [], !absolute);
      if segs != [] {
        DotSlashNeverLeads(segs);
        JoinEdges(segs);
        var n := PosixNormalize(path);
        if absolute { assert n[0] == '/'; } else { assert n[0] == Join(segs, "/")[0]; }
      }
    }
  }

  lemma DotSlashNeverLeads(segs: seq<string>)
    requires Clean(segs, true) && segs != []
    ensures var body := Join(segs, "/"); body != "" && (body[0] == '.' ==> |body| > 1 && body[1] != '/')
  {
    var body := Join(segs, "/");
    var s := segs[0];
    assert s != "" && s != "." && '/' !in s;
    assert |body| >= |s| && body[..|s|] == s;
    assert body[0] == body[..|s|][0];
    if |s| == 1 { assert s == [s[0]]; } else { assert body[1] == body[..|s|][1]; }
  }

  /** A pattern the selector already normalized reaches the digest unchanged in meaning. */
  lemma DigestOfNormalized(path: string)
    ensures DigestPattern(NormalizePattern(path)) == (if DigestPattern(path) == "" then "." else DigestPattern(path))
    ensures NormalizePattern(NormalizePattern(path)) == NormalizePattern(path)
  {
    var p := ReplaceChar(path, '\\', '/');
    ReplaceGone(path, '\\', '/');
    NormalizeTwice(p);
    DropDotSlash(p);
    var n := PosixNormalize(p);
    ReplaceGone(n, '\\', '/');
    ReplaceGone(".", '\\', '/');
    NormalizeAssembled(false, [], false);
    assert PosixNormalize(".") == ".";
  }

  /** Normalizing a stored pattern for the digest and for the selector gives the same text. */
  lemma DigestTwice(path: string)
    ensures DigestPattern(DigestPattern(path)) == NormalizePattern(DigestPattern(path))
  {
    DigestOfNormalized(path);
    ReplaceGone("", '\\', '/');
  }

  lemma EverythingIsNormal()
    ensures DigestPattern("**") == "**"
  {
    var p := "**";
    ReplaceGone(p, '\\', '/');
    assert Clean([p], true);
    assert Join([p], "/") == p;
    assert Assemble(false, [p], false) == p;
    NormalizeAssembled(false, [p], false);
    assert p[..2] == p;
  }
}
