/** What the duplicate-key scanner finds in a JSON text. */
module DuplicateKeyMeaning {
  import opened Rows
  import opened JsonText
  import opened DuplicateKeys

  type Path = seq<Step>

  // --- repeated names, stated on the tree -----------------------------------------------------------------

  function Names(ms: Members): seq<Text>
    requires WellFormedMembers(ms)
  {
    if ms.NoMembers? then [] else [Decoded(ms.name)] + Names(ms.rest)
  }

  /** No object at any depth repeats a decoded member name. */
  predicate UniqueNames(v: Json)
    requires WellFormed(v)
  {
    match v
    case Scalar(_) => true
    case String(_) => true
    case Array(_, es) => UniqueInElements(es)
    case Object(_, ms) => Distinct(Names(ms)) && UniqueInMembers(ms)
  }

  predicate UniqueInElements(es: Elements)
    requires WellFormedElements(es)
  {
    es.NoElements? || (UniqueNames(es.value) && UniqueInElements(es.rest))
  }

  predicate UniqueInMembers(ms: Members)
    requires WellFormedMembers(ms)
  {
    ms.NoMembers? || (UniqueNames(ms.value) && UniqueInMembers(ms.rest))
  }

  /** The paths of all members, in the order their names stand in the text. */
  function MemberPaths(v: Json, path: Path): seq<Path>
    requires WellFormed(v)
  {
    match v
    case Scalar(_) => []
    case String(_) => []
    case Array(_, es) => PathsInElements(es, 0, path)
    case Object(_, ms) => PathsInMembers(ms, path)
  }

  function PathsInElements(es: Elements, item: nat, path: Path): seq<Path>
    requires WellFormedElements(es)
  {
    if es.NoElements? then [] else MemberPaths(es.value, path + [Index(item)]) + PathsInElements(es.rest, item + 1, path)
  }

  function PathsInMembers(ms: Members, path: Path): seq<Path>
    requires WellFormedMembers(ms)
  {
    if ms.NoMembers? then []
    else
      var child := path + [Name(Decoded(ms.name))];
      [child] + (MemberPaths(ms.value, child) + PathsInMembers(ms.rest, path))
  }

  /** The first path that is in `seen` or stood earlier in the list. */
  function FirstRepeat(seen: set<Path>, paths: seq<Path>): Option<Path>
    decreases |paths|
  {
    if paths == [] then None
    else if paths[0] in seen then Some(paths[0])
    else FirstRepeat(seen + {paths[0]}, paths[1..])
  }

  /** All different, and none of them taken. */
  predicate DistinctApart<T(==)>(list: seq<T>, taken: set<T>) {
    Distinct(list) && forall i :: 0 <= i < |list| ==> list[i] !in taken
  }

  lemma ConsDistinct<T>(x: T, rest: seq<T>, taken: set<T>)
    ensures DistinctApart([x] + rest, taken) <==> x !in taken && DistinctApart(rest, taken + {x})
  {
    var all := [x] + rest;
    assert forall i :: 0 <= i < |rest| ==> all[i + 1] == rest[i];
    if DistinctApart(all, taken) {
      forall i, j | 0 <= i < j < |rest| ensures rest[i] != rest[j] { assert all[i + 1] != all[j + 1]; }
      forall i | 0 <= i < |rest| ensures rest[i] !in taken + {x} { assert all[0] != all[i + 1]; }
      assert all[0] == x;
    }
  }

  /** Position `k` repeats an earlier path, or one in `seen`, and no position before it does. */
  predicate RepeatsAt(seen: set<Path>, paths: seq<Path>, k: nat) {
    k < |paths| && (paths[k] in seen || paths[k] in paths[..k]) && DistinctApart(paths[..k], seen)
  }

  /** Meaning of `FirstRepeat`: the path at the first position that repeats an earlier one, if there is one. */
  lemma {:induction false} FirstRepeatMeans(seen: set<Path>, paths: seq<Path>)
    ensures var r := FirstRepeat(seen, paths);
            if r.None? then DistinctApart(paths, seen) else exists k: nat :: RepeatsAt(seen, paths, k) && paths[k] == r.value
    decreases |paths|
  {
    if paths != [] {
      if paths[0] in seen {
        assert RepeatsAt(seen, paths, 0);
      } else {
        var rest := paths[1..];
        assert paths == [paths[0]] + rest;
        FirstRepeatMeans(seen + {paths[0]}, rest);
        ConsDistinct(paths[0], rest, seen);
        var r := FirstRepeat(seen + {paths[0]}, rest);
        if r.Some? {
          var k: nat :| RepeatsAt(seen + {paths[0]}, rest, k) && rest[k] == r.value;
          assert paths[..k + 1] == [paths[0]] + rest[..k];
          ConsDistinct(paths[0], rest[..k], seen);
          assert RepeatsAt(seen, paths, k + 1);
        }
      }
    }
  }

  lemma {:induction false} RepeatConcat(seen: set<Path>, a: seq<Path>, b: seq<Path>)
    ensures FirstRepeat(seen, a + b) == First(FirstRepeat(seen, a), FirstRepeat(seen + ToSet(a), b))
    decreases |a|
  {
    if a == [] {
      assert a + b == b && seen + ToSet(a) == seen;
    } else {
      assert (a + b)[0] == a[0] && (a + b)[1..] == a[1..] + b;
      RepeatConcat(seen + {a[0]}, a[1..], b);
      assert seen + {a[0]} + ToSet(a[1..]) == seen + ToSet(a);
    }
  }

  // --- one pass over the tree, as the scanner does it ---------------------------------------------------------

  function DupValue(v: Json, path: Path): Option<Path>
    requires WellFormed(v)
  {
    match v
    case Scalar(_) => None
    case String(_) => None
    case Array(_, es) => DupElements(es, 0, path)
    case Object(_, ms) => DupMembers(ms, {}, path)
  }

  function DupElements(es: Elements, item: nat, path: Path): Option<Path>
    requires WellFormedElements(es)
  {
    if es.NoElements? then None else First(DupValue(es.value, path + [Index(item)]), DupElements(es.rest, item + 1, path))
  }

  function DupMembers(ms: Members, names: set<Text>, path: Path): Option<Path>
    requires WellFormedMembers(ms)
  {
    if ms.NoMembers? then None
    else
      var name := Decoded(ms.name);
      var child := path + [Name(name)];
      First(if name in names then Some(child) else DupValue(ms.value, child), DupMembers(ms.rest, names + {name}, path))
  }

  /** The part of that of the first member. */
  function DupMember(ms: Members, names: set<Text>, path: Path): Option<Path>
    requires ms.Member? && WellFormedMembers(ms)
  {
    var child := path + [Name(Decoded(ms.name))];
    if Decoded(ms.name) in names then Some(child) else DupValue(ms.value, child)
  }

  predicate Extends(p: Path, path: Path) {
    |p| > |path| && p[..|path|] == path
  }

  lemma {:induction false} PathsExtend(v: Json, path: Path)
    requires WellFormed(v)
    ensures forall p :: p in MemberPaths(v, path) ==> Extends(p, path)
    decreases v
  {
    match v
    case Scalar(_) =>
    case String(_) =>
    case Array(_, es) => ElementPathsExtend(es, 0, path);
    case Object(_, ms) => NamePathsExtend(ms, path);
  }

  lemma {:induction false} ElementPathsExtend(es: Elements, item: nat, path: Path)
    requires WellFormedElements(es)
    ensures forall p :: p in PathsInElements(es, item, path) ==> Extends(p, path)
    decreases es
  {
    if es.Element? {
      PathsExtend(es.value, path + [Index(item)]);
      ElementPathsExtend(es.rest, item + 1, path);
      forall p | p in MemberPaths(es.value, path + [Index(item)]) ensures Extends(p, path) {}
    }
  }

  lemma {:induction false} NamePathsExtend(ms: Members, path: Path)
    requires WellFormedMembers(ms)
    ensures forall p :: p in PathsInMembers(ms, path) ==> Extends(p, path)
    decreases ms
  {
    if ms.Member? {
      var s := Name(Decoded(ms.name));
      PathsExtend(ms.value, path + [s]);
      NamePathsExtend(ms.rest, path);
      assert (path + [s])[..|path|] == path;
      forall p | p in MemberPaths(ms.value, path + [s]) ensures Extends(p, path) {}
    }
  }

  ghost predicate Untouched(seen: set<Path>, path: Path) {
    forall p :: p in seen ==> !Extends(p, path)
  }

  /** The paths seen below an object are those of its first members, which have these names. */
  ghost predicate SeenNames(seen: set<Path>, path: Path, names: set<Text>) {
    && (forall n :: n in names ==> path + [Name(n)] in seen)
    && forall p: Path :: p in seen && Extends(p, path) ==> p[|path|].Name? && p[|path|].name in names
  }

  ghost predicate SeenItems(seen: set<Path>, path: Path, item: nat) {
    forall p: Path :: p in seen && Extends(p, path) ==> p[|path|].Index? && p[|path|].index < item
  }

  /** The pass finds the first repeated path of the whole list. */
  lemma {:induction false} ValueRepeat(v: Json, path: Path, seen: set<Path>)
    requires WellFormed(v) && Untouched(seen, path)
    ensures FirstRepeat(seen, MemberPaths(v, path)) == DupValue(v, path)
    decreases v
  {
    match v
    case Scalar(_) =>
    case String(_) =>
    case Array(_, es) => ElementsRepeat(es, 0, path, seen);
    case Object(_, ms) => MembersRepeat(ms, {}, path, seen);
  }

  lemma {:induction false} ElementsRepeat(es: Elements, item: nat, path: Path, seen: set<Path>)
    requires WellFormedElements(es) && SeenItems(seen, path, item)
    ensures FirstRepeat(seen, PathsInElements(es, item, path)) == DupElements(es, item, path)
    decreases es
  {
    if es.Element? {
      var child := path + [Index(item)];
      var paths := MemberPaths(es.value, child);
      forall p | p in seen ensures !Extends(p, child) {}
      ValueRepeat(es.value, child, seen);
      PathsExtend(es.value, child);
      forall p | p in paths ensures Extends(p, path) && p[|path|] == Index(item) {}
      ElementsRepeat(es.rest, item + 1, path, seen + ToSet(paths));
      RepeatConcat(seen, paths, PathsInElements(es.rest, item + 1, path));
    }
  }

  lemma {:induction false} MembersRepeat(ms: Members, names: set<Text>, path: Path, seen: set<Path>)
    requires WellFormedMembers(ms) && SeenNames(seen, path, names)
    ensures FirstRepeat(seen, PathsInMembers(ms, path)) == DupMembers(ms, names, path)
    decreases ms
  {
    if ms.Member? {
      var name := Decoded(ms.name);
      var child := path + [Name(name)];
      var paths, more := MemberPaths(ms.value, child), PathsInMembers(ms.rest, path);
      var all := [child] + (paths + more);
      assert all[0] == child && all[1..] == paths + more;
      if name !in names {
        ValueRepeat(ms.value, child, seen + {child});
        PathsExtend(ms.value, child);
        SeenOneMore(names, name, path, seen, paths);
        MembersRepeat(ms.rest, names + {name}, path, seen + {child} + ToSet(paths));
        RepeatConcat(seen + {child}, paths, more);
      }
    }
  }

  lemma SeenOneMore(names: set<Text>, name: Text, path: Path, seen: set<Path>, paths: seq<Path>)
    requires SeenNames(seen, path, names) && forall p :: p in paths ==> Extends(p, path + [Name(name)])
    ensures SeenNames(seen + {path + [Name(name)]} + ToSet(paths), path, names + {name})
  {
    var child := path + [Name(name)];
    assert child[|path|] == Name(name);
    forall p | p in paths ensures p[|path|] == Name(name) {}
  }

  /** Nothing is found exactly when no object repeats a name. */
  lemma {:induction false} NoDupIff(v: Json, path: Path)
    requires WellFormed(v)
    ensures DupValue(v, path).None? <==> UniqueNames(v)
    decreases v
  {
    match v
    case Scalar(_) =>
    case String(_) =>
    case Array(_, es) => NoDupElements(es, 0, path);
    case Object(_, ms) => NoDupMembers(ms, {}, path);
  }

  lemma {:induction false} NoDupElements(es: Elements, item: nat, path: Path)
    requires WellFormedElements(es)
    ensures DupElements(es, item, path).None? <==> UniqueInElements(es)
    decreases es
  {
    if es.Element? {
      NoDupIff(es.value, path + [Index(item)]);
      NoDupElements(es.rest, item + 1, path);
    }
  }

  lemma {:induction false} NoDupMembers(ms: Members, names: set<Text>, path: Path)
    requires WellFormedMembers(ms)
    ensures DupMembers(ms, names, path).None? <==> UniqueInMembers(ms) && DistinctApart(Names(ms), names)
    decreases ms
  {
    if ms.Member? {
      var name := Decoded(ms.name);
      NoDupIff(ms.value, path + [Name(name)]);
      NoDupMembers(ms.rest, names + {name}, path);
      ConsDistinct(name, Names(ms.rest), names);
    }
  }

  // --- the scanner makes that pass ------------------------------------------------------------------------------

  lemma {:induction false} SkipPad(pad: Text, tail: Text)
    requires AllSpace(pad)
    ensures SkipSpace(pad + tail) == SkipSpace(tail)
  {
    if pad == [] {
      assert pad + tail == tail;
    } else {
      assert (pad + tail)[0] == pad[0] && (pad + tail)[1..] == pad[1..] + tail;
      SkipPad(pad[1..], tail);
    }
  }

  lemma {:induction false} SkipScalar(text: Text, tail: Text)
    requires (forall i :: 0 <= i < |text| ==> !Ends(text[i])) && Stops(tail)
    ensures SkipToken(text + tail) == tail
  {
    if text == [] {
      assert text + tail == tail;
    } else {
      assert (text + tail)[0] == text[0] && (text + tail)[1..] == text[1..] + tail;
      SkipScalar(text[1..], tail);
    }
  }

  /** What may follow a value. */
  predicate Stops(tail: Text) {
    tail == [] || Ends(tail[0])
  }

  lemma PieceBody(p: Piece, rest: Text)
    requires WellFormedPiece(p)
    ensures StringBody(PieceText(p) + rest) == Longer(PieceText(p), StringBody(rest))
  {
    var text := PieceText(p) + rest;
    match p
    case Plain(c) => assert text[1..] == rest && text[..1] == [c];
    case Short(letter) => assert text[2..] == rest && text[..2] == [BACKSLASH, letter];
    case Hex(a, b, c, d) => HexBody(a, b, c, d, rest);
  }

  lemma PlainBody(c: Unit, rest: Text)
    requires c != QUOTE && c != BACKSLASH
    ensures StringBody([c] + rest) == Longer([c], StringBody(rest))
  {
    assert ([c] + rest)[1..] == rest && ([c] + rest)[..1] == [c];
  }

  lemma HexBody(a: Unit, b: Unit, c: Unit, d: Unit, rest: Text)
    requires IsHex(a) && IsHex(b) && IsHex(c) && IsHex(d)
    ensures StringBody([BACKSLASH, LETTER_U, a, b, c, d] + rest) == Longer([BACKSLASH, LETTER_U, a, b, c, d], StringBody(rest))
  {
    var text := [BACKSLASH, LETTER_U, a, b, c, d] + rest;
    assert text[2..] == [a] + ([b] + ([c] + ([d] + rest))) && text[..2] == [BACKSLASH, LETTER_U];
    PlainBody(d, rest);
    PlainBody(c, [d] + rest);
    PlainBody(b, [c] + ([d] + rest));
    PlainBody(a, [b] + ([c] + ([d] + rest)));
    var r := StringBody(rest);
    if r.Some? {
      var body := r.value.0;
      assert [BACKSLASH, LETTER_U] + ([a] + ([b] + ([c] + ([d] + body)))) == [BACKSLASH, LETTER_U, a, b, c, d] + body;
    }
  }

  lemma {:induction false} PiecesBody(ps: seq<Piece>, tail: Text)
    requires WellFormedPieces(ps)
    ensures StringBody(PiecesText(ps) + ([QUOTE] + tail)) == Some((PiecesText(ps), tail))
  {
    if ps == [] {
      assert [] + ([QUOTE] + tail) == [QUOTE] + tail && ([QUOTE] + tail)[1..] == tail;
    } else {
      var rest := PiecesText(ps[1..]);
      assert PiecesText(ps) + ([QUOTE] + tail) == PieceText(ps[0]) + (rest + ([QUOTE] + tail));
      PieceBody(ps[0], rest + ([QUOTE] + tail));
      PiecesBody(ps[1..], tail);
    }
  }

  /** A rendered string scans to its decoded value. */
  lemma StringScans(ps: seq<Piece>, tail: Text)
    requires WellFormedPieces(ps)
    ensures ScanString([QUOTE] + (PiecesText(ps) + ([QUOTE] + tail))) == Some((Decoded(ps), tail))
  {
    var text := [QUOTE] + (PiecesText(ps) + ([QUOTE] + tail));
    assert text[1..] == PiecesText(ps) + ([QUOTE] + tail);
    PiecesBody(ps, tail);
    ParsePieces(ps);
  }

  function PointerOf(p: Option<Path>): Option<Text> {
    if p.Some? then Some(Pointer(p.value)) else None
  }

  lemma Led(c: Unit, text: Text)
    ensures Next([c] + text, c) && ([c] + text)[1..] == text && (!IsSpace(c) ==> SkipSpace([c] + text) == [c] + text)
  {}

  lemma {:induction false} ValueScans(v: Json, path: Path, tail: Text)
    requires WellFormed(v) && Stops(tail)
    ensures ScanValue(Put(v, tail), Pointer(path)) == Some(Scanned(tail, PointerOf(DupValue(v, path))))
    ensures SkipSpace(Put(v, tail)) == Put(v, tail) != [] && !Ends(Put(v, tail)[0])
    decreases v
  {
    match v
    case Scalar(text) => SkipScalar(text, tail);
    case String(ps) =>
      Led(QUOTE, PiecesText(ps) + ([QUOTE] + tail));
      StringScans(ps, tail);
    case Array(pad, es) =>
      if es.Element? { ElementsScan(es, 0, path, tail); }
      ArrayScans(pad, es, Pointer(path), tail, PointerOf(DupElements(es, 0, path)));
    case Object(pad, ms) =>
      if ms.Member? { MembersScan(ms, {}, path, tail); }
      ObjectScans(pad, ms, Pointer(path), tail, PointerOf(DupMembers(ms, {}, path)));
  }

  lemma ArrayScans(pad: Text, es: Elements, pointer: Text, tail: Text, found: Option<Text>)
    requires AllSpace(pad) && (es.NoElements? ==> found.None?)
    requires es.Element? ==> var text := SkipSpace(PutElements(es, [CLOSE_BRACKET] + tail));
                             !Next(text, CLOSE_BRACKET) && ScanElements(text, 0, pointer) == Some(Scanned(tail, found))
    ensures ScanValue(Put(Array(pad, es), tail), pointer) == Some(Scanned(tail, found))
  {
    var close := [CLOSE_BRACKET] + tail;
    Led(CLOSE_BRACKET, tail);
    Led(OPEN_BRACKET, if es.NoElements? then pad + close else PutElements(es, close));
    SkipPad(pad, close);
  }

  lemma ObjectScans(pad: Text, ms: Members, pointer: Text, tail: Text, found: Option<Text>)
    requires AllSpace(pad) && (ms.NoMembers? ==> found.None?)
    requires ms.Member? ==> var text := SkipSpace(PutMembers(ms, [CLOSE_BRACE] + tail));
                            !Next(text, CLOSE_BRACE) && ScanMembers(text, {}, pointer) == Some(Scanned(tail, found))
    ensures ScanValue(Put(Object(pad, ms), tail), pointer) == Some(Scanned(tail, found))
  {
    var close := [CLOSE_BRACE] + tail;
    Led(CLOSE_BRACE, tail);
    Led(OPEN_BRACE, if ms.NoMembers? then pad + close else PutMembers(ms, close));
    SkipPad(pad, close);
  }

  /** One element of an array whose value was scanned: the end of the array, or the rest of its elements. */
  lemma ElementStep(text: Text, item: nat, pointer: Text, after: Text, found: Option<Text>)
    requires text != [] && ScanValue(text, Child(pointer, Decimal(item))) == Some(Scanned(after, found))
    ensures var u := SkipSpace(after);
            && (Next(u, CLOSE_BRACKET) ==> ScanElements(text, item, pointer) == Some(Scanned(u[1..], found)))
            && (Next(u, COMMA) && ScanElements(SkipSpace(u[1..]), item + 1, pointer).Some? ==>
                  var more := ScanElements(SkipSpace(u[1..]), item + 1, pointer).value;
                  ScanElements(text, item, pointer) == Some(Scanned(more.rest, First(found, more.found))))
  {}

  lemma {:induction false} ElementsScan(es: Elements, item: nat, path: Path, tail: Text)
    requires es.Element? && WellFormedElements(es)
    ensures var text := SkipSpace(PutElements(es, [CLOSE_BRACKET] + tail));
            && !Next(text, CLOSE_BRACKET)
            && ScanElements(text, item, Pointer(path)) == Some(Scanned(tail, PointerOf(DupElements(es, item, path))))
    decreases es
  {
    var close := [CLOSE_BRACKET] + tail;
    var next := if es.rest.NoElements? then close else [COMMA] + PutElements(es.rest, close);
    var text, found := Put(es.value, es.after + next), PointerOf(DupValue(es.value, path + [Index(item)]));
    PointerStep(path, Index(item));
    ElementText(es, next);
    ValueScans(es.value, path + [Index(item)], es.after + next);
    ElementStep(text, item, Pointer(path), es.after + next, found);
    if es.rest.NoElements? {
      Led(CLOSE_BRACKET, tail);
    } else {
      Led(COMMA, PutElements(es.rest, close));
      ElementsScan(es.rest, item + 1, path, tail);
    }
  }

  /** The space around an element's value is skipped. */
  lemma ElementText(es: Elements, next: Text)
    requires es.Element? && WellFormedElements(es) && next != [] && (next[0] == CLOSE_BRACKET || next[0] == COMMA)
    ensures SkipSpace(es.before + Put(es.value, es.after + next)) == SkipSpace(Put(es.value, es.after + next))
    ensures SkipSpace(es.after + next) == next && Stops(es.after + next)
  {
    SkipPad(es.before, Put(es.value, es.after + next));
    SkipPad(es.after, next);
  }

  /** One rendered member, whatever stands after its value. */
  lemma MemberScans(ms: Members, names: set<Text>, path: Path, tail: Text, found: Option<Text>)
    requires ms.Member? && WellFormedMembers(ms)
    requires ScanValue(Put(ms.value, tail), Child(Pointer(path), Escaped(Decoded(ms.name)))) == Some(Scanned(tail, found))
    ensures var name := Decoded(ms.name);
            ScanMember(PutMember(ms, tail), names, Pointer(path))
              == Some((name, Scanned(tail, if name in names then Some(Child(Pointer(path), Escaped(name))) else found)))
  {
    var value := ms.beforeValue + Put(ms.value, tail);
    var colon := [COLON] + value;
    StringScans(ms.name, ms.afterName + colon);
    SkipPad(ms.afterName, colon);
    Led(COLON, value);
    SkipPad(ms.beforeValue, Put(ms.value, tail));
  }

  lemma MemberLed(ms: Members, tail: Text)
    requires ms.Member?
    ensures SkipSpace(PutMember(ms, tail)) == PutMember(ms, tail) && Next(PutMember(ms, tail), QUOTE)
  {}

  /** A member's scan, with the pointer of what it repeats. */
  lemma {:induction false} MemberFound(ms: Members, names: set<Text>, path: Path, next: Text)
    requires ms.Member? && WellFormedMembers(ms) && next != [] && (next[0] == CLOSE_BRACE || next[0] == COMMA)
    ensures ScanMember(PutMember(ms, ms.after + next), names, Pointer(path))
              == Some((Decoded(ms.name), Scanned(ms.after + next, PointerOf(DupMember(ms, names, path)))))
    decreases ms, 0
  {
    var child := path + [Name(Decoded(ms.name))];
    MemberText(ms, next);
    PointerStep(path, Name(Decoded(ms.name)));
    ValueScans(ms.value, child, ms.after + next);
    MemberScans(ms, names, path, ms.after + next, PointerOf(DupValue(ms.value, child)));
  }

  /** The space around a member is skipped. */
  lemma MemberText(ms: Members, next: Text)
    requires ms.Member? && WellFormedMembers(ms) && next != [] && (next[0] == CLOSE_BRACE || next[0] == COMMA)
    ensures var quoted := PutMember(ms, ms.after + next); SkipSpace(ms.before + quoted) == quoted && Next(quoted, QUOTE)
    ensures SkipSpace(ms.after + next) == next && Stops(ms.after + next)
  {
    MemberLed(ms, ms.after + next);
    SkipPad(ms.before, PutMember(ms, ms.after + next));
    SkipPad(ms.after, next);
  }

  /** One member of an object that was scanned: the end of the object, or the rest of its members. */
  lemma MembersStep(text: Text, names: set<Text>, pointer: Text, name: Text, after: Text, found: Option<Text>)
    requires ScanMember(text, names, pointer) == Some((name, Scanned(after, found)))
    ensures var u := SkipSpace(after);
            && (Next(u, CLOSE_BRACE) ==> ScanMembers(text, names, pointer) == Some(Scanned(u[1..], found)))
            && (Next(u, COMMA) && ScanMembers(SkipSpace(u[1..]), names + {name}, pointer).Some? ==>
                  var more := ScanMembers(SkipSpace(u[1..]), names + {name}, pointer).value;
                  ScanMembers(text, names, pointer) == Some(Scanned(more.rest, First(found, more.found))))
  {}

  lemma {:induction false} MembersScan(ms: Members, names: set<Text>, path: Path, tail: Text)
    requires ms.Member? && WellFormedMembers(ms)
    ensures var text := SkipSpace(PutMembers(ms, [CLOSE_BRACE] + tail));
            && !Next(text, CLOSE_BRACE)
            && ScanMembers(text, names, Pointer(path)) == Some(Scanned(tail, PointerOf(DupMembers(ms, names, path))))
    decreases ms
  {
    var close := [CLOSE_BRACE] + tail;
    var next := if ms.rest.NoMembers? then close else [COMMA] + PutMembers(ms.rest, close);
    var name := Decoded(ms.name);
    var quoted := PutMember(ms, ms.after + next);
    MemberFound(ms, names, path, next);
    MembersStep(quoted, names, Pointer(path), name, ms.after + next, PointerOf(DupMember(ms, names, path)));
    MemberText(ms, next);
    if ms.rest.NoMembers? {
      Led(CLOSE_BRACE, tail);
    } else {
      Led(COMMA, PutMembers(ms.rest, close));
      MembersScan(ms.rest, names + {name}, path, tail);
    }
  }

  /**
   On any JSON text, whatever its whitespace and escapes: the scanner ends without an error and reports the pointer
   of the first member whose name repeats one of the same object, in text order, or nothing when there is none.
   */
  lemma ScannerFindsFirstDuplicate(lead: Text, v: Json, trail: Text)
    requires AllSpace(lead) && WellFormed(v) && AllSpace(trail)
    ensures ScanValue(lead + Put(v, trail), []) == Some(Scanned(trail, PointerOf(FirstRepeat({}, MemberPaths(v, [])))))
    ensures FirstRepeat({}, MemberPaths(v, [])).None? <==> UniqueNames(v)
  {
    assert Stops(trail);
    ValueScans(v, [], trail);
    SkipPad(lead, Put(v, trail));
    ValueRepeat(v, [], {});
    NoDupIff(v, []);
  }
}
