/**
 Canonical JSON text: the same for two values exactly when they are equal as unordered maps.

 A number is represented by the text the language prints for it; `undefined` members are dropped.
 */
module CanonicalJson {
  import opened Rows
  import opened JsonText
  import opened DuplicateKeys
  import opened DuplicateKeyMeaning

  datatype Value =
    | Undefined
    | Null
    | Bool(b: bool)
    | Num(text: Text)
    | Str(s: Text)
    | Arr(items: Items)
    | Obj(fields: Fields)

  datatype Items = Nil | Item(head: Value, rest: Items)

  datatype Fields = End | Field(key: Text, value: Value, rest: Fields)

  const NULL_TEXT: Text := [0x6E, 0x75, 0x6C, 0x6C]
  const TRUE_TEXT: Text := [0x74, 0x72, 0x75, 0x65]
  const FALSE_TEXT: Text := [0x66, 0x61, 0x6C, 0x73, 0x65]
  const UNDEFINED_TEXT: Text := [0x75, 0x6E, 0x64, 0x65, 0x66, 0x69, 0x6E, 0x65, 0x64]

  predicate IsNumber(text: Text) {
    IsScalar(text) && (IsDigit(text[0]) || text[0] == 0x2D)
  }

  // --- printing a string ------------------------------------------------------------------------------

  predicate IsHigh(c: Unit) { 0xD800 <= c < 0xDC00 }
  predicate IsLow(c: Unit) { 0xDC00 <= c < 0xE000 }

  /** A lower-case hexadecimal digit. */
  function HexDigit(n: nat): (c: Unit)
    requires n < 16
    ensures HexValue(c) == Some(n)
  {
    if n < 10 then ZERO + n else 0x61 + (n - 10)
  }

  function UnicodeEscape(c: Unit): (p: Piece)
    ensures WellFormedPiece(p) && PieceUnit(p) == c
  {
    var q := c / 16;
    var r := q / 16;
    var s := r / 16;
    assert s < 16 && c == 16 * q + c % 16 && q == 16 * r + q % 16 && r == 16 * s + r % 16;
    Hex(HexDigit(s), HexDigit(r % 16), HexDigit(q % 16), HexDigit(c % 16))
  }

  function ShortLetter(c: Unit): Option<Unit> {
    if c == QUOTE || c == BACKSLASH then Some(c)
    else if c == 0x08 then Some(0x62)
    else if c == 0x0C then Some(0x66)
    else if c == LINE_FEED then Some(0x6E)
    else if c == CARRIAGE_RETURN then Some(0x72)
    else if c == TAB then Some(0x74)
    else None
  }

  /** One code unit that is not half of a surrogate pair. */
  function UnitPiece(c: Unit): (p: Piece)
    ensures WellFormedPiece(p) && PieceUnit(p) == c
  {
    if ShortLetter(c).Some? then Short(ShortLetter(c).value)
    else if c < 0x20 || IsHigh(c) || IsLow(c) then UnicodeEscape(c)
    else Plain(c)
  }

  /** `JSON.stringify` of a string: quotes, controls and unpaired surrogates escaped, the rest as it is. */
  function Pieces(s: Text): (ps: seq<Piece>)
    ensures WellFormedPieces(ps)
    ensures Decoded(ps) == s
  {
    if s == [] then []
    else if |s| >= 2 && IsHigh(s[0]) && IsLow(s[1]) then
      var rest := Pieces(s[2..]);
      var tail := [Plain(s[1])] + rest;
      assert tail[1..] == rest && ([Plain(s[0])] + tail)[1..] == tail;
      assert Decoded(tail) == [s[1]] + s[2..] == s[1..] && s == [s[0]] + s[1..];
      [Plain(s[0])] + tail
    else
      var rest := Pieces(s[1..]);
      assert ([UnitPiece(s[0])] + rest)[1..] == rest && s == [s[0]] + s[1..];
      [UnitPiece(s[0])] + rest
  }

  /** The quoted string, followed by `tail`. */
  function Quoted(s: Text, tail: Text): Text {
    [QUOTE] + (PiecesText(Pieces(s)) + ([QUOTE] + tail))
  }

  lemma QuotedBack(s: Text, tail: Text)
    ensures ScanString(Quoted(s, tail)) == Some((s, tail))
  {
    StringScans(Pieces(s), tail);
  }

  // --- key order ------------------------------------------------------------------------------------------

  /** Order by code units, as the language compares strings. */
  predicate Less(a: Text, b: Text) {
    b != [] && (a == [] || a[0] < b[0] || (a[0] == b[0] && Less(a[1..], b[1..])))
  }

  lemma {:induction false} Trichotomy(a: Text, b: Text)
    ensures Less(a, b) || a == b || Less(b, a)
    ensures !(Less(a, b) && Less(b, a)) && !Less(a, a)
    decreases |a| + |b|
  {
    if a != [] && b != [] {
      Trichotomy(a[1..], b[1..]);
      assert a == [a[0]] + a[1..] && b == [b[0]] + b[1..];
    }
    if a != [] { Irreflexive(a[1..]); }
  }

  lemma {:induction false} Irreflexive(a: Text)
    ensures !Less(a, a)
  {
    if a != [] { Irreflexive(a[1..]); }
  }

  lemma {:induction false} Transitive(a: Text, b: Text, c: Text)
    requires Less(a, b) && Less(b, c)
    ensures Less(a, c)
    decreases |a|
  {
    if a != [] && a[0] == b[0] && b[0] == c[0] { Transitive(a[1..], b[1..], c[1..]); }
  }

  predicate Above(key: Text, fs: Fields) {
    fs.End? || (Less(key, fs.key) && Above(key, fs.rest))
  }

  predicate Sorted(fs: Fields) {
    fs.End? || (Above(fs.key, fs.rest) && Sorted(fs.rest))
  }

  function Insert(key: Text, value: Value, fs: Fields): Fields {
    if fs.End? || Less(key, fs.key) then Field(key, value, fs) else Field(fs.key, fs.value, Insert(key, value, fs.rest))
  }

  // --- printing a value -----------------------------------------------------------------------------------

  /** No `undefined` where it cannot be dropped: at the top or as an array item. */
  predicate Printable(v: Value) {
    match v
    case Undefined => false
    case Arr(items) => PrintableItems(items)
    case Obj(fields) => PrintableFields(fields)
    case _ => true
  }

  predicate PrintableItems(items: Items) {
    items.Nil? || (Printable(items.head) && PrintableItems(items.rest))
  }

  predicate PrintableFields(fs: Fields) {
    fs.End? || ((fs.value.Undefined? || Printable(fs.value)) && PrintableFields(fs.rest))
  }

  /** Members without a value dropped and the others sorted by key, at every depth. */
  function Normal(v: Value): Value {
    match v
    case Arr(items) => Arr(NormalItems(items))
    case Obj(fields) => Obj(NormalFields(fields))
    case _ => v
  }

  function NormalItems(items: Items): Items {
    if items.Nil? then Nil else Item(Normal(items.head), NormalItems(items.rest))
  }

  function NormalFields(fs: Fields): Fields {
    if fs.End? then End
    else if fs.value.Undefined? then NormalFields(fs.rest)
    else Insert(fs.key, Normal(fs.value), NormalFields(fs.rest))
  }

  /** The text of a value in its own order, followed by `tail`. */
  function Print(v: Value, tail: Text): Text {
    match v
    case Undefined => UNDEFINED_TEXT + tail
    case Null => NULL_TEXT + tail
    case Bool(b) => (if b then TRUE_TEXT else FALSE_TEXT) + tail
    case Num(text) => text + tail
    case Str(s) => Quoted(s, tail)
    case Arr(items) => [OPEN_BRACKET] + PrintItems(items, [CLOSE_BRACKET] + tail)
    case Obj(fields) => [OPEN_BRACE] + PrintFields(fields, [CLOSE_BRACE] + tail)
  }

  function PrintItems(items: Items, tail: Text): Text {
    if items.Nil? then tail
    else Print(items.head, if items.rest.Nil? then tail else [COMMA] + PrintItems(items.rest, tail))
  }

  function PrintFields(fs: Fields, tail: Text): Text {
    if fs.End? then tail
    else Quoted(fs.key, [COLON] + Print(fs.value, if fs.rest.End? then tail else [COMMA] + PrintFields(fs.rest, tail)))
  }

  /** The text a configuration is hashed by, or an error where a value cannot be serialized. */
  function Canonical(v: Value): Result<Text, ()> {
    if Printable(v) then Ok(Print(Normal(v), [])) else Err(())
  }

  // --- what a value means: keys in no order ------------------------------------------------------------------

  datatype Meaning =
    | MUndefined
    | MNull
    | MBool(b: bool)
    | MNum(text: Text)
    | MStr(s: Text)
    | MArr(items: seq<Meaning>)
    | MObj(fields: map<Text, Meaning>)

  function MeaningOf(v: Value): Meaning {
    match v
    case Undefined => MUndefined
    case Null => MNull
    case Bool(b) => MBool(b)
    case Num(text) => MNum(text)
    case Str(s) => MStr(s)
    case Arr(items) => MArr(ItemMeanings(items))
    case Obj(fields) => MObj(FieldMeanings(fields))
  }

  function ItemMeanings(items: Items): seq<Meaning> {
    if items.Nil? then [] else [MeaningOf(items.head)] + ItemMeanings(items.rest)
  }

  /** Members that have a value; keys are different, so their order does not matter. */
  function FieldMeanings(fs: Fields): map<Text, Meaning> {
    if fs.End? then map[]
    else if fs.value.Undefined? then FieldMeanings(fs.rest)
    else FieldMeanings(fs.rest)[fs.key := MeaningOf(fs.value)]
  }

  predicate HasKey(key: Text, fs: Fields) {
    fs.Field? && (fs.key == key || HasKey(key, fs.rest))
  }

  /** A value of the language: keys of an object are different, numbers are printed as numbers. */
  predicate Proper(v: Value) {
    match v
    case Num(text) => IsNumber(text)
    case Arr(items) => ProperItems(items)
    case Obj(fields) => ProperFields(fields)
    case _ => true
  }

  predicate ProperItems(items: Items) {
    items.Nil? || (Proper(items.head) && ProperItems(items.rest))
  }

  predicate ProperFields(fs: Fields) {
    fs.End? || (!HasKey(fs.key, fs.rest) && Proper(fs.value) && ProperFields(fs.rest))
  }

  // --- printing is injective ----------------------------------------------------------------------------------

  /** No `undefined` anywhere. */
  predicate Defined(v: Value) {
    match v
    case Undefined => false
    case Arr(items) => DefinedItems(items)
    case Obj(fields) => DefinedFields(fields)
    case _ => true
  }

  predicate DefinedItems(items: Items) {
    items.Nil? || (Defined(items.head) && DefinedItems(items.rest))
  }

  predicate DefinedFields(fs: Fields) {
    fs.End? || (Defined(fs.value) && DefinedFields(fs.rest))
  }

  lemma QuotedApart(s: Text, a: Text, t: Text, b: Text)
    requires Quoted(s, a) == Quoted(t, b)
    ensures s == t && a == b
  {
    QuotedBack(s, a);
    QuotedBack(t, b);
  }

  lemma {:induction false} ScalarApart(s: Text, a: Text, t: Text, b: Text)
    requires s + a == t + b && Stops(a) && Stops(b)
    requires (forall i :: 0 <= i < |s| ==> !Ends(s[i])) && forall i :: 0 <= i < |t| ==> !Ends(t[i])
    ensures s == t && a == b
  {
    SkipScalar(s, a);
    SkipScalar(t, b);
    assert s == (s + a)[..|s|] && t == (t + b)[..|t|];
  }

  predicate IsAtom(v: Value) {
    v.Null? || v.Bool? || v.Num?
  }

  function AtomText(v: Value): Text
    requires IsAtom(v)
  {
    if v.Null? then NULL_TEXT else if v.Num? then v.text else if v.b then TRUE_TEXT else FALSE_TEXT
  }

  /** The first character tells containers, strings and the rest apart. */
  lemma Leads(v: Value, tail: Text)
    requires Defined(v) && Proper(v)
    ensures var p := Print(v, tail);
            && p != [] && !Ends(p[0]) && (v.Str? <==> p[0] == QUOTE) && (v.Arr? <==> p[0] == OPEN_BRACKET) && (v.Obj? <==> p[0] == OPEN_BRACE)
            && (IsAtom(v) ==> p == AtomText(v) + tail)
  {
  }

  lemma {:induction false} PrintApart(v: Value, a: Text, w: Value, b: Text)
    requires Defined(v) && Defined(w) && Proper(v) && Proper(w) && Stops(a) && Stops(b)
    requires Print(v, a) == Print(w, b)
    ensures v == w && a == b
    decreases v
  {
    Leads(v, a);
    Leads(w, b);
    if IsAtom(v) {
      ScalarApart(AtomText(v), a, AtomText(w), b);
    } else if v.Str? {
      QuotedApart(v.s, a, w.s, b);
    } else if v.Arr? {
      var x, y := [CLOSE_BRACKET] + a, [CLOSE_BRACKET] + b;
      SameTail(OPEN_BRACKET, PrintItems(v.items, x), PrintItems(w.items, y));
      ItemsApart(v.items, a, w.items, b);
    } else {
      var x, y := [CLOSE_BRACE] + a, [CLOSE_BRACE] + b;
      SameTail(OPEN_BRACE, PrintFields(v.fields, x), PrintFields(w.fields, y));
      FieldsApart(v.fields, a, w.fields, b);
    }
  }

  lemma SameTail(c: Unit, a: Text, b: Text)
    requires [c] + a == [c] + b
    ensures a == b
  {
    assert a == ([c] + a)[1..] && b == ([c] + b)[1..];
  }

  lemma {:induction false} ItemsApart(xs: Items, a: Text, ys: Items, b: Text)
    requires DefinedItems(xs) && DefinedItems(ys) && ProperItems(xs) && ProperItems(ys)
    requires PrintItems(xs, [CLOSE_BRACKET] + a) == PrintItems(ys, [CLOSE_BRACKET] + b)
    ensures xs == ys && a == b
    decreases xs
  {
    var x, y := [CLOSE_BRACKET] + a, [CLOSE_BRACKET] + b;
    var nextX := if xs.Nil? || xs.rest.Nil? then x else [COMMA] + PrintItems(xs.rest, x);
    var nextY := if ys.Nil? || ys.rest.Nil? then y else [COMMA] + PrintItems(ys.rest, y);
    if xs.Item? { Leads(xs.head, nextX); }
    if ys.Item? { Leads(ys.head, nextY); }
    if xs.Nil? {
      SameTail(CLOSE_BRACKET, a, b);
    } else {
      PrintApart(xs.head, nextX, ys.head, nextY);
      assert xs.rest.Nil? <==> nextX[0] == CLOSE_BRACKET;
      if xs.rest.Nil? {
        SameTail(CLOSE_BRACKET, a, b);
      } else {
        SameTail(COMMA, PrintItems(xs.rest, x), PrintItems(ys.rest, y));
        ItemsApart(xs.rest, a, ys.rest, b);
      }
    }
  }

  lemma {:induction false} FieldsApart(xs: Fields, a: Text, ys: Fields, b: Text)
    requires DefinedFields(xs) && DefinedFields(ys) && ProperFields(xs) && ProperFields(ys)
    requires PrintFields(xs, [CLOSE_BRACE] + a) == PrintFields(ys, [CLOSE_BRACE] + b)
    ensures xs == ys && a == b
    decreases xs
  {
    var x, y := [CLOSE_BRACE] + a, [CLOSE_BRACE] + b;
    var nextX := if xs.End? || xs.rest.End? then x else [COMMA] + PrintFields(xs.rest, x);
    var nextY := if ys.End? || ys.rest.End? then y else [COMMA] + PrintFields(ys.rest, y);
    assert PrintFields(xs, x)[0] == (if xs.End? then CLOSE_BRACE else QUOTE);
    assert PrintFields(ys, y)[0] == (if ys.End? then CLOSE_BRACE else QUOTE);
    if xs.End? {
      SameTail(CLOSE_BRACE, a, b);
    } else {
      QuotedApart(xs.key, [COLON] + Print(xs.value, nextX), ys.key, [COLON] + Print(ys.value, nextY));
      SameTail(COLON, Print(xs.value, nextX), Print(ys.value, nextY));
      PrintApart(xs.value, nextX, ys.value, nextY);
      assert xs.rest.End? <==> nextX[0] == CLOSE_BRACE;
      if xs.rest.End? {
        SameTail(CLOSE_BRACE, a, b);
      } else {
        SameTail(COMMA, PrintFields(xs.rest, x), PrintFields(ys.rest, y));
        FieldsApart(xs.rest, a, ys.rest, b);
      }
    }
  }

  // --- the normal form and its meaning ---------------------------------------------------------------------------

  /** Sorted at every depth. */
  predicate Ordered(v: Value) {
    match v
    case Arr(items) => OrderedItems(items)
    case Obj(fields) => OrderedFields(fields) && Sorted(fields)
    case _ => true
  }

  predicate OrderedItems(items: Items) {
    items.Nil? || (Ordered(items.head) && OrderedItems(items.rest))
  }

  predicate OrderedFields(fs: Fields) {
    fs.End? || (Ordered(fs.value) && OrderedFields(fs.rest))
  }

  lemma {:induction false} InsertMeans(key: Text, value: Value, fs: Fields)
    requires !HasKey(key, fs) && Defined(value)
    ensures FieldMeanings(Insert(key, value, fs)) == FieldMeanings(fs)[key := MeaningOf(value)]
    decreases fs
  {
    if fs.Field? && !Less(key, fs.key) { InsertMeans(key, value, fs.rest); }
  }

  lemma {:induction false} InsertKeeps(key: Text, value: Value, fs: Fields)
    requires Sorted(fs) && !HasKey(key, fs) && OrderedFields(fs) && DefinedFields(fs) && ProperFields(fs)
    requires Ordered(value) && Defined(value) && Proper(value)
    ensures var r := Insert(key, value, fs);
            && Sorted(r) && OrderedFields(r) && DefinedFields(r) && ProperFields(r)
            && (forall k :: HasKey(k, r) <==> k == key || HasKey(k, fs))
            && (forall k :: Above(k, fs) && Less(k, key) ==> Above(k, r))
    decreases fs
  {
    if fs.Field? && !Less(key, fs.key) {
      Trichotomy(key, fs.key);
      InsertKeeps(key, value, fs.rest);
    } else if fs.Field? {
      AboveLess(key, fs.key, fs.rest);
    }
  }

  lemma {:induction false} AboveLess(key: Text, above: Text, fs: Fields)
    requires Less(key, above) && Above(above, fs)
    ensures Above(key, fs)
    decreases fs
  {
    if fs.Field? {
      Transitive(key, above, fs.key);
      AboveLess(key, above, fs.rest);
    }
  }

  /** Normalizing keeps the meaning and gives a sorted, fully defined value. */
  lemma {:induction false} NormalKeeps(v: Value)
    requires Proper(v) && Printable(v)
    ensures var n := Normal(v); MeaningOf(n) == MeaningOf(v) && Ordered(n) && Defined(n) && Proper(n)
    decreases v
  {
    match v
    case Arr(items) => NormalItemsKeep(items);
    case Obj(fields) => NormalFieldsKeep(fields);
    case _ =>
  }

  lemma {:induction false} NormalItemsKeep(items: Items)
    requires ProperItems(items) && PrintableItems(items)
    ensures var n := NormalItems(items); ItemMeanings(n) == ItemMeanings(items) && OrderedItems(n) && DefinedItems(n) && ProperItems(n)
    decreases items
  {
    if items.Item? {
      NormalKeeps(items.head);
      NormalItemsKeep(items.rest);
    }
  }

  lemma {:induction false} NormalFieldsKeep(fs: Fields)
    requires ProperFields(fs) && PrintableFields(fs)
    ensures var n := NormalFields(fs);
            && FieldMeanings(n) == FieldMeanings(fs) && OrderedFields(n) && Sorted(n) && DefinedFields(n) && ProperFields(n)
            && forall k :: HasKey(k, n) ==> HasKey(k, fs)
    decreases fs
  {
    if fs.Field? {
      NormalFieldsKeep(fs.rest);
      if !fs.value.Undefined? {
        NormalKeeps(fs.value);
        InsertKeeps(fs.key, Normal(fs.value), NormalFields(fs.rest));
        InsertMeans(fs.key, Normal(fs.value), NormalFields(fs.rest));
      }
    }
  }

  lemma {:induction false} KeysOfMeaning(fs: Fields)
    requires DefinedFields(fs)
    ensures forall k :: k in FieldMeanings(fs) <==> HasKey(k, fs)
    decreases fs
  {
    if fs.Field? { KeysOfMeaning(fs.rest); }
  }

  lemma {:induction false} AboveHasNot(key: Text, fs: Fields)
    requires Above(key, fs)
    ensures forall k :: HasKey(k, fs) ==> Less(key, k)
    ensures !HasKey(key, fs)
    decreases fs
  {
    if fs.Field? { AboveHasNot(key, fs.rest); }
    Irreflexive(key);
  }

  /** Sorted, defined values that mean the same are the same. */
  lemma {:induction false} OrderedApart(v: Value, w: Value)
    requires Ordered(v) && Ordered(w) && Defined(v) && Defined(w) && MeaningOf(v) == MeaningOf(w)
    ensures v == w
    decreases v
  {
    if v.Arr? { OrderedItemsApart(v.items, w.items); }
    else if v.Obj? { OrderedFieldsApart(v.fields, w.fields); }
  }

  lemma {:induction false} OrderedItemsApart(xs: Items, ys: Items)
    requires OrderedItems(xs) && OrderedItems(ys) && DefinedItems(xs) && DefinedItems(ys) && ItemMeanings(xs) == ItemMeanings(ys)
    ensures xs == ys
    decreases xs
  {
    if xs.Item? && ys.Item? {
      var a, b := ItemMeanings(xs), ItemMeanings(ys);
      assert a[0] == b[0] && a[1..] == ItemMeanings(xs.rest) && b[1..] == ItemMeanings(ys.rest);
      OrderedApart(xs.head, ys.head);
      OrderedItemsApart(xs.rest, ys.rest);
    }
  }

  /** The smallest key of the map is the first key of either list. */
  lemma SameFirstKey(xs: Fields, ys: Fields)
    requires Sorted(xs) && Sorted(ys) && DefinedFields(xs) && DefinedFields(ys) && FieldMeanings(xs) == FieldMeanings(ys) && xs.Field?
    ensures ys.Field? && xs.key == ys.key && FieldMeanings(xs.rest) == FieldMeanings(ys.rest)
  {
    KeysOfMeaning(xs);
    KeysOfMeaning(ys);
    assert HasKey(xs.key, ys);
    assert HasKey(ys.key, xs);
    AboveHasNot(xs.key, xs.rest);
    AboveHasNot(ys.key, ys.rest);
    Trichotomy(xs.key, ys.key);
    KeysOfMeaning(xs.rest);
    KeysOfMeaning(ys.rest);
    assert FieldMeanings(xs.rest) == FieldMeanings(xs) - {xs.key};
    assert FieldMeanings(ys.rest) == FieldMeanings(ys) - {ys.key};
  }

  lemma {:induction false} OrderedFieldsApart(xs: Fields, ys: Fields)
    requires OrderedFields(xs) && OrderedFields(ys) && Sorted(xs) && Sorted(ys) && DefinedFields(xs) && DefinedFields(ys)
    requires FieldMeanings(xs) == FieldMeanings(ys)
    ensures xs == ys
    decreases xs
  {
    if xs.End? {
      if ys.Field? { SameFirstKey(ys, xs); }
    } else {
      SameFirstKey(xs, ys);
      assert FieldMeanings(xs)[xs.key] == MeaningOf(xs.value) && FieldMeanings(ys)[ys.key] == MeaningOf(ys.value);
      OrderedApart(xs.value, ys.value);
      OrderedFieldsApart(xs.rest, ys.rest);
    }
  }

  /** Canonical texts agree exactly when the values are equal up to the order of keys and absent members. */
  lemma CanonicalIffSameMeaning(v: Value, w: Value)
    requires Proper(v) && Proper(w) && Printable(v) && Printable(w)
    ensures Canonical(v) == Canonical(w) <==> MeaningOf(v) == MeaningOf(w)
  {
    NormalKeeps(v);
    NormalKeeps(w);
    if Canonical(v) == Canonical(w) { PrintApart(Normal(v), [], Normal(w), []); }
    if MeaningOf(v) == MeaningOf(w) { OrderedApart(Normal(v), Normal(w)); }
  }

  // --- the digest's variant ------------------------------------------------------------------------------------------

  /** Sorting without dropping anything, as the worktree digest does. */
  function SortOnly(v: Value): Value {
    match v
    case Arr(items) => Arr(SortItems(items))
    case Obj(fields) => Obj(SortFields(fields))
    case _ => v
  }

  function SortItems(items: Items): Items {
    if items.Nil? then Nil else Item(SortOnly(items.head), SortItems(items.rest))
  }

  function SortFields(fs: Fields): Fields {
    if fs.End? then End else Insert(fs.key, SortOnly(fs.value), SortFields(fs.rest))
  }

  function DigestCanonical(v: Value): Text {
    Print(SortOnly(v), [])
  }

  lemma {:induction false} SortIsNormal(v: Value)
    requires Defined(v)
    ensures SortOnly(v) == Normal(v) && Printable(v)
    decreases v
  {
    match v
    case Arr(items) => SortItemsIsNormal(items);
    case Obj(fields) => SortFieldsIsNormal(fields);
    case _ =>
  }

  lemma {:induction false} SortItemsIsNormal(items: Items)
    requires DefinedItems(items)
    ensures SortItems(items) == NormalItems(items) && PrintableItems(items)
    decreases items
  {
    if items.Item? {
      SortIsNormal(items.head);
      SortItemsIsNormal(items.rest);
    }
  }

  lemma {:induction false} SortFieldsIsNormal(fs: Fields)
    requires DefinedFields(fs)
    ensures SortFields(fs) == NormalFields(fs) && PrintableFields(fs)
    decreases fs
  {
    if fs.Field? {
      SortIsNormal(fs.value);
      SortFieldsIsNormal(fs.rest);
    }
  }

  /** On values without `undefined` both printers agree, and so the digest's text is injective as well. */
  lemma DigestIffSameMeaning(v: Value, w: Value)
    requires Proper(v) && Proper(w) && Defined(v) && Defined(w)
    ensures Ok(DigestCanonical(v)) == Canonical(v)
    ensures DigestCanonical(v) == DigestCanonical(w) <==> MeaningOf(v) == MeaningOf(w)
  {
    SortIsNormal(v);
    SortIsNormal(w);
    CanonicalIffSameMeaning(v, w);
  }
}
