/**
 * The engine-independent sort keys: a type tag and a payload in lower-case hexadecimal, compared
 * as bytes. The main results are `NumberKeyOrder` and `SortKeyOrder`: comparing two keys is
 * comparing the values they were made from.
 */
module SortKeys {
  import opened Wrappers
  import opened Text
  import opened Doubles
  import opened JsonValues

  const SORT_KEYS := "_sort"
  const STRING_BYTES := 32
  const SORT_KEY_VERSION: JsonNumber := Double(0x3FF0_0000, 0)  // the number 1

  /**
   * What the platform decides about text: `folded(s)` is the UTF-8 encoding of the folded `s`,
   * `json(v)` the JSON text of a value. Every result holds whatever these two functions are.
   */
  datatype TextRules = TextRules(folded: string -> seq<Byte>, json: Json -> string)

  // --- bytes and hexadecimal -------------------------------------------------------------------

  function HexDigit(n: int): (c: char)
    requires 0 <= n < 16
    ensures '0' <= c <= 'f'
  {
    "0123456789abcdef"[n]
  }

  function Hex(bytes: seq<Byte>): (text: string)
    ensures |text| == 2 * |bytes|
  {
    if bytes == [] then "" else [HexDigit(bytes[0] / 16), HexDigit(bytes[0] % 16)] + Hex(bytes[1..])
  }

  lemma HexDigitOrder(m: int, n: int)
    requires 0 <= m < 16 && 0 <= n < 16
    ensures HexDigit(m) < HexDigit(n) <==> m < n
    ensures HexDigit(m) == HexDigit(n) <==> m == n
  {
  }

  lemma LexHead(x: int, xs: seq<int>, y: int, ys: seq<int>)
    ensures LexLess([x] + xs, [y] + ys) <==> x < y || (x == y && LexLess(xs, ys))
  {
    assert ([x] + xs)[1..] == xs && ([y] + ys)[1..] == ys;
  }

  lemma HexCodes(b: Byte, rest: seq<Byte>)
    ensures Codes(Hex([b] + rest)) == [HexDigit(b / 16) as int] + ([HexDigit(b % 16) as int] + Codes(Hex(rest)))
  {
    assert ([b] + rest)[1..] == rest;
  }

  /** Hexadecimal text compares exactly as the bytes it spells. */
  lemma {:induction false} HexOrder(a: seq<Byte>, b: seq<Byte>)
    ensures TextLess(Hex(a), Hex(b)) <==> LexLess(a, b)
  {
    if a != [] && b != [] {
      HexOrder(a[1..], b[1..]);
      assert a == [a[0]] + a[1..] && b == [b[0]] + b[1..];
      HexCodes(a[0], a[1..]);
      HexCodes(b[0], b[1..]);
      HexDigitOrder(a[0] / 16, b[0] / 16);
      HexDigitOrder(a[0] % 16, b[0] % 16);
      var ha, la, ca := HexDigit(a[0] / 16) as int, HexDigit(a[0] % 16) as int, Codes(Hex(a[1..]));
      var hb, lb, cb := HexDigit(b[0] / 16) as int, HexDigit(b[0] % 16) as int, Codes(Hex(b[1..]));
      LexHead(ha, [la] + ca, hb, [lb] + cb);
      LexHead(la, ca, lb, cb);
    }
  }

  // --- numbers ---------------------------------------------------------------------------------

  function WordBytes(w: Word): (bytes: seq<Byte>)
    ensures |bytes| == 4
  {
    [w / 0x100_0000, w / 0x1_0000 % 0x100, w / 0x100 % 0x100, w % 0x100]
  }

  /** `n + 0`: the two zeros get one pattern. */
  function AddZero(d: Double): Double {
    if d.Zero() then PLUS_ZERO else d
  }

  /** The ordered pattern: every bit inverted below zero, the sign bit flipped otherwise. */
  function OrderedPattern(d: Double): Double {
    if d.Negative() then Double(TWO_32 - 1 - d.hi, TWO_32 - 1 - d.lo) else Double(d.hi + SIGN, d.lo)
  }

  function NumberKey(n: Double): string {
    var o := OrderedPattern(AddZero(n));
    Hex(WordBytes(o.hi) + WordBytes(o.lo))
  }

  function WordOf(b: seq<Byte>): (w: Word)
    requires |b| == 4
  {
    b[0] as int * 0x100_0000 + b[1] as int * 0x1_0000 + b[2] as int * 0x100 + b[3] as int
  }

  lemma WordBytesValue(w: Word)
    ensures WordOf(WordBytes(w)) == w
  {
    assert w / 0x100 / 0x100 == w / 0x1_0000;
    assert w / 0x1_0000 / 0x100 == w / 0x100_0000;
  }

  /** An eight-byte buffer read and written as two big-endian words. */
  class DataView {
    const buffer: array<Byte>

    constructor ()
      ensures buffer.Length == 8 && fresh(buffer)
    {
      buffer := new Byte[8](_ => 0);
    }

    method GetUint32(at: nat) returns (w: Word)
      requires at + 4 <= buffer.Length
      ensures w == WordOf(buffer[at..at + 4])
    {
      w := WordOf(buffer[at..at + 4]);
    }

    method SetUint32(at: nat, w: Word)
      requires at + 4 <= buffer.Length
      modifies buffer
      ensures buffer[..] == old(buffer[..at]) + WordBytes(w) + old(buffer[at + 4..])
    {
      buffer[at], buffer[at + 1] := w / 0x100_0000, w / 0x1_0000 % 0x100;
      buffer[at + 2], buffer[at + 3] := w / 0x100 % 0x100, w % 0x100;
    }

    method SetFloat64(d: Double)
      requires buffer.Length == 8
      modifies buffer
      ensures buffer[..] == WordBytes(d.hi) + WordBytes(d.lo)
    {
      SetUint32(0, d.hi);
      assert buffer[..4] == buffer[..][..4] == WordBytes(d.hi);
      SetUint32(4, d.lo);
    }
  }

  /** The buffer version: write the double, rewrite both words in place, spell the bytes. */
  method ComputeNumberKey(n: Double) returns (key: string)
    ensures key == NumberKey(n)
  {
    hide WordBytes, WordOf, AddZero, Hex;
    var d := AddZero(n);
    var view := new DataView();
    view.SetFloat64(d);
    assert view.buffer[0..4] == view.buffer[..][0..4] == WordBytes(d.hi);
    assert view.buffer[4..8] == view.buffer[..][4..8] == WordBytes(d.lo);
    var hi := view.GetUint32(0);
    var lo := view.GetUint32(4);
    WordBytesValue(d.hi);
    WordBytesValue(d.lo);
    var negative := hi >= SIGN;
    view.SetUint32(0, if negative then TWO_32 - 1 - hi else hi + SIGN);
    assert view.buffer[..4] == view.buffer[..][..4] == WordBytes(OrderedPattern(d).hi);
    view.SetUint32(4, if negative then TWO_32 - 1 - lo else lo);
    assert view.buffer[..] == WordBytes(OrderedPattern(d).hi) + WordBytes(OrderedPattern(d).lo);
    key := Hex(view.buffer[..]);
  }

  lemma WordBytesOrder(w: Word, xs: seq<int>, v: Word, ys: seq<int>)
    ensures LexLess(WordBytes(w) + xs, WordBytes(v) + ys) <==> w < v || (w == v && LexLess(xs, ys))
  {
    var a: seq<int>, b: seq<int> := WordBytes(w), WordBytes(v);
    WordBytesValue(w);
    WordBytesValue(v);
    assert a + xs == [a[0]] + ([a[1]] + ([a[2]] + ([a[3]] + xs)));
    assert b + ys == [b[0]] + ([b[1]] + ([b[2]] + ([b[3]] + ys)));
    LexHead(a[0], [a[1]] + ([a[2]] + ([a[3]] + xs)), b[0], [b[1]] + ([b[2]] + ([b[3]] + ys)));
    LexHead(a[1], [a[2]] + ([a[3]] + xs), b[1], [b[2]] + ([b[3]] + ys));
    LexHead(a[2], [a[3]] + xs, b[2], [b[3]] + ys);
    LexHead(a[3], xs, b[3], ys);
  }

  lemma NumberKeyIsWords(a: Double, b: Double)
    ensures TextLess(NumberKey(a), NumberKey(b))
        <==> var x, y := OrderedPattern(AddZero(a)), OrderedPattern(AddZero(b)); PairLess(x.hi, x.lo, y.hi, y.lo)
  {
    var x, y := OrderedPattern(AddZero(a)), OrderedPattern(AddZero(b));
    HexOrder(WordBytes(x.hi) + WordBytes(x.lo), WordBytes(y.hi) + WordBytes(y.lo));
    WordBytesOrder(x.hi, WordBytes(x.lo), y.hi, WordBytes(y.lo));
    WordBytesOrder(x.lo, [], y.lo, []);
    assert WordBytes(x.lo) + [] == WordBytes(x.lo) && WordBytes(y.lo) + [] == WordBytes(y.lo);
  }

  lemma AddZeroKeepsValue(d: Double)
    requires !d.NaN()
    ensures !AddZero(d).NaN() && Value(AddZero(d)) == Value(d)
    ensures AddZero(d).Zero() ==> AddZero(d) == PLUS_ZERO
  {
    if d.Zero() {
      MagnitudeOrder(d, PLUS_ZERO);
      MagnitudeOrder(PLUS_ZERO, d);
    }
  }

  /** Negative before positive; above zero by the pattern, below zero against it. */
  predicate SignedLess(a: Double, b: Double) {
    if a.Negative() != b.Negative() then a.Negative()
    else if a.Negative() then PairLess(b.hi % SIGN, b.lo, a.hi % SIGN, a.lo)
    else PairLess(a.hi % SIGN, a.lo, b.hi % SIGN, b.lo)
  }

  lemma OrderedIsSigned(a: Double, b: Double)
    ensures PairLess(OrderedPattern(a).hi, OrderedPattern(a).lo, OrderedPattern(b).hi, OrderedPattern(b).lo) <==> SignedLess(a, b)
  {
  }

  lemma FiniteOrder(a: Double, b: Double)
    requires a.Finite() && b.Finite()
    requires a.Zero() ==> a == PLUS_ZERO
    requires b.Zero() ==> b == PLUS_ZERO
    ensures Less(Value(a), Value(b)) <==> SignedLess(a, b)
  {
    MagnitudeOrder(a, b);
    MagnitudeOrder(b, a);
    var x, y := Magnitude(a), Magnitude(b);
    assert Value(a) == Number(if a.Negative() then -x else x);
    assert Value(b) == Number(if b.Negative() then -y else y);
  }

  lemma InfiniteOrder(a: Double, b: Double)
    requires !a.NaN() && !b.NaN() && !(a.Finite() && b.Finite())
    ensures Less(Value(a), Value(b)) <==> SignedLess(a, b)
  {
    PatternOrder(a, b);
    PatternOrder(b, a);
  }

  /** For any two doubles that are not NaN: the keys compare as the numbers do, both ways. */
  lemma NumberKeyOrder(a: Double, b: Double)
    requires !a.NaN() && !b.NaN()
    ensures TextLess(NumberKey(a), NumberKey(b)) <==> Less(Value(a), Value(b))
    ensures NumberKey(a) == NumberKey(b) <==> Value(a) == Value(b)
  {
    NumberKeyLess(a, b);
    NumberKeyLess(b, a);
    TextConnected(NumberKey(a), NumberKey(b));
    LexIrreflexive(Codes(NumberKey(a)));
  }

  lemma NumberKeyLess(a: Double, b: Double)
    requires !a.NaN() && !b.NaN()
    ensures TextLess(NumberKey(a), NumberKey(b)) <==> Less(Value(a), Value(b))
  {
    NumberKeyIsWords(a, b);
    AddZeroKeepsValue(a);
    AddZeroKeepsValue(b);
    OrderedIsSigned(AddZero(a), AddZero(b));
    if AddZero(a).Finite() && AddZero(b).Finite() {
      FiniteOrder(AddZero(a), AddZero(b));
    } else {
      InfiniteOrder(AddZero(a), AddZero(b));
    }
  }

  // --- values ----------------------------------------------------------------------------------

  function Prefix(bytes: seq<Byte>): seq<Byte> {
    if |bytes| <= STRING_BYTES then bytes else bytes[..STRING_BYTES]
  }

  function TextOf(rules: TextRules, v: Json): string {
    if v.Str? then v.s else rules.json(v)
  }

  function StringKey(rules: TextRules, s: string): string {
    Hex(Prefix(rules.folded(s)))
  }

  function SortKey(rules: TextRules, v: Json): (key: string)
    ensures |key| > 0
  {
    match v
    case Null => "0"
    case Bool(b) => if b then "11" else "10"
    case Num(n) => "2" + NumberKey(n)
    case _ => "3" + StringKey(rules, TextOf(rules, v))
  }

  // --- the order the keys stand for --------------------------------------------------------------

  function Class(v: Option<Json>): int {
    match v
    case None => -1
    case Some(Null) => 0
    case Some(Bool(_)) => 1
    case Some(Num(_)) => 2
    case Some(_) => 3
  }

  /** missing < null < false < true < numbers by value < everything else by its first folded bytes */
  predicate ValueLess(rules: TextRules, a: Option<Json>, b: Option<Json>) {
    Class(a) < Class(b) ||
    (Class(a) == Class(b) &&
      match a
      case Some(Bool(x)) => !x && b.value.b
      case Some(Num(x)) => Less(Value(x), Value(b.value.n))
      case Some(Null) => false
      case None => false
      case Some(x) => FirstBytesLess(rules.folded(Spelling(rules, x)), rules.folded(Spelling(rules, b.value))))
  }

  /** A string is its own text; an array or object has its JSON text. */
  function Spelling(rules: TextRules, v: Json): string {
    match v
    case Str(s) => s
    case _ => rules.json(v)
  }

  /** One byte string comes before another by something within their first 32 bytes. */
  predicate FirstBytesLess(a: seq<Byte>, b: seq<Byte>) {
    exists k: int :: 0 <= k < 32 && LessAt(a, b, k)
  }

  /** Equal up to there, where one ends or has the smaller byte. */
  predicate LessAt(a: seq<int>, b: seq<int>, k: int) {
    0 <= k <= |a| && k < |b| && a[..k] == b[..k] && (k == |a| || a[k] < b[k])
  }

  lemma {:induction false} LexAt(a: seq<int>, b: seq<int>)
    ensures LexLess(a, b) <==> exists k :: LessAt(a, b, k)
  {
    if a == [] || b == [] || a[0] != b[0] {
      assert forall k | 0 < k <= |a| && k < |b| :: a[..k][0] == a[0] && b[..k][0] == b[0];
      assert LexLess(a, b) <==> LessAt(a, b, 0);
    } else {
      LexAt(a[1..], b[1..]);
      if k :| LessAt(a[1..], b[1..], k) {
        assert a[..k + 1] == [a[0]] + a[1..][..k] && b[..k + 1] == [b[0]] + b[1..][..k];
        assert LessAt(a, b, k + 1);
      }
      if k :| LessAt(a, b, k) {
        assert a[1..][..k - 1] == a[..k][1..] && b[1..][..k - 1] == b[..k][1..];
        assert LessAt(a[1..], b[1..], k - 1);
      }
    }
  }

  /** Cutting to the first bytes keeps exactly the differences found there. */
  lemma PrefixOrder(a: seq<Byte>, b: seq<Byte>)
    ensures LexLess(Prefix(a), Prefix(b)) <==> FirstBytesLess(a, b)
  {
    var x: seq<int>, y: seq<int> := Prefix(a), Prefix(b);
    LexAt(x, y);
    forall k: int ensures LessAt(x, y, k) <==> k < 32 && LessAt(a, b, k) {
      if 0 <= k <= |x| && k < |y| {
        assert x[..k] == a[..k] && y[..k] == b[..k];
      }
    }
  }

  /** A row's key in an index: none when the row lacks the field (NULLS FIRST when ascending). */
  predicate KeyLess(a: Option<string>, b: Option<string>) {
    b.Some? && (a.None? || TextLess(a.value, b.value))
  }

  function KeyOf(rules: TextRules, v: Option<Json>): Option<string> {
    if v.None? then None else Some(SortKey(rules, v.value))
  }

  lemma TaggedOrder(s: char, x: string, t: char, y: string)
    ensures TextLess([s] + x, [t] + y) <==> s < t || (s == t && TextLess(x, y))
  {
    CodesConcat([s], x);
    CodesConcat([t], y);
    LexHead(s as int, Codes(x), t as int, Codes(y));
    assert Codes([s]) == [s as int] && Codes([t]) == [t as int];
  }

  lemma KeyShape(rules: TextRules, v: Json) returns (payload: string)
    ensures SortKey(rules, v) == [HexDigit(Class(Some(v)))] + payload
    ensures v.Null? ==> payload == ""
    ensures v.Bool? ==> payload == (if v.b then "1" else "0")
    ensures v.Num? ==> payload == NumberKey(v.n)
    ensures Class(Some(v)) == 3 ==> payload == StringKey(rules, TextOf(rules, v))
  {
    payload := SortKey(rules, v)[1..];
  }

  /** Two stored keys compare as bytes exactly as the values they encode. */
  lemma SortKeyOrder(rules: TextRules, a: Option<Json>, b: Option<Json>)
    ensures KeyLess(KeyOf(rules, a), KeyOf(rules, b)) <==> ValueLess(rules, a, b)
  {
    if a.Some? && b.Some? {
      var x, y := a.value, b.value;
      var p := KeyShape(rules, x);
      var r := KeyShape(rules, y);
      TaggedOrder(HexDigit(Class(a)), p, HexDigit(Class(b)), r);
      HexDigitOrder(Class(a), Class(b));
      if Class(a) == Class(b) {
        if x.Num? {
          NumberKeyOrder(x.n, y.n);
        } else if Class(a) == 3 {
          HexOrder(Prefix(rules.folded(TextOf(rules, x))), Prefix(rules.folded(TextOf(rules, y))));
          PrefixOrder(rules.folded(TextOf(rules, x)), rules.folded(TextOf(rules, y)));
        } else if x.Bool? {
          BoolKeys(x.b, y.b);
        }
      }
    }
  }

  lemma BoolKeys(x: bool, y: bool)
    ensures TextLess(if x then "1" else "0", if y then "1" else "0") <==> !x && y
  {
    var s, t := if x then '1' else '0', if y then '1' else '0';
    assert (if x then "1" else "0") == [s] + "" && (if y then "1" else "0") == [t] + "";
    TaggedOrder(s, "", t, "");
  }

  lemma {:induction false} HexSpelled(bytes: seq<Byte>, i: nat)
    requires i < |bytes|
    ensures Hex(bytes)[2 * i] == Nibble(bytes[i] / 16) && Hex(bytes)[2 * i + 1] == Nibble(bytes[i] % 16)
  {
    if i > 0 { HexSpelled(bytes[1..], i - 1); }
  }

  /** A lower-case hexadecimal digit, by character codes. */
  function Nibble(n: int): char
    requires 0 <= n < 16
  {
    if n < 10 then (48 + n) as char else (87 + n) as char
  }

  /**
   * The keys themselves: a digit for the class, and after it nothing, a bit, the sixteen digits of a number
   * or two digits for each of a text's first 32 folded bytes.
   */
  lemma KeysSpelled(rules: TextRules, text: string, i: nat)
    ensures SortKey(rules, Null) == "0" && SortKey(rules, Bool(false)) == "10" && SortKey(rules, Bool(true)) == "11"
    ensures SortKey(rules, Num(SORT_KEY_VERSION)) == "2bff0000000000000"
    ensures var key, bytes := SortKey(rules, Str(text)), rules.folded(text);
      && |key| == 1 + 2 * (if |bytes| < 32 then |bytes| else 32) && key[0] == '3'
      && (i < |bytes| && i < 32 ==> key[1 + 2 * i] == Nibble(bytes[i] / 16) && key[2 + 2 * i] == Nibble(bytes[i] % 16))
  {
    var bytes := rules.folded(text);
    if i < |bytes| && i < 32 { HexSpelled(Prefix(bytes), i); }
    KeyOfOne();
    hide Hex;
  }

  lemma KeyOfOne()
    ensures NumberKey(SORT_KEY_VERSION) == "bff0000000000000"
  {
    var o := OrderedPattern(AddZero(SORT_KEY_VERSION));
    assert o == Double(0xBFF0_0000, 0);
    assert WordBytes(o.hi) + WordBytes(o.lo) == [0xBF, 0xF0, 0, 0, 0, 0, 0, 0];
    HexOfOne();
  }

  lemma HexOfOne()
    ensures Hex([0xBF, 0xF0, 0, 0, 0, 0, 0, 0]) == "bff0000000000000"
  {
    hide Hex, HexDigit;
    var bytes: seq<Byte> := [0xBF, 0xF0, 0, 0, 0, 0, 0, 0];
    var text := Hex(bytes);
    HexSpelled(bytes, 0);
    HexSpelled(bytes, 1);
    assert text[0] == 'b' && text[1] == 'f' && text[2] == 'f' && text[3] == '0';
    forall k | 4 <= k < 16 ensures text[k] == '0' {
      HexSpelled(bytes, k / 2);
      assert bytes[k / 2] == 0 && (k == 2 * (k / 2) || k == 2 * (k / 2) + 1);
    }
  }

  // --- the `_sort` sub-object ------------------------------------------------------------------

  function Present(body: Body, fields: seq<string>): set<string> {
    set f | f in fields && f in body
  }

  function KeyMap(rules: TextRules, body: Body, fields: seq<string>): map<string, Json> {
    map f | f in Present(body, fields) :: Str(SortKey(rules, body[f]))
  }

  function SortKeysFor(rules: TextRules, body: Body, fields: seq<string>): Option<Json> {
    if Present(body, fields) == {} then None
    else Some(Obj(map["v" := Num(SORT_KEY_VERSION), "k" := Obj(KeyMap(rules, body, fields))]))
  }

  /** `body` with its `_sort` recomputed from scratch: a caller-supplied one never survives. */
  function WithSortKeys(rules: TextRules, body: Body, fields: seq<string>): Body {
    var rest := Without(body, SORT_KEYS);
    match SortKeysFor(rules, rest, fields)
    case None => rest
    case Some(keys) => rest[SORT_KEYS := keys]
  }

  /** The key a sorted page compares: `body -> '_sort' -> 'k' ->> field`. */
  function StoredKey(rules: TextRules, body: Body, field: string): Option<string> {
    match Get(body, SORT_KEYS)
    case Some(Obj(s)) =>
      (match Get(s, "k")
       case Some(Obj(k)) =>
         (match Get(k, field)
          case None => None
          case Some(Null) => None
          case Some(Str(key)) => Some(key)
          case Some(v) => Some(rules.json(v)))
       case _ => None)
    case _ => None
  }

  /** Keys up to date: the stored `_sort`, read as JSON, is what the fields give today. */
  predicate FreshBody(rules: TextRules, body: Body, fields: seq<string>) {
    OrNull(SortKeysFor(rules, body, fields)) == OrNull(Get(body, SORT_KEYS))
  }

  /** Whatever the caller sent, the stored body has fresh keys and the caller's other values. */
  lemma WithSortKeysFresh(rules: TextRules, body: Body, fields: seq<string>)
    requires SORT_KEYS !in fields
    ensures FreshBody(rules, WithSortKeys(rules, body, fields), fields)
    ensures Without(WithSortKeys(rules, body, fields), SORT_KEYS) == Without(body, SORT_KEYS)
    ensures SORT_KEYS in WithSortKeys(rules, body, fields) <==> exists f :: f in fields && f in body
  {
    assert Present(Without(body, SORT_KEYS), fields) == Present(body, fields);
    if f :| f in fields && f in body { assert f in Present(body, fields); }
    KeysIgnoreSort(rules, body, WithSortKeys(rules, body, fields), fields);
    KeysIgnoreSort(rules, Without(body, SORT_KEYS), WithSortKeys(rules, body, fields), fields);
  }

  lemma KeysIgnoreSort(rules: TextRules, body: Body, body': Body, fields: seq<string>)
    requires SORT_KEYS !in fields
    requires Without(body, SORT_KEYS) == Without(body', SORT_KEYS)
    ensures SortKeysFor(rules, body, fields) == SortKeysFor(rules, body', fields)
  {
    forall f | f in fields ensures Get(body, f) == Get(body', f) {
      assert Get(Without(body, SORT_KEYS), f) == Get(Without(body', SORT_KEYS), f);
    }
    assert Present(body, fields) == Present(body', fields);
    assert KeyMap(rules, body, fields) == KeyMap(rules, body', fields) by {
      forall f | f in Present(body, fields) ensures body[f] == body'[f] {
        assert Get(body, f) == Get(body', f);
      }
    }
  }

  lemma VersionIsOne()
    ensures Value(SORT_KEY_VERSION) == Number(1.0)
  {
    assert SORT_KEY_VERSION.Exponent() == 1023 && SORT_KEY_VERSION.Fraction() == 0;
  }

  /** `_sort` as it has to be stored: version 1 and one key for each sortable field present, or nothing (or null). */
  predicate Spelled(rules: TextRules, body: Body, fields: seq<string>) {
    if exists f :: f in fields && f in body then
      match Get(body, "_sort")
      case Some(Obj(s)) =>
        && s.Keys == {"v", "k"}
        && s["v"] == Num(SORT_KEY_VERSION)
        && s["k"].Obj?
        && forall f | f in s["k"].fields.Keys + body.Keys ::
             Get(s["k"].fields, f) == if f in fields && f in body then Some(Str(SortKey(rules, body[f]))) else None
      case _ => false
    else Get(body, "_sort") in {None, Some(Null)}
  }

  /** Fresh keys are keys spelled like that; the version is the number 1. */
  lemma FreshSpelled(rules: TextRules, body: Body, fields: seq<string>)
    ensures FreshBody(rules, body, fields) <==> Spelled(rules, body, fields)
    ensures Value(SORT_KEY_VERSION) == Number(1.0)
  {
    VersionIsOne();
    hide SortKey;
    var keys := KeyMap(rules, body, fields);
    assert Present(body, fields) == {} <==> !(exists f :: f in fields && f in body);
    if Present(body, fields) != {} {
      forall f ensures Get(keys, f) == if f in fields && f in body then Some(Str(SortKey(rules, body[f]))) else None { }
      var whole := map["v" := Num(SORT_KEY_VERSION), "k" := Obj(keys)];
      if Spelled(rules, body, fields) {
        var s := body["_sort"].fields;
        SameFields(s["k"].fields, keys, body.Keys);
        assert s == whole;
      }
    }
  }

  lemma SameFields(a: map<string, Json>, b: map<string, Json>, keys: set<string>)
    requires b.Keys <= keys
    requires forall f | f in a.Keys + keys :: Get(a, f) == Get(b, f)
    ensures a == b
  {
    forall f ensures f in a <==> f in b {
      if f in a { assert Get(a, f) == Get(b, f); }
      if f in b { assert Get(a, f) == Get(b, f); }
    }
    forall f | f in a ensures a[f] == b[f] {
      assert Get(a, f) == Get(b, f);
    }
  }

  /** With fresh keys, the stored key of a sortable field is the key of the value stored there. */
  lemma FreshStoredKey(rules: TextRules, body: Body, fields: seq<string>, field: string)
    requires FreshBody(rules, body, fields) && field in fields
    ensures StoredKey(rules, body, field) == KeyOf(rules, Get(body, field))
  {
    if field in body {
      assert field in Present(body, fields);
      assert field in KeyMap(rules, body, fields);
    }
    var keys := SortKeysFor(rules, body, fields);
    if keys.Some? {
      assert Get(body, SORT_KEYS) == keys;
      var sub := keys.value.fields;
      assert Get(sub, "k") == Some(Obj(KeyMap(rules, body, fields)));
      assert Get(KeyMap(rules, body, fields), field) ==
        if field in body then Some(Str(SortKey(rules, body[field]))) else None;
    }
  }
}
