/** JSON values as they are dumped with sorted keys and read back: the document a
    value is written as, its text, and the value the text reads as. */
module CanonicalJson {
  import Sorting

  /** `repr` of an int or a float. */
  type Numeral = s: string | IsNumeral(s) witness "0"

  predicate IsNumeral(s: string) {
    s != [] && NumeralStart(s[0]) && forall i :: 0 <= i < |s| ==> NumeralChar(s[i])
  }

  predicate IsDigit(c: char) {
    '0' <= c <= '9'
  }

  predicate NumeralStart(c: char) {
    IsDigit(c) || c == '-' || c == 'N' || c == 'I'
  }

  /** Digits, signs, point, exponent, and the letters of NaN and Infinity. */
  predicate NumeralChar(c: char) {
    IsDigit(c) || c in ['-', '+', '.', 'e', 'E', 'N', 'a', 'I', 'n', 'f', 'i', 't', 'y']
  }

  /** A key that is a number: an int, a finite float with its `repr`, or a bool. */
  datatype NumberKey = IntKey(i: int) | FloatKey(x: real, numeral: Numeral) | BoolKey(b: bool)

  /** A dict has string keys or number keys, in insertion order; a value that is no
      JSON value stands as the string it is dumped as. */
  datatype Json =
    | JNull
    | JBool(b: bool)
    | JNumber(numeral: Numeral)
    | JString(s: string)
    | JList(items: seq<Json>)
    | JObject(members: seq<Member>)
    | JNumberObject(entries: seq<NumberMember>)

  datatype Member = Member(key: string, value: Json)

  datatype NumberMember = NumberMember(key: NumberKey, value: Json)

  /** What a text says: keys are strings, and their order is part of it. */
  datatype Doc =
    | DNull
    | DBool(b: bool)
    | DNumber(numeral: Numeral)
    | DString(s: string)
    | DList(items: seq<Doc>)
    | DObject(fields: seq<Field>)

  datatype Field = Field(key: string, value: Doc)

  datatype NumberField = NumberField(key: NumberKey, value: Doc)

  // ------------------------------------------------- dumping with sorted keys

  predicate KeyLe(a: Field, b: Field) {
    Sorting.TextLe(a.key, b.key)
  }

  /** What a number key compares by. */
  function Measure(k: NumberKey): (r: real) {
    match k
    case IntKey(i) => i as real
    case FloatKey(x, _) => x
    case BoolKey(b) => if b then 1.0 else 0.0
  }

  /** By value. No two keys of a dict are equal, so the text never decides. */
  predicate NumberKeyLe(a: NumberField, b: NumberField) {
    if Measure(a.key) != Measure(b.key) then Measure(a.key) < Measure(b.key)
    else Sorting.TextLe(KeyText(a.key), KeyText(b.key))
  }

  function NatText(n: nat): (r: string) {
    if n < 10 then [('0' as int + n) as char] else NatText(n / 10) + [('0' as int + n % 10) as char]
  }

  /** `str` of an int. */
  function IntText(i: int): (r: string) {
    if i < 0 then "-" + NatText(-i) else NatText(i)
  }

  /** How a number key is written. */
  function KeyText(k: NumberKey): (r: string) {
    match k
    case IntKey(i) => IntText(i)
    case FloatKey(_, numeral) => numeral
    case BoolKey(b) => if b then "true" else "false"
  }

  /** Among numbers true stands where 1 does and false where 0 does, and numbers come
      by value; written, the two are words. */
  lemma {:induction false} NumberOrder(b: bool, i: int, x: real, numeral: Numeral, v: Doc, w: Doc)
    ensures i as real != x ==>
      (NumberKeyLe(NumberField(IntKey(i), v), NumberField(FloatKey(x, numeral), w)) <==> i as real < x)
    ensures b && i != 1 ==> (NumberKeyLe(NumberField(BoolKey(b), v), NumberField(IntKey(i), w)) <==> 1 < i)
    ensures !b && i != 0 ==> (NumberKeyLe(NumberField(BoolKey(b), v), NumberField(IntKey(i), w)) <==> 0 < i)
    ensures (KeyText(BoolKey(b)) == "true" <==> b) && (KeyText(BoolKey(b)) == "false" <==> !b)
  {
    assert KeyText(BoolKey(b))[0] == if b then 't' else 'f';
  }

  function KeyTexts(entries: seq<NumberField>): (r: seq<Field>)
    ensures |r| == |entries| && forall i :: 0 <= i < |r| ==> r[i] == Field(KeyText(entries[i].key), entries[i].value)
  {
    if entries == [] then [] else [Field(KeyText(entries[0].key), entries[0].value)] + KeyTexts(entries[1..])
  }

  /** `json.dumps(..., sort_keys=True)`, as the document written: number keys are
      ordered as numbers and only then turned into strings. */
  function Dumped(j: Json): (d: Doc) {
    match j
    case JNull => DNull
    case JBool(b) => DBool(b)
    case JNumber(numeral) => DNumber(numeral)
    case JString(s) => DString(s)
    case JList(items) => DList(DumpedAll(items))
    case JObject(members) => DObject(Sorting.Sort(DumpedMembers(members), KeyLe))
    case JNumberObject(entries) => DObject(KeyTexts(Sorting.Sort(DumpedEntries(entries), NumberKeyLe)))
  }

  function DumpedAll(items: seq<Json>): (r: seq<Doc>)
    ensures |r| == |items|
  {
    if items == [] then [] else [Dumped(items[0])] + DumpedAll(items[1..])
  }

  function DumpedMembers(members: seq<Member>): (r: seq<Field>)
    ensures |r| == |members|
  {
    if members == [] then [] else [Field(members[0].key, Dumped(members[0].value))] + DumpedMembers(members[1..])
  }

  function DumpedEntries(entries: seq<NumberMember>): (r: seq<NumberField>)
    ensures |r| == |entries|
  {
    if entries == [] then [] else [DumpedEntry(entries[0])] + DumpedEntries(entries[1..])
  }

  function DumpedEntry(e: NumberMember): (r: NumberField) {
    NumberField(e.key, Dumped(e.value))
  }

  /** `json.loads`: every key is a string now. */
  function Loaded(d: Doc): (j: Json) {
    match d
    case DNull => JNull
    case DBool(b) => JBool(b)
    case DNumber(numeral) => JNumber(numeral)
    case DString(s) => JString(s)
    case DList(items) => JList(LoadedAll(items))
    case DObject(members) => JObject(LoadedMembers(members))
  }

  function LoadedAll(items: seq<Doc>): (r: seq<Json>)
    ensures |r| == |items|
  {
    if items == [] then [] else [Loaded(items[0])] + LoadedAll(items[1..])
  }

  function LoadedMembers(members: seq<Field>): (r: seq<Member>)
    ensures |r| == |members|
  {
    if members == [] then [] else [Member(members[0].key, Loaded(members[0].value))] + LoadedMembers(members[1..])
  }

  /** A value written to a file and read back. */
  function Reread(j: Json): (r: Json) {
    Loaded(Dumped(j))
  }

  // ------------------------------------------------------------------- text

  function HexDigit(n: nat): (r: char)
    requires n < 16
  {
    if n < 10 then ('0' as int + n) as char else ('a' as int + (n - 10)) as char
  }

  function Hex4(n: nat): (r: string)
    requires n < 0x10000
    ensures |r| == 4
  {
    [HexDigit(n / 16 / 16 / 16), HexDigit(n / 16 / 16 % 16), HexDigit(n / 16 % 16), HexDigit(n % 16)]
  }

  /** One character of a string literal, in ASCII. */
  function Escaped(c: char): (r: string)
    ensures r != [] && r[0] != '"'
  {
    if c == '"' then ['\\', '"']
    else if c == '\\' then ['\\', '\\']
    else if ' ' <= c <= '~' then [c]
    else if c == '\n' then ['\\', 'n']
    else if c == '\r' then ['\\', 'r']
    else if c == '\t' then ['\\', 't']
    else if c as int == 12 then ['\\', 'f']
    else if c as int == 8 then ['\\', 'b']
    else if c as int < 0x10000 then ['\\', 'u'] + Hex4(c as int)
    else
      var v := c as int - 0x10000;
      ['\\', 'u'] + Hex4(0xD800 + v / 0x400) + ['\\', 'u'] + Hex4(0xDC00 + v % 0x400)
  }

  // The writers put a document in front of the text that follows it.

  function WriteBody(s: string, rest: string): (r: string) {
    if s == [] then ['"'] + rest else Escaped(s[0]) + WriteBody(s[1..], rest)
  }

  function WriteString(s: string, rest: string): (r: string) {
    ['"'] + WriteBody(s, rest)
  }

  function WriteOn(d: Doc, rest: string): (r: string)
    decreases d
  {
    match d
    case DNull => "null" + rest
    case DBool(b) => (if b then "true" else "false") + rest
    case DNumber(numeral) => numeral + rest
    case DString(s) => WriteString(s, rest)
    case DList(items) =>
      if items == [] then ['[', ']'] + rest else ['['] + WriteOn(items[0], WriteItems(items[1..], rest))
    case DObject(members) =>
      if members == [] then ['{', '}'] + rest
      else ['{'] + WriteString(members[0].key, [':'] + WriteOn(members[0].value, WriteMembers(members[1..], rest)))
  }

  function WriteItems(items: seq<Doc>, rest: string): (r: string)
    decreases items
  {
    if items == [] then [']'] + rest else [','] + WriteOn(items[0], WriteItems(items[1..], rest))
  }

  function WriteMembers(members: seq<Field>, rest: string): (r: string)
    decreases members
  {
    if members == [] then ['}'] + rest
    else [','] + WriteString(members[0].key, [':'] + WriteOn(members[0].value, WriteMembers(members[1..], rest)))
  }

  function Written(d: Doc): (r: string) {
    WriteOn(d, "")
  }

  /** The payload text of `append` and `verify`. */
  function Canonical(j: Json): (r: string) {
    Written(Dumped(j))
  }

  // --------------------------------------------- the text names the document

  /** What follows a value: nothing, or a comma or a closing bracket. */
  predicate Delimited(rest: string) {
    rest == [] || rest[0] == ',' || rest[0] == ']' || rest[0] == '}'
  }

  lemma {:induction false} CutPrefix(p: string, x: string, y: string)
    requires p + x == p + y
    ensures x == y
  {
    assert (p + x)[|p|..] == x && (p + y)[|p|..] == y;
  }

  lemma {:induction false} HexUnique(m: nat, n: nat)
    requires m < 0x10000 && n < 0x10000 && Hex4(m) == Hex4(n)
    ensures m == n
  {
    DigitUnique(m / 16 / 16 / 16, n / 16 / 16 / 16, 0, m, n);
    DigitUnique(m / 16 / 16 % 16, n / 16 / 16 % 16, 1, m, n);
    DigitUnique(m / 16 % 16, n / 16 % 16, 2, m, n);
    DigitUnique(m % 16, n % 16, 3, m, n);
    Nibbles(m);
    Nibbles(n);
  }

  lemma {:induction false} Nibbles(n: nat)
    ensures n == 16 * (16 * (16 * (n / 16 / 16 / 16) + n / 16 / 16 % 16) + n / 16 % 16) + n % 16
  {
    var c := n / 16;
    var b := c / 16;
    assert n == 16 * c + n % 16 && c == 16 * b + c % 16 && b == 16 * (b / 16) + b % 16;
  }

  lemma {:induction false} DigitUnique(a: nat, b: nat, i: nat, m: nat, n: nat)
    requires a < 16 && b < 16 && i < 4 && m < 0x10000 && n < 0x10000
    requires Hex4(m)[i] == HexDigit(a) && Hex4(n)[i] == HexDigit(b) && Hex4(m) == Hex4(n)
    ensures a == b
  {
    assert HexDigit(a) as int == HexDigit(b) as int;
  }

  // What the digits say.

  function DigitValue(c: char): (r: nat)
    requires IsDigit(c)
  {
    c as int - '0' as int
  }

  /** The number that a string of decimal digits denotes. */
  function Decimal(s: string): (r: nat)
    requires forall i :: 0 <= i < |s| ==> IsDigit(s[i])
  {
    if s == [] then 0 else 10 * Decimal(s[..|s| - 1]) + DigitValue(s[|s| - 1])
  }

  /** A natural number is written in decimal digits, without leading zeros. */
  lemma {:induction false} NatTextReads(n: nat)
    ensures NatText(n) != [] && (forall i :: 0 <= i < |NatText(n)| ==> IsDigit(NatText(n)[i]))
    ensures Decimal(NatText(n)) == n && (NatText(n)[0] == '0' ==> n == 0)
  {
    var s := NatText(n);
    if n < 10 {
      assert s[..0] == [];
      assert Decimal(s[..0]) == 0;
    } else {
      NatTextReads(n / 10);
      assert s[..|s| - 1] == NatText(n / 10);
    }
  }

  /** And an integer with a minus sign exactly when it is negative. */
  lemma {:induction false} IntTextReads(i: int)
    ensures i >= 0 ==> IntText(i) == NatText(i)
    ensures i < 0 ==> IntText(i) == "-" + NatText(-i)
  {
  }

  predicate IsHexDigit(c: char) {
    IsDigit(c) || 'a' <= c <= 'f'
  }

  function HexValue(c: char): (r: nat)
    requires IsHexDigit(c)
  {
    if IsDigit(c) then DigitValue(c) else 10 + (c as int - 'a' as int)
  }

  /** Four lower-case hexadecimal digits denote their number. */
  lemma {:induction false} Hex4Reads(n: nat)
    requires n < 0x10000
    ensures forall i :: 0 <= i < 4 ==> IsHexDigit(Hex4(n)[i])
    ensures n == 0x1000 * HexValue(Hex4(n)[0]) + 0x100 * HexValue(Hex4(n)[1]) + 0x10 * HexValue(Hex4(n)[2])
                 + HexValue(Hex4(n)[3])
  {
    Nibbles(n);
  }

  /** What an escape denotes: printable ASCII itself, except for the quote and the
      backslash; the named control characters; and everything else its code units. */
  lemma {:induction false} EscapeReads(c: char)
    ensures ' ' <= c <= '~' && c != '"' && c != '\\' ==> Escaped(c) == [c]
    ensures c == '"' || c == '\\' ==> Escaped(c) == ['\\', c]
    ensures c == '\n' ==> Escaped(c) == ['\\', 'n']
    ensures c == '\r' ==> Escaped(c) == ['\\', 'r']
    ensures c == '\t' ==> Escaped(c) == ['\\', 't']
    ensures c as int == 12 ==> Escaped(c) == ['\\', 'f']
    ensures c as int == 8 ==> Escaped(c) == ['\\', 'b']
    ensures InUnicodeForm(c) <==> !(' ' <= c <= '~') && c !in ['\n', '\r', '\t'] && c as int != 12 && c as int != 8
    ensures InUnicodeForm(c) && c as int < 0x10000 ==> Escaped(c) == ['\\', 'u'] + Hex4(c as int)
    ensures c as int >= 0x10000 ==>
      && Escaped(c) == ['\\', 'u'] + Hex4(FirstUnit(c)) + ['\\', 'u'] + Hex4(SecondUnit(c))
      && 0xD800 <= FirstUnit(c) < 0xDC00 <= SecondUnit(c) < 0xE000
      && c as int == 0x10000 + (FirstUnit(c) - 0xD800) * 0x400 + (SecondUnit(c) - 0xDC00)
  {
  }

  /** Two escapes in front of two texts are equal only if both parts are. */
  lemma {:induction false} EscapeUnique(c: char, d: char, x: string, y: string)
    requires Escaped(c) + x == Escaped(d) + y
    ensures c == d && x == y
  {
    var u, v := Escaped(c) + x, Escaped(d) + y;
    assert u[0] == Escaped(c)[0] && v[0] == Escaped(d)[0];
    if Escaped(c)[0] != '\\' {
      assert Escaped(c) == [c] && Escaped(d) == [d];
      CutPrefix([c], x, y);
    } else {
      assert u[1] == Escaped(c)[1] && v[1] == Escaped(d)[1];
      if Escaped(c)[1] != 'u' {
        assert Escaped(c) == Escaped(d);
        CutPrefix(Escaped(c), x, y);
      } else {
        UnicodeUnique(c, d, x, y);
      }
    }
  }

  predicate InUnicodeForm(c: char) {
    |Escaped(c)| >= 6
  }

  /** The first code unit of a `\\u` escape. */
  function FirstUnit(c: char): (r: nat)
    ensures r < 0x10000
  {
    if c as int < 0x10000 then c as int else 0xD800 + (c as int - 0x10000) / 0x400
  }

  lemma {:induction false} FirstUnitWritten(c: char, x: string)
    requires InUnicodeForm(c)
    ensures |Escaped(c) + x| >= 6 && (Escaped(c) + x)[2..6] == Hex4(FirstUnit(c))
    ensures c as int < 0x10000 ==> |Escaped(c)| == 6 && (Escaped(c) + x)[6..] == x
    ensures c as int >= 0x10000 ==>
      |Escaped(c)| == 12 && (Escaped(c) + x)[8..12] == Hex4(SecondUnit(c))
      && (Escaped(c) + x)[12..] == x
  {
  }

  function SecondUnit(c: char): (r: nat)
    ensures r < 0x10000
  {
    if c as int < 0x10000 then 0 else 0xDC00 + (c as int - 0x10000) % 0x400
  }

  /** A character outside the first plane starts with a surrogate, which is no character. */
  lemma {:induction false} UnitsUnique(c: char, d: char)
    requires FirstUnit(c) == FirstUnit(d)
    ensures c as int < 0x10000 <==> d as int < 0x10000
    ensures SecondUnit(c) == SecondUnit(d) ==> c == d
  {
    if c as int >= 0x10000 {
      assert 0xD800 <= FirstUnit(c) < 0xDC00;
    }
    if d as int >= 0x10000 {
      assert 0xD800 <= FirstUnit(d) < 0xDC00;
    }
    if SecondUnit(c) == SecondUnit(d) {
      assert c as int == d as int;
    }
  }

  lemma {:induction false} UnicodeUnique(c: char, d: char, x: string, y: string)
    requires InUnicodeForm(c) && InUnicodeForm(d) && Escaped(c) + x == Escaped(d) + y
    ensures c == d && x == y
  {
    FirstUnitWritten(c, x);
    FirstUnitWritten(d, y);
    HexUnique(FirstUnit(c), FirstUnit(d));
    UnitsUnique(c, d);
    if c as int >= 0x10000 {
      HexUnique(SecondUnit(c), SecondUnit(d));
    }
    CutPrefix(Escaped(c), x, y);
  }

  lemma {:induction false} BodyLead(s: string, rest: string)
    ensures WriteBody(s, rest) != [] && (WriteBody(s, rest)[0] == '"' <==> s == [])
  {
    if s != [] {
      assert WriteBody(s, rest)[0] == Escaped(s[0])[0];
    }
  }

  lemma {:induction false} BodyUnique(s: string, t: string, x: string, y: string)
    requires WriteBody(s, x) == WriteBody(t, y)
    ensures s == t && x == y
  {
    BodyLead(s, x);
    BodyLead(t, y);
    if s == [] {
      CutPrefix(['"'], x, y);
    } else {
      EscapeUnique(s[0], t[0], WriteBody(s[1..], x), WriteBody(t[1..], y));
      BodyUnique(s[1..], t[1..], x, y);
      assert s == [s[0]] + s[1..] && t == [t[0]] + t[1..];
    }
  }

  lemma {:induction false} StringUnique(s: string, t: string, x: string, y: string)
    requires WriteString(s, x) == WriteString(t, y)
    ensures s == t && x == y
  {
    CutPrefix(['"'], WriteBody(s, x), WriteBody(t, y));
    BodyUnique(s, t, x, y);
  }

  lemma {:induction false} NumeralGoesOn(a: Numeral, b: Numeral, x: string, y: string)
    requires |a| < |b| && a + x == b + y
    ensures x != [] && NumeralChar(x[0])
  {
    assert |a + x| == |a| + |x| && |b + y| == |b| + |y|;
    assert x[0] == (a + x)[|a|] && (b + y)[|a|] == b[|a|];
  }

  lemma {:induction false} NumeralUnique(a: Numeral, b: Numeral, x: string, y: string)
    requires Delimited(x) && Delimited(y) && a + x == b + y
    ensures a == b && x == y
  {
    if |a| < |b| {
      NumeralGoesOn(a, b, x, y);
    } else if |b| < |a| {
      NumeralGoesOn(b, a, y, x);
    } else {
      assert (a + x)[..|a|] == a && (b + y)[..|b|] == b;
      CutPrefix(a, x, y);
    }
  }

  /** The first character of a written document, which tells its kind. */
  function Lead(d: Doc): (c: char) {
    match d
    case DNull => 'n'
    case DBool(b) => if b then 't' else 'f'
    case DNumber(numeral) => numeral[0]
    case DString(_) => '"'
    case DList(_) => '['
    case DObject(_) => '{'
  }

  lemma {:induction false} LeadWritten(d: Doc, rest: string)
    ensures WriteOn(d, rest) != [] && WriteOn(d, rest)[0] == Lead(d)
  {
  }

  lemma {:induction false} SecondWritten(items: seq<Doc>, fields: seq<Field>, rest: string)
    ensures |WriteOn(DList(items), rest)| >= 2 && |WriteOn(DObject(fields), rest)| >= 2
    ensures WriteOn(DList(items), rest)[1] == if items == [] then ']' else Lead(items[0])
    ensures WriteOn(DObject(fields), rest)[1] == if fields == [] then '}' else '"'
  {
    if items != [] {
      LeadWritten(items[0], WriteItems(items[1..], rest));
    }
  }

  lemma {:induction false} RestDelimited(items: seq<Doc>, fields: seq<Field>, rest: string)
    ensures Delimited(WriteItems(items, rest)) && Delimited(WriteMembers(fields, rest))
  {
  }

  /** A text is the text of one document only, whatever follows it. */
  lemma {:induction false} DocUnique(d: Doc, e: Doc, x: string, y: string)
    requires Delimited(x) && Delimited(y) && WriteOn(d, x) == WriteOn(e, y)
    ensures d == e && x == y
    decreases d
  {
    LeadWritten(d, x);
    LeadWritten(e, y);
    match d
    case DNull => CutPrefix("null", x, y);
    case DBool(b) => CutPrefix(if b then "true" else "false", x, y);
    case DNumber(numeral) => NumeralUnique(numeral, e.numeral, x, y);
    case DString(s) => StringUnique(s, e.s, x, y);
    case DList(items) => ListUnique(items, e.items, x, y);
    case DObject(fields) => ObjectUnique(fields, e.fields, x, y);
  }

  lemma {:induction false} ListUnique(s: seq<Doc>, t: seq<Doc>, x: string, y: string)
    requires Delimited(x) && Delimited(y) && WriteOn(DList(s), x) == WriteOn(DList(t), y)
    ensures s == t && x == y
    decreases s, 1
  {
    SecondWritten(s, [], x);
    SecondWritten(t, [], y);
    if s == [] && t == [] {
      CutPrefix(['[', ']'], x, y);
    } else if s != [] && t != [] {
      CutPrefix(['['], WriteOn(s[0], WriteItems(s[1..], x)), WriteOn(t[0], WriteItems(t[1..], y)));
      RestDelimited(s[1..], [], x);
      RestDelimited(t[1..], [], y);
      DocUnique(s[0], t[0], WriteItems(s[1..], x), WriteItems(t[1..], y));
      ItemsUnique(s[1..], t[1..], x, y);
      assert s == [s[0]] + s[1..] && t == [t[0]] + t[1..];
    }
  }

  lemma {:induction false} ItemsUnique(s: seq<Doc>, t: seq<Doc>, x: string, y: string)
    requires Delimited(x) && Delimited(y) && WriteItems(s, x) == WriteItems(t, y)
    ensures s == t && x == y
    decreases s, 0
  {
    assert WriteItems(s, x)[0] == if s == [] then ']' else ',';
    assert WriteItems(t, y)[0] == if t == [] then ']' else ',';
    if s == [] {
      CutPrefix([']'], x, y);
    } else {
      CutPrefix([','], WriteOn(s[0], WriteItems(s[1..], x)), WriteOn(t[0], WriteItems(t[1..], y)));
      RestDelimited(s[1..], [], x);
      RestDelimited(t[1..], [], y);
      DocUnique(s[0], t[0], WriteItems(s[1..], x), WriteItems(t[1..], y));
      ItemsUnique(s[1..], t[1..], x, y);
      assert s == [s[0]] + s[1..] && t == [t[0]] + t[1..];
    }
  }

  lemma {:induction false} FieldUnique(f: Field, g: Field, x: string, y: string)
    requires Delimited(x) && Delimited(y)
    requires WriteString(f.key, [':'] + WriteOn(f.value, x)) == WriteString(g.key, [':'] + WriteOn(g.value, y))
    ensures f == g && x == y
    decreases f
  {
    StringUnique(f.key, g.key, [':'] + WriteOn(f.value, x), [':'] + WriteOn(g.value, y));
    CutPrefix([':'], WriteOn(f.value, x), WriteOn(g.value, y));
    DocUnique(f.value, g.value, x, y);
  }

  lemma {:induction false} ObjectUnique(s: seq<Field>, t: seq<Field>, x: string, y: string)
    requires Delimited(x) && Delimited(y) && WriteOn(DObject(s), x) == WriteOn(DObject(t), y)
    ensures s == t && x == y
    decreases s, 1
  {
    SecondWritten([], s, x);
    SecondWritten([], t, y);
    if s == [] && t == [] {
      CutPrefix(['{', '}'], x, y);
    } else if s != [] && t != [] {
      CutPrefix(['{'], WriteString(s[0].key, [':'] + WriteOn(s[0].value, WriteMembers(s[1..], x))),
                WriteString(t[0].key, [':'] + WriteOn(t[0].value, WriteMembers(t[1..], y))));
      RestDelimited([], s[1..], x);
      RestDelimited([], t[1..], y);
      FieldUnique(s[0], t[0], WriteMembers(s[1..], x), WriteMembers(t[1..], y));
      MembersUnique(s[1..], t[1..], x, y);
      assert s == [s[0]] + s[1..] && t == [t[0]] + t[1..];
    }
  }

  lemma {:induction false} MembersUnique(s: seq<Field>, t: seq<Field>, x: string, y: string)
    requires Delimited(x) && Delimited(y) && WriteMembers(s, x) == WriteMembers(t, y)
    ensures s == t && x == y
    decreases s, 0
  {
    assert WriteMembers(s, x)[0] == if s == [] then '}' else ',';
    assert WriteMembers(t, y)[0] == if t == [] then '}' else ',';
    if s == [] {
      CutPrefix(['}'], x, y);
    } else {
      CutPrefix([','], WriteString(s[0].key, [':'] + WriteOn(s[0].value, WriteMembers(s[1..], x))),
                WriteString(t[0].key, [':'] + WriteOn(t[0].value, WriteMembers(t[1..], y))));
      RestDelimited([], s[1..], x);
      RestDelimited([], t[1..], y);
      FieldUnique(s[0], t[0], WriteMembers(s[1..], x), WriteMembers(t[1..], y));
      MembersUnique(s[1..], t[1..], x, y);
      assert s == [s[0]] + s[1..] && t == [t[0]] + t[1..];
    }
  }

  /** Canonical text is unambiguous. */
  lemma {:induction false} WrittenInjective(d: Doc, e: Doc)
    ensures Written(d) == Written(e) <==> d == e
  {
    if Written(d) == Written(e) {
      DocUnique(d, e, "", "");
    }
  }

  // ------------------------------------------------- what reading back keeps

  predicate KeysSorted(d: Doc) {
    match d
    case DList(items) => ItemsSorted(items)
    case DObject(fields) => Sorting.SortedBy(fields, KeyLe) && FieldsSorted(fields)
    case _ => true
  }

  predicate ItemsSorted(items: seq<Doc>) {
    items == [] || (KeysSorted(items[0]) && ItemsSorted(items[1..]))
  }

  predicate FieldsSorted(fields: seq<Field>) {
    fields == [] || (KeysSorted(fields[0].value) && FieldsSorted(fields[1..]))
  }

  lemma {:induction false} KeyOrder()
    ensures Sorting.TotalPreorder(KeyLe)
  {
    forall a: Field, b: Field, c: Field | KeyLe(a, b) && KeyLe(b, c)
      ensures KeyLe(a, c)
    {
      Sorting.TextLeTransitive(a.key, b.key, c.key);
    }
    forall a: Field, b: Field
      ensures KeyLe(a, b) || KeyLe(b, a)
    {
      Sorting.TextLeTotal(a.key, b.key);
    }
  }

  lemma {:induction false} NumberKeyOrder()
    ensures Sorting.TotalPreorder(NumberKeyLe)
  {
    forall a: NumberField, b: NumberField, c: NumberField | NumberKeyLe(a, b) && NumberKeyLe(b, c)
      ensures NumberKeyLe(a, c)
    {
      if Measure(a.key) == Measure(b.key) == Measure(c.key) {
        Sorting.TextLeTransitive(KeyText(a.key), KeyText(b.key), KeyText(c.key));
      }
    }
    forall a: NumberField, b: NumberField
      ensures NumberKeyLe(a, b) || NumberKeyLe(b, a)
    {
      Sorting.TextLeTotal(KeyText(a.key), KeyText(b.key));
    }
  }

  /** A document is dumped again as it stands exactly when its keys are sorted everywhere. */
  lemma {:induction false} DumpedLoaded(d: Doc)
    ensures Dumped(Loaded(d)) == d <==> KeysSorted(d)
  {
    match d
    case DList(items) => ItemsLoaded(items);
    case DObject(fields) =>
      var again := Again(fields);
      AgainKeys(fields);
      FieldsLoaded(fields);
      KeyOrder();
      if Sorting.Sort(again, KeyLe) == fields {
        Sorting.SortCorrect(again, KeyLe);
        SameKeysSorted(fields, again);
        Sorting.SortFixed(again, KeyLe);
      }
      if KeysSorted(d) {
        Sorting.SortFixed(fields, KeyLe);
      }
    case _ =>
  }

  lemma {:induction false} SameKeysSorted(a: seq<Field>, b: seq<Field>)
    requires |a| == |b| && (forall i :: 0 <= i < |a| ==> a[i].key == b[i].key) && Sorting.SortedBy(a, KeyLe)
    ensures Sorting.SortedBy(b, KeyLe)
  {
    forall i, j | 0 <= i < j < |b|
      ensures KeyLe(b[i], b[j])
    {
      assert KeyLe(a[i], a[j]);
    }
  }

  lemma {:induction false} ItemsLoaded(items: seq<Doc>)
    ensures DumpedAll(LoadedAll(items)) == items <==> ItemsSorted(items)
  {
    if items != [] {
      DumpedLoaded(items[0]);
      ItemsLoaded(items[1..]);
      assert LoadedAll(items)[1..] == LoadedAll(items[1..]);
      assert items == [items[0]] + items[1..];
      var again := DumpedAll(LoadedAll(items));
      assert again[0] == Dumped(Loaded(items[0])) && again[1..] == DumpedAll(LoadedAll(items[1..]));
    }
  }

  lemma {:induction false} FieldLoaded(f: Field)
    ensures Dumped(Loaded(f.value)) == f.value <==> KeysSorted(f.value)
    decreases f
  {
    DumpedLoaded(f.value);
  }

  function Again(fields: seq<Field>): (r: seq<Field>)
    ensures |r| == |fields|
  {
    DumpedMembers(LoadedMembers(fields))
  }

  lemma {:induction false} AgainCons(fields: seq<Field>)
    requires fields != []
    ensures Again(fields) == [Field(fields[0].key, Dumped(Loaded(fields[0].value)))] + Again(fields[1..])
  {
    assert LoadedMembers(fields)[1..] == LoadedMembers(fields[1..]);
  }

  lemma {:induction false} AgainKeys(fields: seq<Field>)
    ensures forall i :: 0 <= i < |fields| ==> fields[i].key == Again(fields)[i].key
  {
    if fields != [] {
      AgainCons(fields);
      AgainKeys(fields[1..]);
    }
  }

  lemma {:induction false} FieldsLoaded(fields: seq<Field>)
    ensures Again(fields) == fields <==> FieldsSorted(fields)
  {
    if fields != [] {
      FieldLoaded(fields[0]);
      FieldsLoaded(fields[1..]);
      AgainCons(fields);
      assert fields == [fields[0]] + fields[1..];
      assert Again(fields)[1..] == Again(fields[1..]);
    }
  }

  // A condition on the value itself.

  /** In every dict with number keys, the order of the keys is the order of their texts. */
  predicate Stable(j: Json) {
    match j
    case JList(items) => AllStable(items)
    case JObject(members) => MembersStable(members)
    case JNumberObject(entries) => EntriesStable(entries) && TextOrdered(entries)
    case _ => true
  }

  predicate AllStable(items: seq<Json>) {
    items == [] || (Stable(items[0]) && AllStable(items[1..]))
  }

  predicate MembersStable(members: seq<Member>) {
    members == [] || (Stable(members[0].value) && MembersStable(members[1..]))
  }

  predicate EntriesStable(entries: seq<NumberMember>) {
    entries == [] || (EntryStable(entries[0]) && EntriesStable(entries[1..]))
  }

  predicate EntryStable(e: NumberMember) {
    Stable(e.value)
  }

  predicate TextOrdered(entries: seq<NumberMember>) {
    forall i, k :: 0 <= i < |entries| && 0 <= k < |entries| && Measure(entries[i].key) < Measure(entries[k].key) ==>
      Sorting.TextLe(KeyText(entries[i].key), KeyText(entries[k].key))
  }

  /** No dict with number keys anywhere. */
  predicate TextKeyed(j: Json) {
    match j
    case JList(items) => AllTextKeyed(items)
    case JObject(members) => MembersTextKeyed(members)
    case JNumberObject(_) => false
    case _ => true
  }

  predicate AllTextKeyed(items: seq<Json>) {
    items == [] || (TextKeyed(items[0]) && AllTextKeyed(items[1..]))
  }

  predicate MembersTextKeyed(members: seq<Member>) {
    members == [] || (TextKeyed(members[0].value) && MembersTextKeyed(members[1..]))
  }

  lemma {:induction false} FieldsSortedMeans(fields: seq<Field>)
    ensures FieldsSorted(fields) <==> forall f :: f in fields ==> KeysSorted(f.value)
  {
    if fields != [] {
      FieldsSortedMeans(fields[1..]);
      assert fields == [fields[0]] + fields[1..];
    }
  }

  predicate NumberFieldsSorted(fields: seq<NumberField>) {
    forall f :: f in fields ==> KeysSorted(f.value)
  }

  lemma {:induction false} MembersDump(members: seq<Member>)
    ensures FieldsSorted(DumpedMembers(members)) <==> MembersStable(members)
  {
    if members != [] {
      MemberDumps(members[0]);
      MembersDump(members[1..]);
      var fields := DumpedMembers(members);
      assert fields[0].value == Dumped(members[0].value) && fields[1..] == DumpedMembers(members[1..]);
    }
  }

  lemma {:induction false} MemberDumps(m: Member)
    ensures KeysSorted(Dumped(m.value)) <==> Stable(m.value)
    decreases m
  {
    DumpSorted(m.value);
  }

  lemma {:induction false} EntryDumps(e: NumberMember)
    ensures KeysSorted(Dumped(e.value)) <==> EntryStable(e)
    decreases e
  {
    DumpSorted(e.value);
  }

  lemma {:induction false} EntriesDump(entries: seq<NumberMember>)
    ensures NumberFieldsSorted(DumpedEntries(entries)) <==> EntriesStable(entries)
    ensures forall i :: 0 <= i < |entries| ==> DumpedEntries(entries)[i].key == entries[i].key
  {
    if entries != [] {
      EntryDumps(entries[0]);
      EntriesDump(entries[1..]);
      var fields := DumpedEntries(entries);
      assert fields == [DumpedEntry(entries[0])] + DumpedEntries(entries[1..]);
    }
  }

  lemma {:induction false} ItemsDump(items: seq<Json>)
    ensures ItemsSorted(DumpedAll(items)) <==> AllStable(items)
  {
    if items != [] {
      DumpSorted(items[0]);
      ItemsDump(items[1..]);
      var docs := DumpedAll(items);
      assert docs[0] == Dumped(items[0]) && docs[1..] == DumpedAll(items[1..]);
    }
  }

  lemma {:induction false} SortedFields(fields: seq<Field>)
    ensures KeysSorted(DObject(Sorting.Sort(fields, KeyLe))) <==> FieldsSorted(fields)
  {
    KeyOrder();
    Sorting.SortCorrect(fields, KeyLe);
    forall f
      ensures f in Sorting.Sort(fields, KeyLe) <==> f in fields
    {
      Sorting.SortMembers(fields, KeyLe, f);
    }
    FieldsSortedMeans(fields);
    FieldsSortedMeans(Sorting.Sort(fields, KeyLe));
  }

  lemma {:induction false} KeyTextsSorted(fields: seq<NumberField>)
    ensures FieldsSorted(KeyTexts(fields)) <==> NumberFieldsSorted(fields)
  {
    FieldsSortedMeans(KeyTexts(fields));
    var texts := KeyTexts(fields);
    if NumberFieldsSorted(fields) {
      forall f | f in texts
        ensures KeysSorted(f.value)
      {
        var i :| 0 <= i < |texts| && texts[i] == f;
        assert fields[i] in fields;
      }
    }
    if FieldsSorted(texts) {
      forall f | f in fields
        ensures KeysSorted(f.value)
      {
        var i :| 0 <= i < |fields| && fields[i] == f;
        assert texts[i] in texts;
      }
    }
  }

  predicate FieldTextsOrdered(fields: seq<NumberField>) {
    forall a, b :: a in fields && b in fields && Measure(a.key) < Measure(b.key) ==>
      Sorting.TextLe(KeyText(a.key), KeyText(b.key))
  }

  lemma {:induction false} TextsInOrder(fields: seq<NumberField>)
    requires Sorting.SortedBy(fields, NumberKeyLe)
    ensures Sorting.SortedBy(KeyTexts(fields), KeyLe) <==> FieldTextsOrdered(fields)
  {
    var texts := KeyTexts(fields);
    if FieldTextsOrdered(fields) {
      forall i, k | 0 <= i < k < |texts|
        ensures KeyLe(texts[i], texts[k])
      {
        assert fields[i] in fields && fields[k] in fields && NumberKeyLe(fields[i], fields[k]);
        Sorting.TextLeTotal(KeyText(fields[i].key), KeyText(fields[i].key));
      }
    }
    if Sorting.SortedBy(texts, KeyLe) {
      forall a, b | a in fields && b in fields && Measure(a.key) < Measure(b.key)
        ensures Sorting.TextLe(KeyText(a.key), KeyText(b.key))
      {
        var i :| 0 <= i < |fields| && fields[i] == a;
        var k :| 0 <= k < |fields| && fields[k] == b;
        assert k < i ==> NumberKeyLe(fields[k], fields[i]);
        assert KeyLe(texts[i], texts[k]);
      }
    }
  }

  lemma {:induction false} EntryTextsOrdered(entries: seq<NumberMember>, fields: seq<NumberField>)
    requires |fields| == |entries| && forall i :: 0 <= i < |entries| ==> fields[i].key == entries[i].key
    ensures FieldTextsOrdered(fields) <==> TextOrdered(entries)
  {
    if TextOrdered(entries) {
      forall a, b | a in fields && b in fields && Measure(a.key) < Measure(b.key)
        ensures Sorting.TextLe(KeyText(a.key), KeyText(b.key))
      {
        var i :| 0 <= i < |fields| && fields[i] == a;
        var k :| 0 <= k < |fields| && fields[k] == b;
        assert Measure(entries[i].key) < Measure(entries[k].key);
      }
    }
    if FieldTextsOrdered(fields) {
      forall i, k | 0 <= i < |entries| && 0 <= k < |entries| && Measure(entries[i].key) < Measure(entries[k].key)
        ensures Sorting.TextLe(KeyText(entries[i].key), KeyText(entries[k].key))
      {
        assert fields[i] in fields && fields[k] in fields;
      }
    }
  }

  lemma {:induction false} NumberObjectSorted(fields: seq<NumberField>)
    ensures KeysSorted(DObject(KeyTexts(Sorting.Sort(fields, NumberKeyLe)))) <==>
      NumberFieldsSorted(fields) && FieldTextsOrdered(fields)
  {
    NumberKeyOrder();
    var sorted := Sorting.Sort(fields, NumberKeyLe);
    Sorting.SortCorrect(fields, NumberKeyLe);
    forall f
      ensures f in sorted <==> f in fields
    {
      Sorting.SortMembers(fields, NumberKeyLe, f);
    }
    TextsInOrder(sorted);
    KeyTextsSorted(sorted);
    assert FieldTextsOrdered(sorted) <==> FieldTextsOrdered(fields);
  }

  /** The document a value is dumped as has its keys sorted exactly when the value is stable. */
  lemma {:induction false} DumpSorted(j: Json)
    ensures KeysSorted(Dumped(j)) <==> Stable(j)
  {
    match j
    case JList(items) => ItemsDump(items);
    case JObject(members) =>
      MembersDump(members);
      SortedFields(DumpedMembers(members));
    case JNumberObject(entries) =>
      EntriesDump(entries);
      EntryTextsOrdered(entries, DumpedEntries(entries));
      NumberObjectSorted(DumpedEntries(entries));
    case _ =>
  }

  /** The canonical text of what is read back is the canonical text that was
      written exactly for stable values. */
  lemma {:induction false} RereadExactly(j: Json)
    ensures Canonical(Reread(j)) == Canonical(j) <==> Stable(j)
  {
    DumpSorted(j);
    DumpedLoaded(Dumped(j));
    WrittenInjective(Dumped(Reread(j)), Dumped(j));
  }

  /** Values whose dicts all have string keys are stable. */
  lemma {:induction false} TextKeyedIsStable(j: Json)
    requires TextKeyed(j)
    ensures Stable(j)
  {
    match j
    case JList(items) => AllTextKeyedStable(items);
    case JObject(members) => MembersTextKeyedStable(members);
    case _ =>
  }

  lemma {:induction false} AllTextKeyedStable(items: seq<Json>)
    requires AllTextKeyed(items)
    ensures AllStable(items)
  {
    if items != [] {
      TextKeyedIsStable(items[0]);
      AllTextKeyedStable(items[1..]);
    }
  }

  lemma {:induction false} MemberTextKeyedStable(m: Member)
    requires TextKeyed(m.value)
    ensures Stable(m.value)
    decreases m
  {
    TextKeyedIsStable(m.value);
  }

  lemma {:induction false} MembersTextKeyedStable(members: seq<Member>)
    requires MembersTextKeyed(members)
    ensures MembersStable(members)
  {
    if members != [] {
      MemberTextKeyedStable(members[0]);
      MembersTextKeyedStable(members[1..]);
    }
  }

  lemma {:induction false} NullsAgain(a: Field, b: Field)
    requires a.value == DNull && b.value == DNull
    ensures Again([a, b]) == [a, b]
  {
    assert [a, b][1..] == [b] && [b][1..] == [];
    AgainCons([a, b]);
    AgainCons([b]);
    assert Again([]) == [];
  }

  /** A dict of two number keys, both with the value null. */
  function TwoNulls(a: NumberKey, b: NumberKey): (r: Json) {
    JNumberObject([NumberMember(a, JNull), NumberMember(b, JNull)])
  }

  /** Any two number keys that compare one way and whose texts compare the other way
      change places once they were read back. */
  lemma {:induction false} TwoKeysTurn(a: NumberKey, b: NumberKey)
    requires Measure(a) < Measure(b) && !Sorting.TextLe(KeyText(a), KeyText(b))
    ensures Dumped(TwoNulls(a, b)) == DObject([Field(KeyText(a), DNull), Field(KeyText(b), DNull)])
    ensures Dumped(Reread(TwoNulls(a, b))) == DObject([Field(KeyText(b), DNull), Field(KeyText(a), DNull)])
    ensures !Stable(TwoNulls(a, b))
  {
    var m, n, entries := NumberField(a, DNull), NumberField(b, DNull), TwoNulls(a, b).entries;
    assert entries[1..] == [NumberMember(b, JNull)] && entries[1..][1..] == [];
    assert DumpedEntries(entries[1..][1..]) == [];
    assert DumpedEntry(NumberMember(a, JNull)) == m && DumpedEntry(NumberMember(b, JNull)) == n;
    assert DumpedEntries(entries[1..]) == [n] && DumpedEntries(entries) == [m, n];
    Sorting.SortPair(m, n, NumberKeyLe);
    assert [m, n][1..] == [n] && [n][1..] == [];
    var f, g := Field(KeyText(a), DNull), Field(KeyText(b), DNull);
    assert KeyTexts([m, n]) == [f, g];
    NullsAgain(f, g);
    Sorting.SortPair(f, g, KeyLe);
    DumpSorted(TwoNulls(a, b));
    DumpedLoaded(Dumped(TwoNulls(a, b)));
  }

  /** The dict {9: null, 10: null}. */
  const NINE_TEN := TwoNulls(IntKey(9), IntKey(10))

  /** It is written with 9 first, and with "10" first once it was read back. */
  lemma {:induction false} NineTenTurns()
    ensures Dumped(NINE_TEN) == DObject([Field("9", DNull), Field("10", DNull)])
    ensures Dumped(Reread(NINE_TEN)) == DObject([Field("10", DNull), Field("9", DNull)])
    ensures !Stable(NINE_TEN)
  {
    assert IntText(9) == "9" && IntText(10) == "10" by {
      assert NatText(10) == NatText(1) + ['0'];
    }
    assert "9"[0] > "10"[0];
    TwoKeysTurn(IntKey(9), IntKey(10));
  }
}
