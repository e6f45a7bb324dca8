/** JSON values with string keys in insertion order, and the length of their compact text. */
module Json {
  import opened Options

  /** `text` is the literal a number is printed as. */
  datatype Json =
    | Null
    | Bool(b: bool)
    | Number(text: string)
    | Str(s: string)
    | Arr(items: seq<Json>)
    | Obj(fields: seq<Field>)

  datatype Field = Field(key: string, value: Json)

  predicate IsScalar(v: Json) {
    !v.Arr? && !v.Obj?
  }

  /** `d.get(key)` */
  function Get(fields: seq<Field>, key: string): Option<Json> {
    if fields == [] then None
    else if fields[0].key == key then Some(fields[0].value) else Get(fields[1..], key)
  }

  /** A lookup answers the value of the first field of that key. */
  lemma {:induction false} GetExactly(fields: seq<Field>, key: string)
    ensures Get(fields, key).None? <==> forall f | f in fields :: f.key != key
    ensures forall i | 0 <= i < |fields| && fields[i].key == key && (forall j | 0 <= j < i :: fields[j].key != key) ::
              Get(fields, key) == Some(fields[i].value)
  {
    if fields != [] {
      var rest := fields[1..];
      GetExactly(rest, key);
      assert fields == [fields[0]] + rest;
      forall i | 0 <= i < |fields| && fields[i].key == key && (forall j | 0 <= j < i :: fields[j].key != key)
        ensures Get(fields, key) == Some(fields[i].value)
      {
        if i > 0 {
          assert fields[0].key != key;
          forall j | 0 <= j < i - 1 ensures rest[j].key != key { assert rest[j] == fields[j + 1]; }
          assert rest[i - 1] == fields[i];
        }
      }
    }
  }

  function Delete(fields: seq<Field>, key: string): (r: seq<Field>)
    ensures |r| <= |fields|
  {
    if fields == [] then []
    else (if fields[0].key == key then [] else [fields[0]]) + Delete(fields[1..], key)
  }

  /** `d[key] = value` for a key that is present; it keeps its place. */
  function Set(fields: seq<Field>, key: string, value: Json): seq<Field> {
    if fields == [] then []
    else if fields[0].key == key then [Field(key, value)] + Delete(fields[1..], key)
    else [fields[0]] + Set(fields[1..], key, value)
  }

  lemma {:induction false} GetAfterDelete(fields: seq<Field>, key: string, other: string)
    ensures Get(Delete(fields, key), other) == if other == key then None else Get(fields, other)
  {
    if fields != [] {
      GetAfterDelete(fields[1..], key, other);
      if fields[0].key == key {
        assert Delete(fields, key) == Delete(fields[1..], key);
      } else {
        assert Delete(fields, key)[1..] == Delete(fields[1..], key);
      }
    }
  }

  lemma {:induction false} GetAfterSet(fields: seq<Field>, key: string, value: Json, other: string)
    ensures Get(Set(fields, key, value), other)
         == if other == key && Get(fields, key).Some? then Some(value) else Get(fields, other)
  {
    if fields != [] {
      if fields[0].key == key {
        GetAfterDelete(fields[1..], key, other);
        assert Set(fields, key, value)[1..] == Delete(fields[1..], key);
      } else {
        GetAfterSet(fields[1..], key, value, other);
        assert Set(fields, key, value)[1..] == Set(fields[1..], key, value);
      }
    }
  }

  // -------------------------------------------------------------------------
  // len(json.dumps(value, separators=(",", ":")))
  // -------------------------------------------------------------------------

  /** How many characters one character takes inside an ASCII-only JSON string. */
  function EscapedLength(c: char): nat {
    if c in ['"', '\\', '\n', '\r', '\t', '\U{0008}', '\U{000C}'] then 2
    else if ' ' <= c <= '~' then 1
    else if c as int < 0x10000 then 6
    else 12
  }

  function StringSize(s: string): nat {
    2 + EscapedSize(s)
  }

  function EscapedSize(s: string): nat {
    if s == [] then 0 else EscapedLength(s[0]) + EscapedSize(s[1..])
  }

  function Size(v: Json): (n: nat)
    decreases v, 1
  {
    match v
    case Null => 4
    case Bool(b) => if b then 4 else 5
    case Number(text) => |text|
    case Str(s) => StringSize(s)
    case Arr(items) => if items == [] then 2 else 1 + ItemsSize(items)
    case Obj(fields) => if fields == [] then 2 else 1 + FieldsSize(fields)
  }

  /** Every item with the comma or bracket that follows it. */
  function ItemsSize(items: seq<Json>): nat
    decreases items, 0
  {
    if items == [] then 0 else Size(items[0]) + 1 + ItemsSize(items[1..])
  }

  /** Every `"key":value` with the comma or brace that follows it. */
  function FieldsSize(fields: seq<Field>): nat
    decreases fields, 0
  {
    if fields == [] then 0
    else StringSize(fields[0].key) + 1 + Size(fields[0].value) + 1 + FieldsSize(fields[1..])
  }

  // -------------------------------------------------------------------------
  // The text itself
  // -------------------------------------------------------------------------

  function HexDigit(d: nat): char
    requires d < 16
  {
    if d < 10 then ('0' as int + d) as char else ('a' as int + d - 10) as char
  }

  function Unicode(unit: nat): (s: string)
    requires unit < 0x10000
    ensures |s| == 6
  {
    ['\\', 'u', HexDigit(unit / 0x1000), HexDigit(unit / 0x100 % 0x10), HexDigit(unit / 0x10 % 0x10),
     HexDigit(unit % 0x10)]
  }

  /** One character of a JSON string in ASCII; beyond the basic plane as a surrogate pair. */
  function Escaped(c: char): (s: string)
    ensures |s| == EscapedLength(c)
  {
    if c == '"' then "\\\"" else if c == '\\' then "\\\\"
    else if c == '\n' then "\\n" else if c == '\r' then "\\r" else if c == '\t' then "\\t"
    else if c == '\U{0008}' then "\\b" else if c == '\U{000C}' then "\\f"
    else if ' ' <= c <= '~' then [c]
    else if c as int < 0x10000 then Unicode(c as int)
    else Unicode(0xD800 + (c as int - 0x10000) / 0x400) + Unicode(0xDC00 + (c as int - 0x10000) % 0x400)
  }

  function EscapedAll(s: string): string {
    if s == [] then [] else Escaped(s[0]) + EscapedAll(s[1..])
  }

  // -------------------------------------------------------------------------
  // Reading a JSON string back
  // -------------------------------------------------------------------------

  function HexValue(c: char): Option<nat> {
    if '0' <= c <= '9' then Some(c as int - '0' as int)
    else if 'a' <= c <= 'f' then Some(c as int - 'a' as int + 10)
    else None
  }

  /** A `\\u` escape at the front of a text. */
  function ReadUnit(t: string): Option<nat> {
    if |t| < 6 || t[0] != '\\' || t[1] != 'u' then None
    else
      var a, b, c, d := HexValue(t[2]), HexValue(t[3]), HexValue(t[4]), HexValue(t[5]);
      if a.None? || b.None? || c.None? || d.None? then None
      else Some(0x1000 * a.value + 0x100 * b.value + 0x10 * c.value + d.value)
  }

  function Simple(c: char): Option<char> {
    match c
    case '"' => Some('"')
    case '\\' => Some('\\')
    case 'n' => Some('\n')
    case 'r' => Some('\r')
    case 't' => Some('\t')
    case 'b' => Some('\U{0008}')
    case 'f' => Some('\U{000C}')
    case _ => None
  }

  /** The character at the front of the inside of a JSON string (section 7 of RFC 8259), and
      how much text spells it. */
  function ReadChar(t: string): Option<(char, nat)> {
    if t == [] || t[0] == '"' then None
    else if t[0] != '\\' then Some((t[0], 1))
    else if |t| > 1 && Simple(t[1]).Some? then Some((Simple(t[1]).value, 2))
    else
      var unit := ReadUnit(t);
      if unit.None? || 0xDC00 <= unit.value < 0xE000 || unit.value >= 0x10000 then None
      else if unit.value < 0xD800 || unit.value >= 0xE000 then Some((unit.value as char, 6))
      else
        var low := ReadUnit(t[6..]);
        if low.None? || !(0xDC00 <= low.value < 0xE000) then None
        else Some(((0x10000 + (unit.value - 0xD800) * 0x400 + (low.value - 0xDC00)) as char, 12))
  }

  function ReadAll(t: string): Option<string>
    decreases |t|
  {
    if t == [] then Some([])
    else
      var first := ReadChar(t);
      if first.None? || !(0 < first.value.1 <= |t|) then None
      else
        var rest := ReadAll(t[first.value.1..]);
        if rest.None? then None else Some([first.value.0] + rest.value)
  }

  lemma {:induction false} ReadsDigit(d: nat)
    requires d < 16
    ensures HexValue(HexDigit(d)) == Some(d)
  {
  }

  lemma {:induction false} NestedBytes(n: nat)
    ensures n / 0x100 == n / 0x10 / 0x10
  {
    var q := n / 0x10;
    assert n == 0x10 * q + n % 0x10 && q == 0x10 * (q / 0x10) + q % 0x10;
  }

  lemma {:induction false} NestedWords(n: nat)
    ensures n / 0x1000 == n / 0x100 / 0x10
  {
    var q := n / 0x100;
    assert n == 0x100 * q + n % 0x100 && q == 0x10 * (q / 0x10) + q % 0x10;
  }

  lemma {:induction false} HexParts(unit: nat)
    requires unit < 0x10000
    ensures unit / 0x1000 < 0x10
    ensures 0x1000 * (unit / 0x1000) + 0x100 * (unit / 0x100 % 0x10) + 0x10 * (unit / 0x10 % 0x10) + unit % 0x10
         == unit
  {
    NestedBytes(unit);
    NestedWords(unit);
    var a, b := unit / 0x10, unit / 0x100;
    assert unit == 0x10 * a + unit % 0x10 && a == 0x10 * b + a % 0x10 && b == 0x10 * (b / 0x10) + b % 0x10;
  }

  lemma {:induction false} ReadsUnit(unit: nat, rest: string)
    requires unit < 0x10000
    ensures ReadUnit(Unicode(unit) + rest) == Some(unit)
  {
    HexParts(unit);
    var a, b, c, d := unit / 0x1000, unit / 0x100 % 0x10, unit / 0x10 % 0x10, unit % 0x10;
    FourDigits(a, b, c, d, rest);
  }

  lemma {:induction false} FourDigits(a: nat, b: nat, c: nat, d: nat, rest: string)
    requires a < 0x10 && b < 0x10 && c < 0x10 && d < 0x10
    ensures ReadUnit(['\\', 'u', HexDigit(a), HexDigit(b), HexDigit(c), HexDigit(d)] + rest)
         == Some(0x1000 * a + 0x100 * b + 0x10 * c + d)
  {
    ReadsDigit(a);
    ReadsDigit(b);
    ReadsDigit(c);
    ReadsDigit(d);
  }

  lemma {:induction false} ReadsChar(c: char, rest: string)
    ensures ReadChar(Escaped(c) + rest) == Some((c, EscapedLength(c)))
  {
    var t := Escaped(c) + rest;
    if c in ['"', '\\', '\n', '\r', '\t', '\U{0008}', '\U{000C}'] {
      assert t[0] == '\\' && Simple(t[1]) == Some(c);
    } else if ' ' <= c <= '~' {
      assert t[0] == c;
    } else if c as int < 0x10000 {
      ReadsUnit(c as int, rest);
      assert t[0] == '\\' && t[1] == 'u';
    } else {
      ReadsPair(c, rest);
    }
  }

  lemma {:induction false} ReadsPair(c: char, rest: string)
    requires c as int >= 0x10000
    ensures ReadChar(Escaped(c) + rest) == Some((c, 12))
  {
    var n := c as int - 0x10000;
    var high, low := 0xD800 + n / 0x400, 0xDC00 + n % 0x400;
    var t := Escaped(c) + rest;
    assert t == Unicode(high) + (Unicode(low) + rest);
    ReadsUnit(high, Unicode(low) + rest);
    assert t[6..] == Unicode(low) + rest;
    ReadsUnit(low, rest);
    assert t[0] == '\\' && t[1] == 'u';
  }

  /** The text of a string reads back as that string. */
  lemma {:induction false} StringReadsBack(s: string)
    ensures ReadAll(EscapedAll(s)) == Some(s)
  {
    if s != [] {
      var t := EscapedAll(s);
      ReadsChar(s[0], EscapedAll(s[1..]));
      StringReadsBack(s[1..]);
      assert t[EscapedLength(s[0])..] == EscapedAll(s[1..]);
      assert [s[0]] + s[1..] == s;
    }
  }

  function Quoted(s: string): string {
    "\"" + EscapedAll(s) + "\""
  }

  /** `json.dumps(v, separators=(",", ":"))` */
  function Text(v: Json): string
    decreases v, 1
  {
    match v
    case Null => "null"
    case Bool(b) => if b then "true" else "false"
    case Number(text) => text
    case Str(s) => Quoted(s)
    case Arr(items) => "[" + Joined(ItemTexts(items)) + "]"
    case Obj(fields) => "{" + Joined(FieldTexts(fields)) + "}"
  }

  function ItemTexts(items: seq<Json>): (r: seq<string>)
    ensures |r| == |items|
    decreases items, 0
  {
    if items == [] then [] else [Text(items[0])] + ItemTexts(items[1..])
  }

  function FieldTexts(fields: seq<Field>): (r: seq<string>)
    ensures |r| == |fields|
    decreases fields, 0
  {
    if fields == [] then []
    else [Quoted(fields[0].key) + ":" + Text(fields[0].value)] + FieldTexts(fields[1..])
  }

  /** `",".join(parts)` */
  function Joined(parts: seq<string>): string {
    if parts == [] then "" else if |parts| == 1 then parts[0] else parts[0] + "," + Joined(parts[1..])
  }

  lemma {:induction false} QuotedLength(s: string)
    ensures |EscapedAll(s)| == EscapedSize(s)
  {
    if s != [] { QuotedLength(s[1..]); }
  }

  /** The size is the length of the compact text. */
  lemma {:induction false} SizeIsTextLength(v: Json)
    ensures Size(v) == |Text(v)|
    decreases v, 1
  {
    match v
    case Str(s) => QuotedLength(s);
    case Arr(items) => ItemsTextLength(items);
    case Obj(fields) => FieldsTextLength(fields);
    case _ =>
  }

  lemma {:induction false} ItemsTextLength(items: seq<Json>)
    ensures items != [] ==> ItemsSize(items) == |Joined(ItemTexts(items))| + 1
    decreases items, 0
  {
    if items != [] {
      SizeIsTextLength(items[0]);
      ItemsTextLength(items[1..]);
      assert ItemTexts(items)[1..] == ItemTexts(items[1..]);
    }
  }

  lemma {:induction false} FieldsTextLength(fields: seq<Field>)
    ensures fields != [] ==> FieldsSize(fields) == |Joined(FieldTexts(fields))| + 1
    decreases fields, 0
  {
    if fields != [] {
      QuotedLength(fields[0].key);
      SizeIsTextLength(fields[0].value);
      FieldsTextLength(fields[1..]);
      assert FieldTexts(fields)[1..] == FieldTexts(fields[1..]);
    }
  }

  lemma {:induction false} DeleteShrinks(fields: seq<Field>, key: string)
    ensures FieldsSize(Delete(fields, key)) <= FieldsSize(fields)
    ensures Get(fields, key).Some? ==> FieldsSize(Delete(fields, key)) + 4 <= FieldsSize(fields)
  {
    if fields != [] {
      DeleteShrinks(fields[1..], key);
      if fields[0].key == key {
        assert Delete(fields, key) == Delete(fields[1..], key);
      } else {
        assert Delete(fields, key)[1..] == Delete(fields[1..], key);
      }
    }
  }

  lemma {:induction false} SetShrinks(fields: seq<Field>, key: string, value: Json)
    requires Get(fields, key).Some? && Size(value) < Size(Get(fields, key).value)
    ensures FieldsSize(Set(fields, key, value)) < FieldsSize(fields)
  {
    if fields[0].key == key {
      DeleteShrinks(fields[1..], key);
      assert Set(fields, key, value)[1..] == Delete(fields[1..], key);
    } else {
      SetShrinks(fields[1..], key, value);
      assert Set(fields, key, value)[1..] == Set(fields[1..], key, value);
    }
  }
}
