/** JSON values, their compact printing, and a parser as a function from the
    text ahead to a value and the text left. */
module JsonSpec {
  import opened Wrappers
  import opened Orders

  datatype Json =
    | Null
    | Bool(b: bool)
    | Num(lexeme: string)
    | Str(s: string)
    | Arr(items: seq<Json>)
    | Obj(fields: map<string, Json>)

  /* ---------- Printing ---------- */

  function HexDigit(d: int): char
    requires 0 <= d < 16
  {
    if d < 10 then '0' + d as char else 'a' + (d - 10) as char
  }

  /** The escape of one character. */
  function Escape(c: char): string {
    if c == '"' then "\\\""
    else if c == '\\' then "\\\\"
    else if c == '\n' then "\\n"
    else if c == '\r' then "\\r"
    else if c == '\t' then "\\t"
    else if c < ' ' then "\\u00" + [HexDigit(c as int / 16), HexDigit(c as int % 16)]
    else [c]
  }

  function Escaped(s: string): string {
    if s == [] then [] else Escape(s[0]) + Escaped(s[1..])
  }

  function Quoted(s: string): string { "\"" + Escaped(s) + "\"" }

  function Breadth(v: Json): nat { if v.Arr? then |v.items| else if v.Obj? then |v.fields| else 0 }

  function Keys(v: Json): (keys: seq<string>)
    requires v.Obj?
    ensures Ascending(StringLess, keys) && |keys| == |v.fields| && forall k :: k in keys <==> k in v.fields
  {
    StringOrder();
    assert |v.fields.Keys| == |v.fields|;
    Sorted(StringLess, v.fields.Keys)
  }

  /** No whitespace; fields in ascending key order. */
  function Text(v: Json): string
    decreases v, Breadth(v) + 1
  {
    match v
    case Null => "null"
    case Bool(b) => if b then "true" else "false"
    case Num(lexeme) => lexeme
    case Str(s) => Quoted(s)
    case Arr(items) => "[" + (if items == [] then "" else ItemsText(v, 0)) + "]"
    case Obj(fields) => "{" + (if fields == map[] then "" else FieldsText(v, Keys(v), 0)) + "}"
  }

  /** The items from the `i`-th on. */
  function ItemsText(v: Json, i: nat): string
    requires v.Arr? && i < |v.items|
    decreases v, |v.items| - i
  {
    Text(v.items[i]) + if i + 1 < |v.items| then "," + ItemsText(v, i + 1) else ""
  }

  /** The fields under the keys from the `i`-th on. */
  function FieldsText(v: Json, keys: seq<string>, i: nat): string
    requires v.Obj? && i < |keys| == |v.fields| && forall k | k in keys :: k in v.fields
    decreases v, |keys| - i
  {
    Quoted(keys[i]) + ":" + Text(v.fields[keys[i]]) + if i + 1 < |keys| then "," + FieldsText(v, keys, i + 1) else ""
  }

  /* ---------- Parsing ---------- */

  /** Why reading stops: the text is malformed, or the second unit of a
      surrogate pair is too low for the source's subtraction, which panics. */
  datatype Fault = Malformed | Underflow

  /** A value read off the front of a text, and what is left. */
  datatype Reading<+T> = Got(value: T, rest: string) | Fail(fault: Fault)

  predicate IsWs(c: char) { c == ' ' || c == '\t' || c == '\n' || c == '\r' }

  function SkipWs(s: string): (rest: string)
    ensures |rest| <= |s|
  {
    if s != [] && IsWs(s[0]) then SkipWs(s[1..]) else s
  }

  predicate IsDigit(c: char) { '0' <= c <= '9' }

  predicate InNumber(c: char) { IsDigit(c) || c == '-' || c == '+' || c == '.' || c == 'e' || c == 'E' }

  function NumberLength(s: string): (n: nat)
    ensures n <= |s|
  {
    if s != [] && InNumber(s[0]) then 1 + NumberLength(s[1..]) else 0
  }

  function HexValue(c: char): Option<nat> {
    if IsDigit(c) then Some((c - '0') as int)
    else if 'a' <= c <= 'f' then Some((c - 'a') as int + 10)
    else if 'A' <= c <= 'F' then Some((c - 'A') as int + 10)
    else None
  }

  /** A number in base 16, as Rust reads it. */
  function Radix16(s: string): (r: Option<nat>) {
    if s == [] then Some(0)
    else
      match (Radix16(s[..|s| - 1]), HexValue(s[|s| - 1]))
      case (Some(hi), Some(lo)) => Some(hi * 16 + lo)
      case _ => None
  }

  /** Four characters in base 16; Rust also takes a leading plus sign. */
  function Hex4(s: string): (r: Reading<nat>)
    ensures r.Got? ==> |s| >= 4 && r.rest == s[4..]
  {
    if |s| < 4 then Fail(Malformed)
    else
      match Radix16(if s[0] == '+' then s[1..4] else s[..4])
      case None => Fail(Malformed)
      case Some(n) => Got(n, s[4..])
  }

  function OrMalformed<T>(o: Option<T>): Result<T, Fault> { if o.Some? then Ok(o.value) else Err(Malformed) }

  /** The scalar value with a code, None for surrogates and past the last. */
  function FromCode(n: nat): Option<char> {
    if n < 0xD800 || 0xE000 <= n < 0x11_0000 then Some(n as char) else None
  }

  /** What follows `\u`: one code unit, or a high surrogate and a second escape. */
  function UnicodeEscape(s: string): (r: Reading<char>)
    ensures r.Got? ==> |r.rest| < |s|
  {
    match Hex4(s)
    case Fail(f) => Fail(f)
    case Got(hi, rest) =>
      if 0xD800 <= hi <= 0xDBFF then
        if |rest| < 2 || rest[0] != '\\' || rest[1] != 'u' then Fail(Malformed)
        else
          match Hex4(rest[2..])
          case Fail(f) => Fail(f)
          case Got(lo, rest2) =>
            if lo < 0xDC00 then Fail(Underflow)
            else
              match FromCode(0x10000 + (hi - 0xD800) * 0x400 + (lo - 0xDC00))
              case None => Fail(Malformed)
              case Some(c) => Got(c, rest2)
      else
        match FromCode(hi)
        case None => Fail(Malformed)
        case Some(c) => Got(c, rest)
  }

  function SimpleEscape(e: char): Option<char> {
    if e == '"' then Some('"')
    else if e == '\\' then Some('\\')
    else if e == '/' then Some('/')
    else if e == 'n' then Some('\n')
    else if e == 'r' then Some('\r')
    else if e == 't' then Some('\t')
    else if e == 'b' then Some('\U{0008}')
    else if e == 'f' then Some('\U{000C}')
    else None
  }

  /** One character of a string, escaped or not. */
  function CharOf(s: string): (r: Reading<char>)
    requires s != []
    ensures r.Got? ==> |r.rest| < |s|
  {
    if s[0] != '\\' then Got(s[0], s[1..])
    else if |s| < 2 then Fail(Malformed)
    else if s[1] == 'u' then UnicodeEscape(s[2..])
    else if SimpleEscape(s[1]).Some? then Got(SimpleEscape(s[1]).value, s[2..])
    else Fail(Malformed)
  }

  /** A string whose opening quote has been read, after `out` of it. */
  function StringOf(s: string, out: string): (r: Reading<string>)
    ensures r.Got? ==> |r.rest| < |s|
    decreases |s|
  {
    if s == [] then Fail(Malformed)
    else if s[0] == '"' then Got(out, s[1..])
    else
      match CharOf(s)
      case Fail(f) => Fail(f)
      case Got(c, rest) => StringOf(rest, out + [c])
  }

  function LiteralOf(s: string, literal: string, v: Json): Reading<Json> {
    if literal <= s then Got(v, s[|literal|..]) else Fail(Malformed)
  }

  function ValueOf(s: string): (r: Reading<Json>)
    ensures r.Got? ==> |r.rest| < |s|
    decreases |s|, 1
  {
    var t := SkipWs(s);
    if t == [] then Fail(Malformed)
    else if t[0] == '{' then
      match FieldsStart(t[1..]) case Fail(f) => Fail(f) case Got(m, rest) => Got(Obj(m), rest)
    else if t[0] == '[' then
      match ItemsStart(t[1..]) case Fail(f) => Fail(f) case Got(a, rest) => Got(Arr(a), rest)
    else if t[0] == '"' then
      match StringOf(t[1..], "") case Fail(f) => Fail(f) case Got(x, rest) => Got(Str(x), rest)
    else if t[0] == 't' then LiteralOf(t, "true", Bool(true))
    else if t[0] == 'f' then LiteralOf(t, "false", Bool(false))
    else if t[0] == 'n' then LiteralOf(t, "null", Null)
    else if t[0] == '-' || IsDigit(t[0]) then Got(Num(t[..NumberLength(t)]), t[NumberLength(t)..])
    else Fail(Malformed)
  }

  /** An array whose opening bracket has been read. */
  function ItemsStart(s: string): (r: Reading<seq<Json>>)
    ensures r.Got? ==> |r.rest| < |s|
    decreases |s|, 3
  {
    var t := SkipWs(s);
    if t != [] && t[0] == ']' then Got([], t[1..]) else ItemsOf(t, [])
  }

  /** Its items, after `out` of them. */
  function ItemsOf(s: string, out: seq<Json>): (r: Reading<seq<Json>>)
    ensures r.Got? ==> |r.rest| < |s|
    decreases |s|, 2
  {
    match ValueOf(s)
    case Fail(f) => Fail(f)
    case Got(v, rest) =>
      var t := SkipWs(rest);
      if t == [] then Fail(Malformed)
      else if t[0] == ',' then ItemsOf(t[1..], out + [v])
      else if t[0] == ']' then Got(out + [v], t[1..])
      else Fail(Malformed)
  }

  /** An object whose opening brace has been read. */
  function FieldsStart(s: string): (r: Reading<map<string, Json>>)
    ensures r.Got? ==> |r.rest| < |s|
    decreases |s|, 3
  {
    var t := SkipWs(s);
    if t != [] && t[0] == '}' then Got(map[], t[1..]) else FieldsOf(t, map[])
  }

  /** Its fields, after those of `out`: a later one replaces an earlier. */
  function FieldsOf(s: string, out: map<string, Json>): (r: Reading<map<string, Json>>)
    ensures r.Got? ==> |r.rest| < |s|
    decreases |s|, 2
  {
    match FieldOf(s)
    case Fail(f) => Fail(f)
    case Got((key, v), rest) =>
      var t := SkipWs(rest);
      if t == [] then Fail(Malformed)
      else if t[0] == ',' then FieldsOf(t[1..], out[key := v])
      else if t[0] == '}' then Got(out[key := v], t[1..])
      else Fail(Malformed)
  }

  function FieldOf(s: string): (r: Reading<(string, Json)>)
    ensures r.Got? ==> |r.rest| < |s|
    decreases |s|, 1
  {
    var t := SkipWs(s);
    if t == [] || t[0] != '"' then Fail(Malformed)
    else
      match StringOf(t[1..], "")
      case Fail(f) => Fail(f)
      case Got(key, rest) =>
        var t2 := SkipWs(rest);
        if t2 == [] || t2[0] != ':' then Fail(Malformed)
        else
          match ValueOf(t2[1..])
          case Fail(f) => Fail(f)
          case Got(v, rest2) => Got((key, v), rest2)
  }

  /** A whole document. */
  function Parse(text: string): Result<Json, Fault> {
    match ValueOf(SkipWs(text))
    case Fail(f) => Err(f)
    case Got(v, rest) => if SkipWs(rest) == [] then Ok(v) else Err(Malformed)
  }
}
