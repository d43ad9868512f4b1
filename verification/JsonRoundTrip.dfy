/** Printing then parsing gives the value back, exactly when its numbers are
    lexemes. */
module JsonRoundTrip {
  import opened Wrappers
  import opened Orders
  import opened JsonSpec

  /** A number text the parser reads as one number. */
  predicate IsLexeme(s: string) {
    s != [] && (s[0] == '-' || IsDigit(s[0])) && forall i | 0 <= i < |s| :: InNumber(s[i])
  }

  predicate Lexemes(v: Json) {
    match v
    case Num(lexeme) => IsLexeme(lexeme)
    case Arr(items) => forall i | 0 <= i < |items| :: Lexemes(items[i])
    case Obj(fields) => forall k | k in fields :: Lexemes(fields[k])
    case _ => true
  }

  /* ---------- Reading one character ahead ---------- */

  lemma Cons(c: char, t: string)
    ensures |[c] + t| > 0 && ([c] + t)[0] == c && ([c] + t)[1..] == t
    ensures !IsWs(c) ==> SkipWs([c] + t) == [c] + t
  {
  }

  lemma Append(a: string, b: string, c: string)
    ensures a + b + c == a + (b + c)
  {
  }

  lemma ValueAtBracket(t: string)
    ensures ValueOf("[" + t) == match ItemsStart(t) case Fail(f) => Fail(f) case Got(a, r) => Got(Arr(a), r)
  {
    Cons('[', t);
    hide ItemsStart, SkipWs;
  }

  lemma ValueAtBrace(t: string)
    ensures ValueOf("{" + t) == match FieldsStart(t) case Fail(f) => Fail(f) case Got(m, r) => Got(Obj(m), r)
  {
    Cons('{', t);
    hide FieldsStart, SkipWs;
  }

  lemma ValueAtQuote(t: string)
    ensures ValueOf("\"" + t) == match StringOf(t, "") case Fail(f) => Fail(f) case Got(x, r) => Got(Str(x), r)
  {
    Cons('"', t);
    hide StringOf, SkipWs;
  }

  /** After an item, a comma goes on and a bracket ends. */
  lemma ItemsAt(s: string, out: seq<Json>, v: Json, c: char, t: string)
    requires ValueOf(s) == Got(v, [c] + t) && (c == ',' || c == ']')
    ensures ItemsOf(s, out) == if c == ',' then ItemsOf(t, out + [v]) else Got(out + [v], t)
  {
    Cons(c, t);
    hide ValueOf, SkipWs;
  }

  lemma FieldsAt(s: string, out: map<string, Json>, key: string, v: Json, c: char, t: string)
    requires FieldOf(s) == Got((key, v), [c] + t) && (c == ',' || c == '}')
    ensures FieldsOf(s, out) == if c == ',' then FieldsOf(t, out[key := v]) else Got(out[key := v], t)
  {
    Cons(c, t);
    hide FieldOf, SkipWs;
  }

  lemma FieldAt(t: string, key: string, u: string, v: Json, rest: string)
    requires StringOf(t, "") == Got(key, ":" + u) && ValueOf(u) == Got(v, rest)
    ensures FieldOf("\"" + t) == Got((key, v), rest)
  {
    Cons('"', t);
    Cons(':', u);
    hide StringOf, ValueOf, SkipWs;
  }

  /* ---------- Strings ---------- */

  lemma HexDigitValue(d: int)
    requires 0 <= d < 16
    ensures HexValue(HexDigit(d)) == Some(d) && HexDigit(d) != '+'
  {
  }

  /** The code of a control character is read back. */
  lemma ControlCode(c: char, rest: string)
    requires c < ' '
    ensures UnicodeEscape("00" + [HexDigit(c as int / 16), HexDigit(c as int % 16)] + rest) == Got(c, rest)
  {
    var hi, lo := c as int / 16, c as int % 16;
    HexDigitValue(hi);
    HexDigitValue(lo);
    var code := "00" + [HexDigit(hi), HexDigit(lo)];
    assert (code + rest)[..4] == code && (code + rest)[4..] == rest;
    assert code[..3] == ['0', '0', HexDigit(hi)] && code[..3][..2] == ['0', '0'] && code[..3][..2][..1] == ['0'];
    assert code[..3][..2][..1][..0] == [];
    assert Radix16(['0']) == Some(0);
    assert Radix16(['0', '0']) == Some(0);
    assert Radix16(code[..3]) == Some(hi);
    assert Radix16(code) == Some(c as int);
  }

  /** An escaped character is read back as itself, and is never a bare quote. */
  lemma EscapeRead(c: char, rest: string)
    ensures Escape(c) != [] && Escape(c)[0] != '"' && CharOf(Escape(c) + rest) == Got(c, rest)
  {
    var s := Escape(c) + rest;
    if c in {'"', '\\', '\n', '\r', '\t'} {
      assert s[2..] == rest;
    } else if c < ' ' {
      ControlCode(c, rest);
      assert s[2..] == "00" + [HexDigit(c as int / 16), HexDigit(c as int % 16)] + rest;
    } else {
      assert s[1..] == rest;
    }
  }

  lemma StringAt(s: string, c: char, rest: string, out: string)
    requires s != [] && s[0] != '"' && CharOf(s) == Got(c, rest)
    ensures StringOf(s, out) == StringOf(rest, out + [c])
  {
    hide CharOf;
  }

  lemma {:induction false} StringRead(s: string, out: string, rest: string)
    ensures StringOf(Escaped(s) + ("\"" + rest), out) == Got(out + s, rest)
    decreases |s|
  {
    if s == [] {
      Cons('"', rest);
      assert Escaped(s) + ("\"" + rest) == "\"" + rest && out + s == out;
    } else {
      var more := Escaped(s[1..]) + ("\"" + rest);
      EscapeRead(s[0], more);
      hide Escape, CharOf, StringOf;
      Append(Escape(s[0]), Escaped(s[1..]), "\"" + rest);
      StringAt(Escape(s[0]) + more, s[0], more, out);
      StringRead(s[1..], out + [s[0]], rest);
      assert out + [s[0]] + s[1..] == out + s;
    }
  }

  /* ---------- Numbers and literals ---------- */

  predicate Delimited(rest: string) { rest == [] || !InNumber(rest[0]) }

  lemma {:induction false} NumberRead(s: string, rest: string)
    requires (forall i | 0 <= i < |s| :: InNumber(s[i])) && Delimited(rest)
    ensures NumberLength(s + rest) == |s|
    decreases |s|
  {
    if s == [] {
      assert s + rest == rest;
    } else {
      NumberRead(s[1..], rest);
      assert (s + rest)[1..] == s[1..] + rest;
    }
  }

  /** A printed value starts with none of the characters the parser skips or
      closes a list with. */
  lemma TextStarts(v: Json, rest: string)
    requires Lexemes(v)
    ensures var s := Text(v) + rest; Text(v) != [] && !IsWs(s[0]) && s[0] != ']' && SkipWs(s) == s
  {
  }

  /* ---------- Scalars ---------- */

  lemma LiteralRead(literal: string, v: Json, rest: string)
    ensures LiteralOf(literal + rest, literal, v) == Got(v, rest)
  {
    assert (literal + rest)[|literal|..] == rest;
  }

  lemma NumberAt(lexeme: string, rest: string)
    requires IsLexeme(lexeme) && Delimited(rest)
    ensures ValueOf(lexeme + rest) == Got(Num(lexeme), rest)
  {
    NumberRead(lexeme, rest);
    var s := lexeme + rest;
    assert s[0] == lexeme[0] && s[..|lexeme|] == lexeme && s[|lexeme|..] == rest;
    hide NumberLength;
  }

  lemma ScalarRead(v: Json, rest: string)
    requires !v.Arr? && !v.Obj? && Lexemes(v) && Delimited(rest)
    ensures ValueOf(Text(v) + rest) == Got(v, rest)
  {
    hide StringOf, LiteralOf, NumberLength, ItemsStart, FieldsStart;
    match v
    case Null => LiteralRead("null", v, rest);
    case Bool(b) => LiteralRead(if b then "true" else "false", v, rest);
    case Num(lexeme) => NumberAt(lexeme, rest);
    case Str(x) =>
      hide ValueOf;
      StringRead(x, "", rest);
      QuotedRest(x, rest);
      ValueAtQuote(Escaped(x) + ("\"" + rest));
      assert "" + x == x;
  }

  lemma QuotedRest(x: string, rest: string)
    ensures Quoted(x) + rest == "\"" + (Escaped(x) + ("\"" + rest))
  {
  }

  lemma EmptyRead(v: Json, rest: string)
    requires v == Arr([]) || v == Obj(map[])
    ensures ValueOf(Text(v) + rest) == Got(v, rest)
  {
    if v.Arr? {
      assert Text(v) + rest == "[" + ("]" + rest);
      hide *;
      ValueAtBracket("]" + rest);
      NoItems(rest);
    } else {
      assert Text(v) + rest == "{" + ("}" + rest);
      hide *;
      ValueAtBrace("}" + rest);
      NoFields(rest);
    }
  }

  lemma NoItems(rest: string)
    ensures ItemsStart("]" + rest) == Got([], rest)
  {
    Cons(']', rest);
    hide ItemsOf, SkipWs;
  }

  lemma NoFields(rest: string)
    ensures FieldsStart("}" + rest) == Got(map[], rest)
  {
    Cons('}', rest);
    hide FieldsOf, SkipWs;
  }

  /* ---------- Values ---------- */

  /** A printed value is read back off the front of any text that does not
      continue a number. */
  lemma {:induction false} ValueRead(v: Json, rest: string)
    requires Lexemes(v) && Delimited(rest)
    ensures ValueOf(Text(v) + rest) == Got(v, rest)
    decreases v, Breadth(v) + 1
  {
    hide ValueOf, Text, ItemsOf, FieldsOf, ItemsText, FieldsText;
    if v == Arr([]) || v == Obj(map[]) {
      EmptyRead(v, rest);
    } else if v.Arr? {
      ItemsRead(v, 0, rest);
      assert v.items[..0] == [];
      ArrayBegins(v, rest);
    } else if v.Obj? {
      var keys := Keys(v);
      assert v.fields != map[] ==> |keys| > 0;
      FieldsRead(v, keys, 0, rest);
      assert Partial(v, keys, 0) == map[];
      ObjectBegins(v, rest);
    } else {
      ScalarRead(v, rest);
    }
  }

  lemma ArrayBegins(v: Json, rest: string)
    requires v.Arr? && v.items != [] && Lexemes(v)
    ensures ValueOf(Text(v) + rest) ==
      match ItemsOf(ItemsText(v, 0) + ("]" + rest), []) case Fail(f) => Fail(f) case Got(a, r) => Got(Arr(a), r)
  {
    var t := ItemsText(v, 0) + ("]" + rest);
    assert Text(v) + rest == "[" + t;
    ValueAtBracket(t);
    ItemsRest(v, 0, rest);
    TextStarts(v.items[0], ItemsTail(v, 0, rest));
    hide ItemsOf, Text, ValueOf, ItemsText;
  }

  lemma ObjectBegins(v: Json, rest: string)
    requires v.Obj? && v.fields != map[] && |Keys(v)| > 0
    ensures ValueOf(Text(v) + rest) ==
      match FieldsOf(FieldsText(v, Keys(v), 0) + ("}" + rest), map[])
      case Fail(f) => Fail(f)
      case Got(m, r) => Got(Obj(m), r)
  {
    var t := FieldsText(v, Keys(v), 0) + ("}" + rest);
    assert Text(v) + rest == "{" + t;
    ValueAtBrace(t);
    FieldsRest(v, Keys(v), 0, rest);
    hide *;
    var more := ":" + Text(v.fields[Keys(v)[0]]) + FieldsTail(v, Keys(v), 0, rest);
    QuotedRest(Keys(v)[0], more);
    FieldsAtQuote(Escaped(Keys(v)[0]) + ("\"" + more));
  }

  lemma FieldsAtQuote(t: string)
    ensures FieldsStart("\"" + t) == FieldsOf("\"" + t, map[])
  {
    Cons('"', t);
    hide FieldsOf, SkipWs;
  }

  /** What follows the `i`-th item. */
  function ItemsTail(v: Json, i: nat, rest: string): string
    requires v.Arr? && i < |v.items|
  {
    if i + 1 < |v.items| then "," + (ItemsText(v, i + 1) + ("]" + rest)) else "]" + rest
  }

  lemma ItemsRest(v: Json, i: nat, rest: string)
    requires v.Arr? && i < |v.items|
    ensures ItemsText(v, i) + ("]" + rest) == Text(v.items[i]) + ItemsTail(v, i, rest) && Delimited(ItemsTail(v, i, rest))
    ensures i + 1 < |v.items| ==> ItemsTail(v, i, rest) == [','] + (ItemsText(v, i + 1) + ("]" + rest))
    ensures i + 1 == |v.items| ==> ItemsTail(v, i, rest) == [']'] + rest
    ensures Lexemes(v) ==> Lexemes(v.items[i])
  {
    hide Text;
    if i + 1 < |v.items| {
      Append(Text(v.items[i]), "," + ItemsText(v, i + 1), "]" + rest);
      Append(",", ItemsText(v, i + 1), "]" + rest);
    } else {
      assert Text(v.items[i]) + "" == Text(v.items[i]);
    }
  }

  lemma {:induction false} ItemsRead(v: Json, i: nat, rest: string)
    requires v.Arr? && i < |v.items| && Lexemes(v)
    ensures ItemsOf(ItemsText(v, i) + ("]" + rest), v.items[..i]) == Got(v.items, rest)
    decreases v, |v.items| - i
  {
    hide *;
    ItemsRest(v, i, rest);
    ValueRead(v.items[i], ItemsTail(v, i, rest));
    var s := ItemsText(v, i) + ("]" + rest);
    if i + 1 < |v.items| {
      ItemsAt(s, v.items[..i], v.items[i], ',', ItemsText(v, i + 1) + ("]" + rest));
      assert v.items[..i] + [v.items[i]] == v.items[..i + 1];
      ItemsRead(v, i + 1, rest);
    } else {
      ItemsAt(s, v.items[..i], v.items[i], ']', rest);
      assert v.items[..i] + [v.items[i]] == v.items;
    }
  }

  /** The fields under the first `i` keys. */
  function Partial(v: Json, keys: seq<string>, i: nat): map<string, Json>
    requires v.Obj? && i <= |keys| && forall k | k in keys :: k in v.fields
  {
    map k | k in keys[..i] :: v.fields[k]
  }

  /** What follows the `i`-th field. */
  function FieldsTail(v: Json, keys: seq<string>, i: nat, rest: string): string
    requires v.Obj? && i < |keys| == |v.fields| && forall k | k in keys :: k in v.fields
  {
    if i + 1 < |keys| then "," + (FieldsText(v, keys, i + 1) + ("}" + rest)) else "}" + rest
  }

  lemma PartialStep(v: Json, keys: seq<string>, i: nat)
    requires v.Obj? && i < |keys| && forall k :: k in keys <==> k in v.fields
    ensures Partial(v, keys, i)[keys[i] := v.fields[keys[i]]] == Partial(v, keys, i + 1)
    ensures i + 1 == |keys| ==> Partial(v, keys, i + 1) == v.fields
  {
    assert keys[..i + 1] == keys[..i] + [keys[i]];
    if i + 1 == |keys| { assert keys[..i + 1] == keys; }
  }

  lemma FieldsRest(v: Json, keys: seq<string>, i: nat, rest: string)
    requires v.Obj? && i < |keys| == |v.fields| && forall k | k in keys :: k in v.fields
    ensures FieldsText(v, keys, i) + ("}" + rest)
      == Quoted(keys[i]) + (":" + Text(v.fields[keys[i]]) + FieldsTail(v, keys, i, rest))
    ensures Delimited(FieldsTail(v, keys, i, rest))
  {
    hide Text, Quoted;
    var key, f := Quoted(keys[i]), ":" + Text(v.fields[keys[i]]);
    if i + 1 < |keys| {
      Append(key, ":", Text(v.fields[keys[i]]));
      Append(key + f, "," + FieldsText(v, keys, i + 1), "}" + rest);
      Append(",", FieldsText(v, keys, i + 1), "}" + rest);
      Append(key, f, FieldsTail(v, keys, i, rest));
    } else {
      Append(key, ":", Text(v.fields[keys[i]]));
      assert key + f + "" == key + f;
      Append(key, f, "}" + rest);
    }
  }

  lemma {:induction false} FieldsRead(v: Json, keys: seq<string>, i: nat, rest: string)
    requires v.Obj? && i < |keys| == |v.fields| && (forall k :: k in keys <==> k in v.fields) && Lexemes(v)
    ensures FieldsOf(FieldsText(v, keys, i) + ("}" + rest), Partial(v, keys, i)) == Got(v.fields, rest)
    decreases v, |keys| - i
  {
    assert keys[i] in keys;
    var key, f, tail := keys[i], v.fields[keys[i]], FieldsTail(v, keys, i, rest);
    FieldsRest(v, keys, i, rest);
    ValueRead(f, tail);
    hide ValueOf, Text, FieldsOf, FieldsText, Partial, Quoted, FieldOf;
    FieldRead(key, f, tail);
    PartialStep(v, keys, i);
    var s := FieldsText(v, keys, i) + ("}" + rest);
    if i + 1 < |keys| {
      FieldsAt(s, Partial(v, keys, i), key, f, ',', FieldsText(v, keys, i + 1) + ("}" + rest));
      FieldsRead(v, keys, i + 1, rest);
    } else {
      FieldsAt(s, Partial(v, keys, i), key, f, '}', rest);
    }
  }

  lemma FieldRead(key: string, v: Json, tail: string)
    requires ValueOf(Text(v) + tail) == Got(v, tail)
    ensures FieldOf(Quoted(key) + (":" + Text(v) + tail)) == Got((key, v), tail)
  {
    hide ValueOf, Text, FieldOf;
    var after := ":" + (Text(v) + tail);
    Append(":", Text(v), tail);
    QuotedRest(key, after);
    StringRead(key, "", after);
    assert "" + key == key;
    FieldAt(Escaped(key) + ("\"" + after), key, Text(v) + tail, v, tail);
  }

  /** Printing and parsing give the value back exactly when its numbers are
      texts the parser reads as one number. */
  lemma RoundTrip(v: Json)
    ensures Parse(Text(v)) == Ok(v) <==> Lexemes(v)
  {
    if Lexemes(v) {
      ValueRead(v, "");
      assert Text(v) + "" == Text(v);
      TextStarts(v, "");
    }
    ParsedLexemes(Text(v));
  }

  /* ---------- What a parse can give ---------- */

  /** Every number in a parsed value is a lexeme, whatever the text. */
  lemma ParsedLexemes(text: string)
    ensures Parse(text).Ok? ==> Lexemes(Parse(text).value)
  {
    ValueLexemes(SkipWs(text));
  }

  lemma {:induction false} LexemeOf(s: string)
    ensures forall i | 0 <= i < NumberLength(s) :: InNumber(s[i])
  {
    if s != [] && InNumber(s[0]) {
      LexemeOf(s[1..]);
      forall i | 0 <= i < NumberLength(s) ensures InNumber(s[i]) {
        if i > 0 { assert s[i] == s[1..][i - 1]; }
      }
    }
  }

  lemma {:induction false} ValueLexemes(s: string)
    ensures ValueOf(s).Got? ==> Lexemes(ValueOf(s).value)
    decreases |s|, 1
  {
    var t := SkipWs(s);
    if t != [] && t[0] == '{' {
      var u := SkipWs(t[1..]);
      if !(u != [] && u[0] == '}') { FieldsLexemes(u, map[]); }
    } else if t != [] && t[0] == '[' {
      var u := SkipWs(t[1..]);
      if !(u != [] && u[0] == ']') { ItemsLexemes(u, []); }
    } else {
      LexemeOf(t);
    }
  }

  lemma {:induction false} ItemsLexemes(s: string, out: seq<Json>)
    requires forall i | 0 <= i < |out| :: Lexemes(out[i])
    ensures ItemsOf(s, out).Got? ==> Lexemes(Arr(ItemsOf(s, out).value))
    decreases |s|, 2
  {
    ValueLexemes(s);
    if ValueOf(s).Got? {
      var v, t := ValueOf(s).value, SkipWs(ValueOf(s).rest);
      hide ValueOf;
      if t != [] && t[0] == ',' { ItemsLexemes(t[1..], out + [v]); }
    }
  }

  lemma {:induction false} FieldsLexemes(s: string, out: map<string, Json>)
    requires forall k | k in out :: Lexemes(out[k])
    ensures FieldsOf(s, out).Got? ==> Lexemes(Obj(FieldsOf(s, out).value))
    decreases |s|, 2
  {
    if FieldOf(s).Got? {
      var field, t := FieldOf(s).value, SkipWs(FieldOf(s).rest);
      FieldLexemes(s);
      hide FieldOf;
      if t != [] && t[0] == ',' { FieldsLexemes(t[1..], out[field.0 := field.1]); }
    }
  }

  lemma {:induction false} FieldLexemes(s: string)
    ensures FieldOf(s).Got? ==> Lexemes(FieldOf(s).value.1)
    decreases |s|, 1
  {
    var t := SkipWs(s);
    if t != [] && t[0] == '"' && StringOf(t[1..], "").Got? {
      var t2 := SkipWs(StringOf(t[1..], "").rest);
      if t2 != [] && t2[0] == ':' { ValueLexemes(t2[1..]); }
    }
  }

  /** Printing is a normal form: any text that parses has the same value as its
      value printed anew. */
  lemma NormalForm(text: string)
    ensures Parse(text).Ok? ==> Parse(Text(Parse(text).value)) == Parse(text)
  {
    ParsedLexemes(text);
    if Parse(text).Ok? { RoundTrip(Parse(text).value); }
  }
}
