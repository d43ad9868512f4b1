/** The printer that pushes onto its output and the parser that advances a
    position, against the functions of the text. */
module JsonParser {
  import opened Wrappers
  import opened Orders
  import opened JsonSpec
  import JsonGrammar

  /* ---------- Printing ---------- */

  method WriteString(s: string, out: string) returns (r: string)
    ensures r == out + Quoted(s)
  {
    r := out + "\"";
    hide Escape;
    assert s[0..] == s;
    for i := 0 to |s|
      invariant r + Escaped(s[i..]) == out + "\"" + Escaped(s)
    {
      assert s[i..] == [s[i]] + s[i + 1..];
      assert r + (Escape(s[i]) + Escaped(s[i + 1..])) == r + Escape(s[i]) + Escaped(s[i + 1..]);
      r := r + Escape(s[i]);
    }
    assert Escaped(s[|s|..]) == [];
    assert out + "\"" + Escaped(s) + "\"" == out + ("\"" + Escaped(s) + "\"");
    r := r + "\"";
  }

  /** What is left to write of an array, from the `i`-th item on. */
  function ItemsLeft(v: Json, i: nat): string
    requires v.Arr? && i <= |v.items|
  {
    if i == |v.items| then "]" else (if i > 0 then "," else "") + ItemsText(v, i) + "]"
  }

  function FieldsLeft(v: Json, keys: seq<string>, i: nat): string
    requires v.Obj? && i <= |keys| == |v.fields| && forall k | k in keys :: k in v.fields
  {
    if i == |keys| then "}" else (if i > 0 then "," else "") + FieldsText(v, keys, i) + "}"
  }

  lemma ItemsLeftStep(v: Json, i: nat, r: string)
    requires v.Arr? && i < |v.items|
    ensures r + ItemsLeft(v, i) == (if i > 0 then r + "," else r) + Text(v.items[i]) + ItemsLeft(v, i + 1)
  {
    hide Text;
    var comma, t := if i > 0 then "," else "", Text(v.items[i]);
    if i + 1 < |v.items| {
      assert comma + (t + ("," + ItemsText(v, i + 1))) + "]" == comma + t + ("," + ItemsText(v, i + 1) + "]");
    } else {
      assert comma + (t + "") + "]" == comma + t + "]";
    }
    assert (if i > 0 then r + "," else r) == r + comma;
    assert r + (comma + t + ItemsLeft(v, i + 1)) == r + comma + t + ItemsLeft(v, i + 1);
  }

  lemma FieldsLeftStep(v: Json, keys: seq<string>, i: nat, r: string)
    requires v.Obj? && i < |keys| == |v.fields| && forall k | k in keys :: k in v.fields
    ensures r + FieldsLeft(v, keys, i)
      == (if i > 0 then r + "," else r) + Quoted(keys[i]) + ":" + Text(v.fields[keys[i]]) + FieldsLeft(v, keys, i + 1)
  {
    hide Text, Quoted;
    var comma, t := if i > 0 then "," else "", Quoted(keys[i]) + ":" + Text(v.fields[keys[i]]);
    if i + 1 < |keys| {
      assert comma + (t + ("," + FieldsText(v, keys, i + 1))) + "}" == comma + t + ("," + FieldsText(v, keys, i + 1) + "}");
    } else {
      assert comma + (t + "") + "}" == comma + t + "}";
    }
    assert (if i > 0 then r + "," else r) == r + comma;
    assert r + (comma + t + FieldsLeft(v, keys, i + 1)) == r + comma + t + FieldsLeft(v, keys, i + 1);
    assert r + comma + t == r + comma + Quoted(keys[i]) + ":" + Text(v.fields[keys[i]]);
  }

  lemma BracketsLeft(v: Json, out: string)
    ensures v.Arr? ==> out + Text(v) == out + "[" + ItemsLeft(v, 0)
    ensures v.Obj? ==> out + Text(v) == out + "{" + FieldsLeft(v, Keys(v), 0)
  {
    hide ItemsText, FieldsText, Keys;
    if v.Obj? { assert v.fields == map[] <==> |Keys(v)| == 0; }
  }

  /** Pushes the text of a value. */
  method Write(v: Json, out: string) returns (r: string)
    ensures r == out + Text(v)
    decreases v
  {
    match v
    case Null => r := out + "null";
    case Bool(b) => r := out + if b then "true" else "false";
    case Num(lexeme) => r := out + lexeme;
    case Str(s) => r := WriteString(s, out);
    case Arr(items) =>
      hide Text, ItemsLeft;
      r := out + "[";
      BracketsLeft(v, out);
      for i := 0 to |items|
        invariant r + ItemsLeft(v, i) == out + Text(v)
      {
        ItemsLeftStep(v, i, r);
        if i > 0 { r := r + ","; }
        r := Write(items[i], r);
      }
      LeftOver(v);
      r := r + "]";
    case Obj(fields) =>
      hide Text, FieldsLeft, Keys;
      r := out + "{";
      BracketsLeft(v, out);
      var keys := Keys(v);
      for i := 0 to |keys|
        invariant r + FieldsLeft(v, keys, i) == out + Text(v)
      {
        FieldsLeftStep(v, keys, i, r);
        assert keys[i] in keys;
        if i > 0 { r := r + ","; }
        r := WriteString(keys[i], r);
        r := r + ":";
        r := Write(fields[keys[i]], r);
      }
      LeftOver(v);
      r := r + "}";
  }

  lemma LeftOver(v: Json)
    ensures v.Arr? ==> ItemsLeft(v, |v.items|) == "]"
    ensures v.Obj? ==> FieldsLeft(v, Keys(v), |Keys(v)|) == "}"
  {
  }

  /* ---------- Parsing ---------- */

  /** A reading method did what the function of the text says. */
  ghost predicate Read<T(!new)>(spec: Reading<T>, r: Result<T, Fault>, after: string) {
    match spec case Fail(f) => r == Err(f) case Got(v, rest) => r == Ok(v) && after == rest
  }

  lemma Ahead(text: string, i: nat, k: nat)
    requires i + k <= |text|
    ensures text[i..][k..] == text[i + k..] && |text[i..]| == |text| - i
    ensures forall j | 0 <= j < |text| - i :: text[i..][j] == text[i + j]
  {
  }

  lemma {:induction false} NumberNext(text: string, i: nat)
    requires i <= |text|
    ensures i < |text| && InNumber(text[i]) ==> NumberLength(text[i..]) == 1 + NumberLength(text[i + 1..])
    ensures i == |text| || !InNumber(text[i]) ==> NumberLength(text[i..]) == 0
  {
    if i < |text| { Ahead(text, i, 1); }
  }

  lemma {:induction false} StringNext(s: string, out: string)
    ensures s == [] ==> StringOf(s, out) == Fail(Malformed)
    ensures s != [] && s[0] == '"' ==> StringOf(s, out) == Got(out, s[1..])
    ensures s != [] && s[0] != '"' ==>
      StringOf(s, out) == if CharOf(s).Fail? then Fail(CharOf(s).fault) else StringOf(CharOf(s).rest, out + [CharOf(s).value])
  {
    hide CharOf;
  }

  lemma {:induction false} ItemsNext(s: string, out: seq<Json>)
    ensures ValueOf(s).Fail? ==> ItemsOf(s, out) == Fail(ValueOf(s).fault)
    ensures ValueOf(s).Got? ==>
      var v, t := ValueOf(s).value, JsonSpec.SkipWs(ValueOf(s).rest);
      ItemsOf(s, out) ==
        if t == [] then Fail(Malformed)
        else if t[0] == ',' then ItemsOf(t[1..], out + [v])
        else if t[0] == ']' then Got(out + [v], t[1..])
        else Fail(Malformed)
  {
    hide ValueOf;
  }

  lemma ItemsNow(s: string)
    ensures var t := JsonSpec.SkipWs(s);
      ItemsStart(s) == if t != [] && t[0] == ']' then Got([], t[1..]) else ItemsOf(t, [])
  {
  }

  lemma FieldsNow(s: string)
    ensures var t := JsonSpec.SkipWs(s);
      FieldsStart(s) == if t != [] && t[0] == '}' then Got(map[], t[1..]) else FieldsOf(t, map[])
  {
  }

  lemma {:induction false} FieldsNext(s: string, out: map<string, Json>)
    ensures FieldOf(s).Fail? ==> FieldsOf(s, out) == Fail(FieldOf(s).fault)
    ensures FieldOf(s).Got? ==>
      var f, t := FieldOf(s).value, JsonSpec.SkipWs(FieldOf(s).rest);
      FieldsOf(s, out) ==
        if t == [] then Fail(Malformed)
        else if t[0] == ',' then FieldsOf(t[1..], out[f.0 := f.1])
        else if t[0] == '}' then Got(out[f.0 := f.1], t[1..])
        else Fail(Malformed)
  {
    hide FieldOf;
  }

  class Parser {
    const text: string
    var pos: nat

    constructor (text: string)
      ensures this.text == text && pos == 0
    {
      this.text, pos := text, 0;
    }

    predicate Within() reads `pos { pos <= |text| }

    function Rest(): string
      requires Within()
      reads `pos
    {
      text[pos..]
    }

    method SkipWs()
      requires Within()
      modifies `pos
      ensures Within() && old(pos) <= pos && Rest() == JsonSpec.SkipWs(old(Rest()))
    {
      while pos < |text| && IsWs(text[pos])
        invariant old(pos) <= pos <= |text| && JsonSpec.SkipWs(text[pos..]) == JsonSpec.SkipWs(old(Rest()))
      {
        Ahead(text, pos, 1);
        pos := pos + 1;
      }
      assert pos < |text| ==> text[pos..][0] == text[pos];
    }

    method Literal(literal: string, v: Json) returns (r: Result<Json, Fault>)
      requires Within() && literal != ""
      modifies `pos
      ensures Within() && Read(LiteralOf(old(Rest()), literal, v), r, Rest())
    {
      if literal <= text[pos..] {
        Ahead(text, pos, |literal|);
        pos := pos + |literal|;
        return Ok(v);
      }
      r := Err(Malformed);
    }

    method Number() returns (r: Json)
      requires Within()
      modifies `pos
      ensures Within()
      ensures var s := old(Rest()); r == Num(s[..NumberLength(s)]) && Rest() == s[NumberLength(s)..]
    {
      hide NumberLength, InNumber;
      var start := pos;
      ghost var s := Rest();
      NumberNext(text, pos);
      while pos < |text| && InNumber(text[pos])
        invariant start <= pos <= |text| && NumberLength(s) == pos - start + NumberLength(text[pos..])
      {
        NumberNext(text, pos);
        pos := pos + 1;
      }
      NumberNext(text, pos);
      Ahead(text, start, pos - start);
      r := Num(text[start..pos]);
    }

    method Hex4() returns (r: Result<nat, Fault>)
      requires Within()
      modifies `pos
      ensures Within() && old(pos) <= pos && Read(JsonSpec.Hex4(old(Rest())), r, Rest())
    {
      hide Radix16;
      if pos + 4 > |text| { return Err(Malformed); }
      var slice := text[pos..pos + 4];
      assert slice == text[pos..][..4] && (text[pos] == '+' ==> slice[1..] == text[pos..][1..4]);
      r := OrMalformed(Radix16(if slice[0] == '+' then slice[1..] else slice));
      if r.Err? { return; }
      Ahead(text, pos, 4);
      pos := pos + 4;
    }

    /** After `\u`, a code unit or a pair of surrogates. */
    method Unicode() returns (r: Result<char, Fault>)
      requires Within()
      modifies `pos
      ensures Within() && old(pos) <= pos && Read(UnicodeEscape(old(Rest())), r, Rest())
    {
      hide JsonSpec.Hex4;
      var hi := Hex4();
      if hi.Err? { return Err(hi.error); }
      var cp := hi.value;
      if 0xD800 <= cp <= 0xDBFF {
        if pos + 1 < |text| && text[pos] == '\\' && text[pos + 1] == 'u' {
          Ahead(text, pos, 2);
          pos := pos + 2;
          var lo := Hex4();
          if lo.Err? { return Err(lo.error); }
          // The source subtracts 0xDC00 from the second unit without a check.
          if lo.value < 0xDC00 { return Err(Underflow); }
          r := OrMalformed(FromCode(0x10000 + (cp - 0xD800) * 0x400 + (lo.value - 0xDC00)));
        } else {
          r := Err(Malformed);
        }
      } else {
        r := OrMalformed(FromCode(cp));
      }
    }

    /** One character of a string, escaped or not. */
    method Character() returns (r: Result<char, Fault>)
      requires pos < |text|
      modifies `pos
      ensures Within() && old(pos) < pos && Read(CharOf(old(Rest())), r, Rest())
    {
      hide UnicodeEscape;
      Ahead(text, pos, 1);
      var b := text[pos];
      pos := pos + 1;
      if b != '\\' { return Ok(b); }
      if pos == |text| { return Err(Malformed); }
      Ahead(text, pos - 1, 2);
      var e := text[pos];
      pos := pos + 1;
      if e == 'u' { r := Unicode(); } else { r := OrMalformed(SimpleEscape(e)); }
    }

    /** From the opening quote to past the closing one. */
    method String() returns (r: Result<string, Fault>)
      requires pos < |text|
      modifies `pos
      ensures Within() && Read(StringOf(old(Rest())[1..], ""), r, Rest())
    {
      hide StringOf, CharOf;
      ghost var spec := StringOf(Rest()[1..], "");
      Ahead(text, pos, 1);
      pos := pos + 1;
      var out := "";
      while true
        invariant Within() && StringOf(Rest(), out) == spec
        decreases |text| - pos
      {
        StringNext(Rest(), out);
        if pos == |text| { return Err(Malformed); }
        Ahead(text, pos, 1);
        if text[pos] == '"' {
          pos := pos + 1;
          return Ok(out);
        }
        var c := Character();
        if c.Err? { return Err(c.error); }
        out := out + [c.value];
      }
    }

    method Value() returns (r: Result<Json, Fault>)
      requires Within()
      modifies `pos
      ensures Within() && Read(ValueOf(old(Rest())), r, Rest())
      decreases |text| - pos, 1
    {
      hide ItemsStart, FieldsStart, StringOf, LiteralOf;
      SkipWs();
      if pos == |text| { return Err(Malformed); }
      Ahead(text, pos, 1);
      var b := text[pos];
      if b == '{' {
        var m := Object();
        r := if m.Ok? then Ok(Obj(m.value)) else Err(m.error);
      } else if b == '[' {
        var a := Array();
        r := if a.Ok? then Ok(Arr(a.value)) else Err(a.error);
      } else if b == '"' {
        var s := String();
        r := if s.Ok? then Ok(Str(s.value)) else Err(s.error);
      } else if b == 't' {
        r := Literal("true", Bool(true));
      } else if b == 'f' {
        r := Literal("false", Bool(false));
      } else if b == 'n' {
        r := Literal("null", Null);
      } else if b == '-' || IsDigit(b) {
        var n := Number();
        r := Ok(n);
      } else {
        r := Err(Malformed);
      }
    }

    /** From the opening bracket to past the closing one. */
    method Array() returns (r: Result<seq<Json>, Fault>)
      requires pos < |text|
      modifies `pos
      ensures Within() && Read(ItemsStart(old(Rest())[1..]), r, Rest())
      decreases |text| - pos, 0
    {
      hide ValueOf, ItemsOf, ItemsStart, JsonSpec.SkipWs;
      ghost var spec := ItemsStart(Rest()[1..]);
      Ahead(text, pos, 1);
      pos := pos + 1;
      ItemsNow(Rest());
      SkipWs();
      if pos < |text| && text[pos] == ']' {
        Ahead(text, pos, 1);
        pos := pos + 1;
        return Ok([]);
      }
      r := Items();
    }

    /** The items up to past the closing bracket. */
    method Items() returns (r: Result<seq<Json>, Fault>)
      requires Within()
      modifies `pos
      ensures Within() && Read(ItemsOf(old(Rest()), []), r, Rest())
      decreases |text| - pos, 3
    {
      hide ValueOf, ItemsOf, JsonSpec.SkipWs;
      ghost var spec := ItemsOf(Rest(), []);
      var out: seq<Json> := [];
      while true
        invariant old(pos) <= pos <= |text| && ItemsOf(Rest(), out) == spec
        decreases |text| - pos
      {
        ItemsNext(Rest(), out);
        var v := Value();
        if v.Err? { return Err(v.error); }
        SkipWs();
        if pos == |text| { return Err(Malformed); }
        Ahead(text, pos, 1);
        out := out + [v.value];
        pos := pos + 1;
        if text[pos - 1] == ']' { return Ok(out); }
        if text[pos - 1] != ',' { return Err(Malformed); }
      }
    }

    /** From the opening brace to past the closing one. */
    method Object() returns (r: Result<map<string, Json>, Fault>)
      requires pos < |text|
      modifies `pos
      ensures Within() && Read(FieldsStart(old(Rest())[1..]), r, Rest())
      decreases |text| - pos, 0
    {
      hide FieldOf, FieldsOf, FieldsStart, JsonSpec.SkipWs;
      ghost var spec := FieldsStart(Rest()[1..]);
      Ahead(text, pos, 1);
      pos := pos + 1;
      FieldsNow(Rest());
      SkipWs();
      if pos < |text| && text[pos] == '}' {
        Ahead(text, pos, 1);
        pos := pos + 1;
        return Ok(map[]);
      }
      r := Fields();
    }

    /** The fields up to past the closing brace. */
    method Fields() returns (r: Result<map<string, Json>, Fault>)
      requires Within()
      modifies `pos
      ensures Within() && Read(FieldsOf(old(Rest()), map[]), r, Rest())
      decreases |text| - pos, 3
    {
      hide FieldOf, FieldsOf, JsonSpec.SkipWs;
      ghost var spec := FieldsOf(Rest(), map[]);
      var out: map<string, Json> := map[];
      while true
        invariant old(pos) <= pos <= |text| && FieldsOf(Rest(), out) == spec
        decreases |text| - pos
      {
        FieldsNext(Rest(), out);
        var field := Field();
        if field.Err? { return Err(field.error); }
        out := out[field.value.0 := field.value.1];
        SkipWs();
        if pos == |text| { return Err(Malformed); }
        Ahead(text, pos, 1);
        pos := pos + 1;
        if text[pos - 1] == '}' { return Ok(out); }
        if text[pos - 1] != ',' { return Err(Malformed); }
      }
    }

    /** A key, a colon and a value. */
    method Field() returns (r: Result<(string, Json), Fault>)
      requires Within()
      modifies `pos
      ensures Within() && Read(FieldOf(old(Rest())), r, Rest())
      decreases |text| - pos, 2
    {
      hide StringOf, ValueOf;
      SkipWs();
      if pos == |text| || text[pos] != '"' { return Err(Malformed); }
      var key := String();
      if key.Err? { return Err(key.error); }
      SkipWs();
      if pos == |text| || text[pos] != ':' { return Err(Malformed); }
      Ahead(text, pos, 1);
      pos := pos + 1;
      var v := Value();
      r := if v.Ok? then Ok((key.value, v.value)) else Err(v.error);
    }
  }

  /** A whole document: nothing but whitespace may follow the value. */
  method ParseText(text: string) returns (r: Result<Json, Fault>)
    ensures r == Parse(text)
    ensures forall v :: r == Ok(v) <==> JsonGrammar.Denotes(text, v)
  {
    hide ValueOf, JsonGrammar.Denotes;
    forall v { JsonGrammar.ParsesExactly(text, v); }
    var p := new Parser(text);
    assert text[0..] == text;
    p.SkipWs();
    r := p.Value();
    if r.Err? { return; }
    p.SkipWs();
    if p.pos != |text| { return Err(Malformed); }
  }
}
