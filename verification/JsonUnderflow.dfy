/** The texts on which the source's parser panics: a pair of escapes whose second
    unit is below the low surrogates. */
module JsonUnderflow {
  import opened Wrappers
  import opened JsonSpec
  import opened JsonRoundTrip
  import opened JsonLetters

  /** After `\u`: a high surrogate, then an escape of a unit below 0xDC00. */
  predicate LowPair(s: string) {
    Hex4(s).Got? && 0xD800 <= Hex4(s).value <= 0xDBFF
    && var rest := Hex4(s).rest;
       |rest| >= 2 && rest[0] == '\\' && rest[1] == 'u' && Hex4(rest[2..]).Got? && Hex4(rest[2..]).value < 0xDC00
  }

  /** Its characters: the digits of a high surrogate, an escape, and those of a
      unit below 0xDC00. */
  lemma LowPairExactly(s: string)
    ensures LowPair(s) <==>
      |s| >= 10 && s[4] == '\\' && s[5] == 'u'
      && exists high, low :: UnitIs(s[..4], high) && UnitIs(s[6..10], low) && 0xD800 <= high < 0xDC00 && 0 <= low < 0xDC00
  {
    hide Radix16, UnitIs;
    if |s| >= 10 {
      var t := s[6..];
      assert s[4..][2..] == t && t[..4] == s[6..10] && s[4..][0] == s[4] && s[4..][1] == s[5];
      forall n: nat { Hex4Exactly(s, n); }
      forall n: nat { Hex4Exactly(t, n); }
    }
  }

  /** Such a pair stands somewhere in the text. */
  ghost predicate HasLowPair(s: string) {
    exists i | 0 <= i && i + 2 <= |s| :: s[i] == '\\' && s[i + 1] == 'u' && LowPair(s[i + 2..])
  }

  lemma LowPairLater(s: string, k: nat)
    requires k <= |s|
    ensures HasLowPair(s[k..]) ==> HasLowPair(s)
  {
    var t := s[k..];
    if HasLowPair(t) {
      var i :| 0 <= i && i + 2 <= |t| && t[i] == '\\' && t[i + 1] == 'u' && LowPair(t[i + 2..]);
      assert t[i + 2..] == s[k + i + 2..];
      assert s[k + i] == '\\' && s[k + i + 1] == 'u';
    }
  }

  /** Reading stops for underflow only in a text with such a pair, and what is
      left of a text has one only if the text has. */
  ghost predicate Blames<T>(r: Reading<T>, s: string) {
    && (r == Fail(Underflow) ==> HasLowPair(s))
    && (r.Got? && HasLowPair(r.rest) ==> HasLowPair(s))
  }

  lemma {:induction false} SkipBlames(s: string)
    ensures HasLowPair(SkipWs(s)) ==> HasLowPair(s)
    decreases |s|
  {
    if s != [] && IsWs(s[0]) {
      SkipBlames(s[1..]);
      LowPairLater(s, 1);
    }
  }

  /** An escape underflows exactly at such a pair. */
  lemma UnderflowsExactly(s: string)
    ensures UnicodeEscape(s) == Fail(Underflow) <==> LowPair(s)
  {
    hide Radix16;
  }

  lemma CharBlames(s: string)
    requires s != []
    ensures Blames(CharOf(s), s)
  {
    if s[0] != '\\' {
      LowPairLater(s, 1);
    } else if |s| >= 2 && s[1] == 'u' {
      UnderflowsExactly(s[2..]);
      if UnicodeEscape(s[2..]).Got? { EscapeRest(s); }
    } else if |s| >= 2 {
      LowPairLater(s, 2);
    }
  }

  lemma EscapeRest(s: string)
    requires |s| >= 2 && UnicodeEscape(s[2..]).Got?
    ensures HasLowPair(UnicodeEscape(s[2..]).rest) ==> HasLowPair(s)
  {
    hide Radix16, HasLowPair;
    var t := s[2..];
    LowPairLater(s, 2);
    LowPairLater(t, 4);
    if |t| >= 10 {
      assert t[4..][2..][4..] == t[10..];
      LowPairLater(t, 10);
    }
  }

  lemma {:induction false} StringBlames(s: string, out: string)
    ensures Blames(StringOf(s, out), s)
    decreases |s|
  {
    hide HasLowPair;
    if s != [] && s[0] == '"' {
      LowPairLater(s, 1);
    } else if s != [] {
      CharBlames(s);
      if CharOf(s).Got? { StringBlames(CharOf(s).rest, out + [CharOf(s).value]); }
    }
  }

  lemma LiteralBlames(s: string, literal: string, v: Json)
    ensures Blames(LiteralOf(s, literal, v), s)
  {
    hide HasLowPair;
    if literal <= s { LowPairLater(s, |literal|); }
  }

  lemma {:induction false} ValueBlames(s: string)
    ensures Blames(ValueOf(s), s)
    decreases |s|, 1
  {
    hide HasLowPair;
    var t := SkipWs(s);
    SkipBlames(s);
    if t != [] {
      LowPairLater(t, 1);
      LowPairLater(t, NumberLength(t));
      if t[0] == '{' {
        FieldsStartBlames(t[1..]);
      } else if t[0] == '[' {
        ItemsStartBlames(t[1..]);
      } else {
        StringBlames(t[1..], "");
        LiteralBlames(t, "true", Bool(true));
        LiteralBlames(t, "false", Bool(false));
        LiteralBlames(t, "null", Null);
      }
    }
  }

  lemma {:induction false} ItemsStartBlames(s: string)
    ensures Blames(ItemsStart(s), s)
    decreases |s|, 3
  {
    hide HasLowPair;
    var t := SkipWs(s);
    SkipBlames(s);
    if t != [] && t[0] == ']' { LowPairLater(t, 1); } else { ItemsBlame(t, []); }
  }

  lemma {:induction false} ItemsBlame(s: string, out: seq<Json>)
    ensures Blames(ItemsOf(s, out), s)
    decreases |s|, 2
  {
    hide HasLowPair;
    ValueBlames(s);
    if ValueOf(s).Got? {
      var v, t := ValueOf(s).value, SkipWs(ValueOf(s).rest);
      SkipBlames(ValueOf(s).rest);
      hide ValueOf;
      if t != [] {
        LowPairLater(t, 1);
        if t[0] == ',' { ItemsBlame(t[1..], out + [v]); }
      }
    }
  }

  lemma {:induction false} FieldsStartBlames(s: string)
    ensures Blames(FieldsStart(s), s)
    decreases |s|, 3
  {
    hide HasLowPair;
    var t := SkipWs(s);
    SkipBlames(s);
    if t != [] && t[0] == '}' { LowPairLater(t, 1); } else { FieldsBlame(t, map[]); }
  }

  lemma {:induction false} FieldsBlame(s: string, out: map<string, Json>)
    ensures Blames(FieldsOf(s, out), s)
    decreases |s|, 2
  {
    hide HasLowPair;
    FieldBlames(s);
    if FieldOf(s).Got? {
      var field, t := FieldOf(s).value, SkipWs(FieldOf(s).rest);
      SkipBlames(FieldOf(s).rest);
      hide FieldOf;
      if t != [] {
        LowPairLater(t, 1);
        if t[0] == ',' { FieldsBlame(t[1..], out[field.0 := field.1]); }
      }
    }
  }

  lemma {:induction false} FieldBlames(s: string)
    ensures Blames(FieldOf(s), s)
    decreases |s|, 1
  {
    hide HasLowPair;
    var t := SkipWs(s);
    SkipBlames(s);
    if t != [] && t[0] == '"' {
      LowPairLater(t, 1);
      StringBlames(t[1..], "");
      if StringOf(t[1..], "").Got? {
        var rest := StringOf(t[1..], "").rest;
        SkipBlames(rest);
        var t2 := SkipWs(rest);
        if t2 != [] {
          LowPairLater(t2, 1);
          ValueBlames(t2[1..]);
        }
      }
    }
  }

  /** A text without such a pair never makes the parser panic. */
  lemma NoPanicWithoutLowPair(text: string)
    requires !HasLowPair(text)
    ensures Parse(text) != Err(Underflow)
  {
    hide HasLowPair;
    SkipBlames(text);
    ValueBlames(SkipWs(text));
  }

  /** Inside a string it always does, whatever the string began with: a family
      of panicking documents. */
  lemma LowPairPanics(x: string, s: string)
    requires LowPair(s)
    ensures Parse("\"" + (Escaped(x) + ("\\u" + s))) == Err(Underflow)
  {
    var t := Escaped(x) + ("\\u" + s);
    StringUnderflows(x, "", s);
    Cons('"', t);
    ValueAtQuote(t);
    hide ValueOf, StringOf;
  }

  lemma {:induction false} StringUnderflows(x: string, out: string, s: string)
    requires LowPair(s)
    ensures StringOf(Escaped(x) + ("\\u" + s), out) == Fail(Underflow)
    decreases |x|
  {
    if x == [] {
      UnderflowsExactly(s);
      var t := "\\u" + s;
      assert Escaped(x) + t == t && t[2..] == s;
    } else {
      var more := Escaped(x[1..]) + ("\\u" + s);
      EscapeRead(x[0], more);
      hide Escape, CharOf, StringOf;
      Append(Escape(x[0]), Escaped(x[1..]), "\\u" + s);
      StringAt(Escape(x[0]) + more, x[0], more, out);
      StringUnderflows(x[1..], out + [x[0]], s);
    }
  }
}
