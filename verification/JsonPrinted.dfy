/** What the printer writes, character by character and piece by piece. */
module JsonPrinted {
  import opened Wrappers
  import opened Sequences
  import opened Orders
  import opened JsonSpec
  import opened JsonRoundTrip
  import opened JsonParser

  /** Quotes, backslashes and three control characters have short escapes, the
      other control characters their code with small digits; nothing else is
      escaped. */
  lemma EscapesExactly(c: char)
    ensures c == '"' ==> Escape(c) == "\\\""
    ensures c == '\\' ==> Escape(c) == "\\\\"
    ensures c == '\U{000A}' ==> Escape(c) == "\\n"
    ensures c == '\U{000D}' ==> Escape(c) == "\\r"
    ensures c == '\U{0009}' ==> Escape(c) == "\\t"
    ensures (c as int) < 0x20 && c !in {'\U{000A}', '\U{000D}', '\U{0009}'} ==>
      Escape(c) == "\\u00" + ["0123456789abcdef"[c as int / 0x10], "0123456789abcdef"[c as int % 0x10]]
    ensures 0x20 <= c as int && c != '"' && c != '\\' ==> Escape(c) == [c]
  {
    if (c as int) < 0x20 {
      SmallDigit(c as int / 0x10);
      SmallDigit(c as int % 0x10);
    }
  }

  lemma SmallDigit(d: int)
    requires 0 <= d < 0x10
    ensures HexDigit(d) == "0123456789abcdef"[d]
  {
  }

  ghost function Escapes(s: string): (pieces: seq<string>)
    ensures |pieces| == |s| && forall i | 0 <= i < |s| :: pieces[i] == Escape(s[i])
  {
    seq(|s|, i requires 0 <= i < |s| => Escape(s[i]))
  }

  /** A string is its escapes, in order, between quotes. */
  lemma {:induction false} EscapedIsFlat(s: string)
    ensures Escaped(s) == Flat(Escapes(s))
    decreases |s|
  {
    hide Escape;
    if s != [] {
      EscapedIsFlat(s[1..]);
      assert Escapes(s) == [Escape(s[0])] + Escapes(s[1..]);
      FlatFirst(Escape(s[0]), Escapes(s[1..]));
    }
  }

  lemma {:induction false} FlatFirst(piece: string, pieces: seq<string>)
    ensures Flat([piece] + pieces) == piece + Flat(pieces)
    decreases |pieces|
  {
    var all := [piece] + pieces;
    if pieces == [] {
      assert all[..0] == [] && all[0] == piece;
    } else {
      var n := |pieces| - 1;
      assert all[..|all| - 1] == [piece] + pieces[..n];
      FlatFirst(piece, pieces[..n]);
    }
  }

  /** The items, the later ones after a comma. */
  ghost function ItemPieces(v: Json, i: nat): (pieces: seq<string>)
    requires v.Arr? && i <= |v.items|
    ensures |pieces| == |v.items| - i
    ensures forall k | 0 <= k < |pieces| :: pieces[k] == (if i + k > 0 then "," else "") + Text(v.items[i + k])
  {
    seq(|v.items| - i, k requires 0 <= k < |v.items| - i => (if i + k > 0 then "," else "") + Text(v.items[i + k]))
  }

  lemma ItemPiecesFirst(v: Json, i: nat)
    requires v.Arr? && i < |v.items|
    ensures ItemPieces(v, i) == [(if i > 0 then "," else "") + Text(v.items[i])] + ItemPieces(v, i + 1)
  {
    hide *;
    var all, more := ItemPieces(v, i), ItemPieces(v, i + 1);
    forall k | 1 <= k < |all| ensures all[k] == more[k - 1] {
      assert more[k - 1] == (if i + 1 + (k - 1) > 0 then "," else "") + Text(v.items[i + 1 + (k - 1)]);
    }
  }

  lemma ItemFirst(v: Json, i: nat) returns (first: string)
    requires v.Arr? && i < |v.items|
    ensures ItemsLeft(v, i) == first + ItemsLeft(v, i + 1) && ItemPieces(v, i) == [first] + ItemPieces(v, i + 1)
  {
    hide Text, ItemsText;
    first := (if i > 0 then "," else "") + Text(v.items[i]);
    ItemsLeftStep(v, i, "");
    hide *;
    ItemPiecesFirst(v, i);
    assert "" + ItemsLeft(v, i) == ItemsLeft(v, i);
    assert "" + "," == ",";
  }

  lemma {:induction false} ItemsAreFlat(v: Json, i: nat)
    requires v.Arr? && i <= |v.items|
    ensures ItemsLeft(v, i) == Flat(ItemPieces(v, i)) + "]"
    decreases |v.items| - i
  {
    hide ItemsText, Text;
    if i < |v.items| {
      hide *;
      ItemsAreFlat(v, i + 1);
      var first := ItemFirst(v, i);
      FlatFirst(first, ItemPieces(v, i + 1));
      Append(first, Flat(ItemPieces(v, i + 1)), "]");
    }
  }

  /** The fields under the keys, the later ones after a comma. */
  ghost function FieldPieces(v: Json, keys: seq<string>, i: nat): (pieces: seq<string>)
    requires v.Obj? && i <= |keys| == |v.fields| && forall k | k in keys :: k in v.fields
    ensures |pieces| == |keys| - i
    ensures forall k | 0 <= k < |pieces| ::
      keys[i + k] in v.fields
      && pieces[k] == (if i + k > 0 then "," else "") + Quoted(keys[i + k]) + ":" + Text(v.fields[keys[i + k]])
  {
    hide Text, Quoted;
    seq(|keys| - i, k requires 0 <= k < |keys| - i =>
      assert keys[i + k] in keys; (if i + k > 0 then "," else "") + Quoted(keys[i + k]) + ":" + Text(v.fields[keys[i + k]]))
  }

  lemma FieldPiecesFirst(v: Json, keys: seq<string>, i: nat)
    requires v.Obj? && i < |keys| == |v.fields| && forall k | k in keys :: k in v.fields
    ensures FieldPieces(v, keys, i)
      == [(if i > 0 then "," else "") + Quoted(keys[i]) + ":" + Text(v.fields[keys[i]])] + FieldPieces(v, keys, i + 1)
  {
    hide *;
    var all, more := FieldPieces(v, keys, i), FieldPieces(v, keys, i + 1);
    forall k | 1 <= k < |all| ensures all[k] == more[k - 1] {
      var at := keys[i + 1 + (k - 1)];
      assert at == keys[i + k] && at in keys;
      assert more[k - 1] == (if i + 1 + (k - 1) > 0 then "," else "") + Quoted(at) + ":" + Text(v.fields[at]);
    }
  }

  lemma FieldFirst(v: Json, keys: seq<string>, i: nat) returns (first: string)
    requires v.Obj? && i < |keys| == |v.fields| && forall k | k in keys :: k in v.fields
    ensures FieldsLeft(v, keys, i) == first + FieldsLeft(v, keys, i + 1)
    ensures FieldPieces(v, keys, i) == [first] + FieldPieces(v, keys, i + 1)
  {
    hide Text, FieldsText, Quoted;
    assert keys[i] in keys;
    first := (if i > 0 then "," else "") + Quoted(keys[i]) + ":" + Text(v.fields[keys[i]]);
    FieldsLeftStep(v, keys, i, "");
    hide *;
    FieldPiecesFirst(v, keys, i);
    assert "" + FieldsLeft(v, keys, i) == FieldsLeft(v, keys, i);
    assert "" + "," == ",";
  }

  lemma {:induction false} FieldsAreFlat(v: Json, keys: seq<string>, i: nat)
    requires v.Obj? && i <= |keys| == |v.fields| && forall k | k in keys :: k in v.fields
    ensures FieldsLeft(v, keys, i) == Flat(FieldPieces(v, keys, i)) + "}"
    decreases |keys| - i
  {
    hide FieldsText, Text;
    if i < |keys| {
      hide *;
      FieldsAreFlat(v, keys, i + 1);
      var first := FieldFirst(v, keys, i);
      FlatFirst(first, FieldPieces(v, keys, i + 1));
      Append(first, Flat(FieldPieces(v, keys, i + 1)), "}");
    }
  }

  /** The text of every value: constants as words, numbers as they are, strings
      escaped, items and fields joined with commas and nothing else. */
  lemma TextExactly(v: Json)
    ensures v == Null ==> Text(v) == "null"
    ensures v == Bool(true) ==> Text(v) == "true"
    ensures v == Bool(false) ==> Text(v) == "false"
    ensures v.Num? ==> Text(v) == v.lexeme
    ensures v.Str? ==> Text(v) == "\"" + Flat(Escapes(v.s)) + "\""
    ensures v.Arr? ==> Text(v) == "[" + (Flat(ItemPieces(v, 0)) + "]")
    ensures v.Obj? ==> Text(v) == "{" + (Flat(FieldPieces(v, Keys(v), 0)) + "}")
  {
    if v.Str? { EscapedIsFlat(v.s); }
    if v.Arr? { ItemsAreFlat(v, 0); }
    if v.Obj? { FieldsAreFlat(v, Keys(v), 0); }
    BracketsLeft(v, "");
    hide ItemsText, FieldsText, Keys;
    assert "" + Text(v) == Text(v);
    assert "" + "[" == "[" && "" + "{" == "{";
  }

  /** The fields stand in the order of their keys. */
  lemma KeysAscend(v: Json)
    requires v.Obj?
    ensures forall k :: k in Keys(v) <==> k in v.fields
    ensures forall i, j | 0 <= i < j < |Keys(v)| :: StringPrecedes(Keys(v)[i], Keys(v)[j])
  {
    var keys := Keys(v);
    forall i, j | 0 <= i < j < |keys| ensures StringPrecedes(keys[i], keys[j]) { StringLessExactly(keys[i], keys[j]); }
  }
}
