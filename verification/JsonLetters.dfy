/** The characters of a string and all the ways they are written. */
module JsonLetters {
  import opened Wrappers
  import opened JsonSpec
  import opened JsonRoundTrip

  /* ---------- Escapes ---------- */

  /** A hexadecimal digit in either case. */
  ghost predicate HexIs(c: char, d: int) {
    0 <= d < 16 && ("0123456789abcdef"[d] == c || "0123456789ABCDEF"[d] == c)
  }

  /** Four characters for a code unit; the first may be a plus sign. */
  ghost predicate Spells(h: string, i: int, j: int, k: int, l: int) {
    |h| == 4 && (HexIs(h[0], i) || (h[0] == '+' && i == 0)) && HexIs(h[1], j) && HexIs(h[2], k) && HexIs(h[3], l)
  }

  ghost predicate UnitIs(h: string, n: int) {
    exists i, j, k, l :: Spells(h, i, j, k, l) && n == 0x1000 * i + 0x100 * j + 0x10 * k + l
  }

  lemma HexExactly(c: char)
    ensures forall d :: HexValue(c) == Some(d) <==> HexIs(c, d)
    ensures HexValue('+') == None
  {
    forall d ensures HexValue(c) == Some(d) <==> HexIs(c, d) {
      if 0 <= d < 16 { assert "0123456789abcdef"[d] == (if d < 10 then '0' + d as char else 'a' + (d - 10) as char); }
    }
  }

  /** A number in base 16 followed by one more character. */
  function Shifted(r: Option<nat>, c: char): Option<nat> {
    if r.Some? && HexValue(c).Some? then Some(r.value * 16 + HexValue(c).value) else None
  }

  lemma Radix16More(s: string, c: char)
    ensures Radix16(s + [c]) == Shifted(Radix16(s), c) && Radix16([]) == Some(0)
  {
    assert (s + [c])[..|s|] == s;
  }

  lemma Radix16Three(b: char, c: char, d: char)
    ensures Radix16([b, c, d]) == Shifted(Shifted(Shifted(Some(0), b), c), d)
  {
    hide *;
    Radix16More([], b);
    Radix16More([b], c);
    Radix16More([b, c], d);
    assert [] + [b] == [b] && [b] + [c] == [b, c] && [b, c] + [d] == [b, c, d];
  }

  lemma Radix16Four(a: char, b: char, c: char, d: char)
    ensures Radix16([a, b, c, d]) == Shifted(Shifted(Shifted(Shifted(Some(0), a), b), c), d)
  {
    hide *;
    Radix16More([a, b, c], d);
    assert [a, b, c] + [d] == [a, b, c, d];
    Radix16Three(a, b, c);
    Radix16Three(a, b, c);
  }

  function First(c: char): Option<nat> { if c == '+' then Some(0) else HexValue(c) }

  lemma SpellsExactly(a: char, b: char, c: char, d: char)
    ensures forall i, j, k, l :: Spells([a, b, c, d], i, j, k, l) <==>
      First(a) == Some(i) && HexValue(b) == Some(j) && HexValue(c) == Some(k) && HexValue(d) == Some(l)
  {
    HexExactly(a);
    HexExactly(b);
    HexExactly(c);
    HexExactly(d);
    hide HexValue, HexIs;
  }

  lemma UnitExactly(a: char, b: char, c: char, d: char, n: nat)
    ensures Shifted(Shifted(Shifted(First(a), b), c), d) == Some(n) <==> UnitIs([a, b, c, d], n)
  {
    SpellsExactly(a, b, c, d);
    hide HexValue, First, Spells;
    var w, x, y, z := First(a), HexValue(b), HexValue(c), HexValue(d);
    if w.Some? && x.Some? && y.Some? && z.Some? {
      assert Spells([a, b, c, d], w.value, x.value, y.value, z.value);
    }
  }

  /** Reading four characters gives exactly the code unit they stand for. */
  lemma Hex4Exactly(s: string, n: nat)
    requires |s| >= 4
    ensures Hex4(s) == Got(n, s[4..]) <==> UnitIs(s[..4], n)
  {
    var a, b, c, d := s[0], s[1], s[2], s[3];
    assert s[..4] == [a, b, c, d] && s[1..4] == [b, c, d];
    Radix16Three(b, c, d);
    Radix16Four(a, b, c, d);
    UnitExactly(a, b, c, d, n);
    assert Shifted(Some(0), a) == HexValue(a);
    hide Radix16, HexValue, UnitIs, Shifted;
  }

  /* ---------- Characters of a string ---------- */

  /** One character of a string as written. */
  datatype Piece =
    | Plain(c: char)
    | Simple(e: char)
    | Unit(h: string, n: int)
    | Pair(h: string, high: int, l: string, low: int)

  /** Its text, followed by `rest`. */
  function PieceText(p: Piece, rest: string): string {
    match p
    case Plain(c) => [c] + rest
    case Simple(e) => "\\" + ([e] + rest)
    case Unit(h, _) => "\\u" + (h + rest)
    case Pair(h, _, l, _) => "\\u" + (h + ("\\u" + (l + rest)))
  }

  /** It is well-formed and stands for `c`. The second unit of a pair is not
      bounded by the low surrogates, but by the last scalar value. */
  ghost predicate Stands(p: Piece, c: char) {
    match p
    case Plain(x) => x == c && x != '"' && x != '\\'
    case Simple(e) =>
      (e, c) in {('"', '"'), ('\\', '\\'), ('/', '/'), ('n', '\U{000A}'), ('r', '\U{000D}'), ('t', '\U{0009}'),
                 ('b', '\U{0008}'), ('f', '\U{000C}')}
    case Unit(h, n) => UnitIs(h, n) && n == c as int
    case Pair(h, high, l, low) =>
      UnitIs(h, high) && UnitIs(l, low) && 0xD800 <= high <= 0xDBFF && 0xDC00 <= low
      && c as int == 0x10000 + (high - 0xD800) * 0x400 + (low - 0xDC00)
  }

  lemma UnitRead(h: string, n: int, rest: string)
    requires UnitIs(h, n)
    ensures 0 <= n < 0x10000 && Hex4(h + rest) == Got(n, rest)
  {
    assert (h + rest)[..4] == h && (h + rest)[4..] == rest;
    Hex4Exactly(h + rest, n);
    hide Hex4;
  }

  lemma PieceRead(p: Piece, c: char, rest: string)
    requires Stands(p, c)
    ensures var s := PieceText(p, rest); s != [] && s[0] != '"' && CharOf(s) == Got(c, rest)
  {
    hide Hex4, UnitIs;
    match p
    case Plain(_) =>
    case Simple(e) => assert PieceText(p, rest)[2..] == rest;
    case Unit(h, n) =>
      assert PieceText(p, rest)[2..] == h + rest;
      UnitRead(h, n, rest);
    case Pair(h, high, l, low) =>
      var t := "\\u" + (l + rest);
      assert PieceText(p, rest)[2..] == h + t && t[2..] == l + rest;
      UnitRead(h, high, t);
      UnitRead(l, low, rest);
  }

  lemma UnitOf(s: string) returns (h: string)
    requires Hex4(s).Got?
    ensures UnitIs(h, Hex4(s).value) && s == h + Hex4(s).rest
  {
    h := s[..4];
    Hex4Exactly(s, Hex4(s).value);
    hide Hex4, UnitIs;
    assert s == h + s[4..];
  }

  lemma {:induction false} PieceOf(s: string) returns (p: Piece)
    requires s != [] && s[0] != '"' && CharOf(s).Got?
    ensures Stands(p, CharOf(s).value) && s == PieceText(p, CharOf(s).rest)
  {
    hide Hex4, UnitIs;
    if s[0] != '\\' {
      p := Plain(s[0]);
    } else if s[1] != 'u' {
      p := Simple(s[1]);
      assert s == "\\" + ([s[1]] + s[2..]);
    } else {
      p := EscapeOf(s[2..]);
      assert s == "\\u" + s[2..];
    }
  }

  lemma {:induction false} EscapeOf(s: string) returns (p: Piece)
    requires UnicodeEscape(s).Got?
    ensures Stands(p, UnicodeEscape(s).value) && "\\u" + s == PieceText(p, UnicodeEscape(s).rest)
  {
    hide Hex4, UnitIs;
    var h := UnitOf(s);
    var high, rest := Hex4(s).value, Hex4(s).rest;
    if 0xD800 <= high <= 0xDBFF {
      var l := UnitOf(rest[2..]);
      p := Pair(h, high, l, Hex4(rest[2..]).value);
      assert rest == "\\u" + rest[2..];
    } else {
      p := Unit(h, high);
    }
  }

  /** What a scalar value beyond 0xFFFF is written as: both of its UTF-16 code
      units, in any case of the digits. */
  lemma SurrogatePairRead(c: char, h: string, l: string, rest: string)
    requires c as int >= 0x10000
    requires UnitIs(h, 0xD800 + (c as int - 0x10000) / 0x400) && UnitIs(l, 0xDC00 + (c as int - 0x10000) % 0x400)
    ensures CharOf("\\u" + (h + ("\\u" + (l + rest)))) == Got(c, rest)
  {
    hide CharOf, UnitIs;
    PieceRead(Pair(h, 0xD800 + (c as int - 0x10000) / 0x400, l, 0xDC00 + (c as int - 0x10000) % 0x400), c, rest);
  }

  /** Any other is written as its code. */
  lemma UnitEscapeRead(c: char, h: string, rest: string)
    requires UnitIs(h, c as int)
    ensures CharOf("\\u" + (h + rest)) == Got(c, rest)
  {
    hide CharOf, UnitIs;
    PieceRead(Unit(h, c as int), c, rest);
  }

  lemma SimpleEscapesRead(rest: string)
    ensures CharOf("\\\"" + rest) == Got('"', rest) && CharOf("\\\\" + rest) == Got('\\', rest)
      && CharOf("\\/" + rest) == Got('/', rest)
    ensures CharOf("\\b" + rest) == Got('\U{0008}', rest) && CharOf("\\f" + rest) == Got('\U{000C}', rest)
    ensures CharOf("\\n" + rest) == Got('\U{000A}', rest) && CharOf("\\r" + rest) == Got('\U{000D}', rest)
      && CharOf("\\t" + rest) == Got('\U{0009}', rest)
  {
    forall e, c | Stands(Simple(e), c) ensures CharOf("\\" + [e] + rest) == Got(c, rest) {
      PieceRead(Simple(e), c, rest);
      assert "\\" + ([e] + rest) == "\\" + [e] + rest;
    }
  }

  /* ---------- Strings ---------- */

  /** A character of a string with the way it is written. */
  datatype Letter = Letter(c: char, piece: Piece)

  ghost predicate Spelled(letters: seq<Letter>) { forall i | 0 <= i < |letters| :: Stands(letters[i].piece, letters[i].c) }

  function Spelling(letters: seq<Letter>): string { seq(|letters|, i requires 0 <= i < |letters| => letters[i].c) }

  function LettersText(letters: seq<Letter>, rest: string): string {
    if letters == [] then rest else PieceText(letters[0].piece, LettersText(letters[1..], rest))
  }

  lemma {:induction false} LettersRead(letters: seq<Letter>, out: string, rest: string)
    requires Spelled(letters)
    ensures StringOf(LettersText(letters, "\"" + rest), out) == Got(out + Spelling(letters), rest)
    decreases |letters|
  {
    if letters == [] {
      Cons('"', rest);
      assert out + Spelling(letters) == out;
    } else {
      var x, more := letters[0], LettersText(letters[1..], "\"" + rest);
      PieceRead(x.piece, x.c, more);
      hide PieceText, Stands, CharOf, StringOf;
      StringAt(PieceText(x.piece, more), x.c, more, out);
      LettersRead(letters[1..], out + [x.c], rest);
      assert out + [x.c] + Spelling(letters[1..]) == out + Spelling(letters);
    }
  }

  lemma {:induction false} LettersOf(s: string, out: string) returns (letters: seq<Letter>)
    requires StringOf(s, out).Got?
    ensures Spelled(letters) && StringOf(s, out).value == out + Spelling(letters)
    ensures s == LettersText(letters, "\"" + StringOf(s, out).rest)
    decreases |s|
  {
    hide CharOf, Stands, PieceText;
    if s[0] == '"' {
      letters := [];
      assert s == "\"" + s[1..] && out + Spelling([]) == out;
    } else {
      var x := CharOf(s);
      var p := PieceOf(s);
      var more := LettersOf(x.rest, out + [x.value]);
      letters := [Letter(x.value, p)] + more;
      assert letters[1..] == more && out + [x.value] + Spelling(more) == out + Spelling(letters);
    }
  }
}
