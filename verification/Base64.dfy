/** Standard base64 with padding: an encoder by three-byte chunks and a decoder
    that folds six bits at a time into a 32-bit accumulator. */
module Base64 {
  import opened Wrappers

  const UPPER := "ABCDEFGHIJKLMNOPQRSTUVWXYZ"
  const LOWER := "abcdefghijklmnopqrstuvwxyz"
  const DIGITS := "0123456789"
  const ALPHABET := UPPER + LOWER + DIGITS + "+/"

  type sextet = x: int | 0 <= x < 64

  /** The value of a character of the alphabet. */
  function Val(c: char): Option<sextet> {
    if 'A' <= c <= 'Z' then Some((c - 'A') as int)
    else if 'a' <= c <= 'z' then Some((c - 'a') as int + 26)
    else if '0' <= c <= '9' then Some((c - '0') as int + 52)
    else if c == '+' then Some(62)
    else if c == '/' then Some(63)
    else None
  }

  predicate Skipped(c: char) { c == '=' || c == ' ' || c == '\t' || c == '\n' || c == '\r' || c == '\U{000C}' }

  lemma Letters()
    ensures |UPPER| == 26 && |LOWER| == 26 && |DIGITS| == 10
    ensures forall i | 0 <= i < 26 :: UPPER[i] == 'A' + i as char
    ensures forall i | 0 <= i < 26 :: LOWER[i] == 'a' + i as char
    ensures forall i | 0 <= i < 10 :: DIGITS[i] == '0' + i as char
  {
  }

  lemma AlphabetAt(x: sextet)
    ensures |ALPHABET| == 64
    ensures x < 26 ==> ALPHABET[x] == 'A' + x as char
    ensures 26 <= x < 52 ==> ALPHABET[x] == 'a' + (x - 26) as char
    ensures 52 <= x < 62 ==> ALPHABET[x] == '0' + (x - 52) as char
    ensures x == 62 ==> ALPHABET[x] == '+'
    ensures x == 63 ==> ALPHABET[x] == '/'
  {
    Letters();
    hide UPPER, LOWER, DIGITS;
  }

  /** A sextet's character has that sextet's value. */
  lemma ValOfAlphabet(x: sextet)
    ensures |ALPHABET| == 64 && Val(ALPHABET[x]) == Some(x) && !Skipped(ALPHABET[x])
  {
    AlphabetAt(x);
    hide ALPHABET;
  }

  /* ---------- Bytes and sextets ---------- */

  /** The `k`-th sextet of three bytes. */
  function Sextet(k: int, b0: int, b1: int, b2: int): sextet
    requires 0 <= b0 < 256 && 0 <= b1 < 256 && 0 <= b2 < 256
  {
    if k == 0 then b0 / 4 else if k == 1 then b0 % 4 * 16 + b1 / 16 else if k == 2 then b1 % 16 * 4 + b2 / 64 else b2 % 64
  }

  /** The bits of the bytes, six at a time, zero-filled to a whole sextet. */
  function Packed(data: Bytes): seq<sextet> {
    if data == [] then []
    else
      var b0, b1, b2 := data[0], if |data| > 1 then data[1] else 0, if |data| > 2 then data[2] else 0;
      if |data| == 1 then [Sextet(0, b0, b1, b2), Sextet(1, b0, b1, b2)]
      else if |data| == 2 then [Sextet(0, b0, b1, b2), Sextet(1, b0, b1, b2), Sextet(2, b0, b1, b2)]
      else [Sextet(0, b0, b1, b2), Sextet(1, b0, b1, b2), Sextet(2, b0, b1, b2), Sextet(3, b0, b1, b2)] + Packed(data[3..])
  }

  /** The byte that a sextet at position `k` of its group of four completes with
      the sextet before it. */
  function Completed(k: int, last: int, x: int): byte
    requires 0 <= last < 64 && 0 <= x < 64
  {
    if k == 1 then last * 4 + x / 16 else if k == 2 then last % 16 * 16 + x / 4 else last % 4 * 64 + x
  }

  /** The bits of the sextets, eight at a time, an incomplete byte dropped. */
  function Unpacked(ss: seq<sextet>): Bytes {
    if |ss| < 2 then []
    else if |ss| == 2 then [Completed(1, ss[0], ss[1])]
    else if |ss| == 3 then [Completed(1, ss[0], ss[1]), Completed(2, ss[1], ss[2])]
    else [Completed(1, ss[0], ss[1]), Completed(2, ss[1], ss[2]), Completed(3, ss[2], ss[3])] + Unpacked(ss[4..])
  }

  lemma ThreeBytes(b0: int, b1: int, b2: int)
    requires 0 <= b0 < 256 && 0 <= b1 < 256 && 0 <= b2 < 256
    ensures Completed(1, Sextet(0, b0, b1, b2), Sextet(1, b0, b1, b2)) == b0
    ensures Completed(2, Sextet(1, b0, b1, b2), Sextet(2, b0, b1, b2)) == b1
    ensures Completed(3, Sextet(2, b0, b1, b2), Sextet(3, b0, b1, b2)) == b2
  {
  }

  lemma {:induction false} UnpackPacked(data: Bytes)
    ensures Unpacked(Packed(data)) == data
  {
    hide Completed, Sextet;
    if |data| >= 3 {
      ThreeBytes(data[0], data[1], data[2]);
      UnpackPacked(data[3..]);
      assert Packed(data)[4..] == Packed(data[3..]);
    } else if |data| == 2 {
      ThreeBytes(data[0], data[1], 0);
    } else if |data| == 1 {
      ThreeBytes(data[0], 0, 0);
    }
  }

  /** One more sextet, the first after whole groups or later, gives at most one
      more byte, from it and the one before. */
  lemma {:induction false} UnpackedMore(ss: seq<sextet>, x: sextet, groups: nat, k: nat)
    requires |ss| == 4 * groups + k && k < 4
    ensures Unpacked(ss + [x]) == Unpacked(ss) + if k == 0 then [] else [Completed(k, ss[|ss| - 1], x)]
    decreases groups
  {
    hide Completed;
    if groups > 0 {
      UnpackedMore(ss[4..], x, groups - 1, k);
      assert (ss + [x])[4..] == ss[4..] + [x];
    }
  }

  /* ---------- Texts ---------- */

  /** The values of the characters that count, None if one is invalid. */
  function Sextets(text: string): Option<seq<sextet>> {
    if text == [] then Some([])
    else
      match Sextets(text[..|text| - 1])
      case None => None
      case Some(ss) =>
        var c := text[|text| - 1];
        if Skipped(c) then Some(ss) else if Val(c).Some? then Some(ss + [Val(c).value]) else None
  }

  function Decoded(text: string): Option<Bytes> {
    match Sextets(text) case None => None case Some(ss) => Some(Unpacked(ss))
  }

  function Chars(ss: seq<sextet>): (text: string)
    ensures |text| == |ss| && |ALPHABET| == 64 && forall i | 0 <= i < |ss| :: text[i] == ALPHABET[ss[i]]
  {
    seq(|ss|, i requires 0 <= i < |ss| => ValOfAlphabet(ss[i]); ALPHABET[ss[i]])
  }

  /** One `=` for each byte the last chunk lacks. */
  function Padding(data: Bytes): string {
    if data == [] then "" else if |data| == 1 then "==" else if |data| == 2 then "=" else Padding(data[3..])
  }

  function Encoded(data: Bytes): string { Chars(Packed(data)) + Padding(data) }

  lemma {:induction false} SextetsConcat(a: string, b: string)
    ensures Sextets(a + b) ==
      if Sextets(a).Some? && Sextets(b).Some? then Some(Sextets(a).value + Sextets(b).value) else None
    decreases |b|
  {
    if b == [] {
      assert a + b == a;
      if Sextets(a).Some? { assert Sextets(a).value + [] == Sextets(a).value; }
    } else {
      hide Val, Skipped;
      var n := |b| - 1;
      SextetsConcat(a, b[..n]);
      assert (a + b)[..|a + b| - 1] == a + b[..n] && (a + b)[|a + b| - 1] == b[n];
      if Sextets(a).Some? && Sextets(b[..n]).Some? && Val(b[n]).Some? {
        assert Sextets(a).value + Sextets(b[..n]).value + [Val(b[n]).value] == Sextets(a).value + (Sextets(b[..n]).value + [Val(b[n]).value]);
      }
    }
  }

  lemma {:induction false} SextetsOfChars(ss: seq<sextet>)
    ensures Sextets(Chars(ss)) == Some(ss)
    decreases |ss|
  {
    hide ALPHABET, UPPER, LOWER, DIGITS, Val, Skipped;
    if ss != [] {
      var n, text := |ss| - 1, Chars(ss);
      SextetsOfChars(ss[..n]);
      ValOfAlphabet(ss[n]);
      assert text[..n] == Chars(ss[..n]);
      SextetsMore(text, n, ss[..n]);
      assert text[..n + 1] == text && ss == ss[..n] + [ss[n]];
    }
  }

  lemma SextetsOfPadding(data: Bytes)
    ensures Sextets(Padding(data)) == Some([])
  {
    assert "=="[..1] == "=" && "="[..0] == "";
  }

  /** Decoding an encoding gives back the bytes. */
  lemma RoundTrip(data: Bytes)
    ensures Decoded(Encoded(data)) == Some(data)
  {
    SextetsOfEncoded(data);
    UnpackPacked(data);
  }

  /** Four characters for every three bytes or part of them. */
  lemma {:induction false} EncodedLength(data: Bytes, chunks: nat, k: nat)
    requires |data| == 3 * chunks + k && k < 3
    ensures |Encoded(data)| == 4 * if k == 0 then chunks else chunks + 1
    decreases chunks
  {
    if chunks > 0 { EncodedLength(data[3..], chunks - 1, k); }
    hide ALPHABET;
  }

  /** Decoding fails exactly on a character that is neither of the alphabet nor
      skipped; padding may stand anywhere and no length is malformed. */
  lemma {:induction false} RejectsExactly(text: string)
    ensures Decoded(text) == None <==> exists i :: 0 <= i < |text| && !Skipped(text[i]) && Val(text[i]) == None
    decreases |text|
  {
    if text != [] {
      var n := |text| - 1;
      RejectsExactly(text[..n]);
      assert forall i | 0 <= i < n :: text[..n][i] == text[i];
      assert (exists i :: 0 <= i < |text| && !Skipped(text[i]) && Val(text[i]) == None)
        <==> (exists i :: 0 <= i < n && !Skipped(text[..n][i]) && Val(text[..n][i]) == None) || (!Skipped(text[n]) && Val(text[n]) == None);
    }
  }

  /** Bytes pack to no sextets over whole groups of four, or to two or three. */
  lemma {:induction false} PackedLength(data: Bytes) returns (groups: nat)
    ensures |Packed(data)| in {4 * groups, 4 * groups + 2, 4 * groups + 3}
    decreases |data|
  {
    if |data| >= 3 {
      groups := PackedLength(data[3..]);
      groups := groups + 1;
    } else {
      groups := 0;
    }
  }

  /** A text with one sextet over whole groups is no encoding, yet it decodes
      without complaint: its incomplete last byte is dropped. */
  lemma TruncationUnnoticed(text: string, ss: seq<sextet>)
    requires Sextets(text) == Some(ss) && |ss| % 4 == 1
    ensures Decoded(text) == Some(Unpacked(ss[..|ss| - 1]))
    ensures forall data :: text != Encoded(data)
  {
    hide *;
    var n := |ss| - 1;
    UnpackedMore(ss[..n], ss[n], n / 4, 0);
    assert ss == ss[..n] + [ss[n]];
    assert Unpacked(ss[..n]) + [] == Unpacked(ss[..n]);
    DecodedIs(text, ss);
    forall data ensures text != Encoded(data) {
      var groups := PackedLength(data);
      SextetsOfEncoded(data);
    }
  }

  lemma DecodedIs(text: string, ss: seq<sextet>)
    requires Sextets(text) == Some(ss)
    ensures Decoded(text) == Some(Unpacked(ss))
  {
    hide Sextets, Unpacked;
  }

  lemma SextetsOfEncoded(data: Bytes)
    ensures Sextets(Encoded(data)) == Some(Packed(data))
  {
    SextetsOfChars(Packed(data));
    SextetsOfPadding(data);
    SextetsConcat(Chars(Packed(data)), Padding(data));
    assert Packed(data) + [] == Packed(data);
  }

  /* ---------- Characters and chunks ---------- */

  /** The padding character and the ASCII whitespace are skipped, no other. */
  lemma SkippedExactly(c: char)
    ensures Skipped(c) <==> c == '=' || c as int in {0x20, 0x09, 0x0A, 0x0C, 0x0D}
  {
  }

  /** A character counts exactly as its place in the alphabet. */
  lemma ValExactly(c: char)
    ensures |ALPHABET| == 64 && forall x: sextet :: Val(c) == Some(x) <==> ALPHABET[x] == c
  {
    forall x: sextet ensures |ALPHABET| == 64 && (Val(c) == Some(x) <==> ALPHABET[x] == c) { AlphabetAt(x); }
    hide ALPHABET;
    AlphabetAt(0);
  }

  /** One character of a text, of which all others are independent. */
  lemma SextetsOfOne(c: char)
    ensures Sextets([c]) == if Skipped(c) then Some([]) else if Val(c).Some? then Some([Val(c).value]) else None
  {
    hide Val, Skipped;
    assert [c][..0] == [] && [c][0] == c;
    assert Sextets([]) == Some([]);
    assert Val(c).Some? ==> [] + [Val(c).value] == [Val(c).value];
  }

  /** Whole chunks one after another, each the four 6-bit groups of 24 bits. */
  lemma WholeChunkIs(data: Bytes)
    requires |data| >= 3
    ensures |ALPHABET| == 64
    ensures var n := data[0] as int * 0x10000 + data[1] as int * 0x100 + data[2] as int;
      Encoded(data)
      == [ALPHABET[n / 0x40000], ALPHABET[n / 0x1000 % 64], ALPHABET[n / 0x40 % 64], ALPHABET[n % 64]] + Encoded(data[3..])
  {
    var n := data[0] as int * 0x10000 + data[1] as int * 0x100 + data[2] as int;
    NothingEncoded("", data);
    TopSextet(n);
    ChunkEncoded(data, data[1], data[2], n);
    hide Encoded, ALPHABET, UPPER, LOWER, DIGITS;
    assert |data| == 3 ==> data[3..] == [];
  }

  /** A last chunk of two bytes or one is filled with zeros and padded. */
  lemma LastChunkIs(data: Bytes)
    requires 1 <= |data| <= 2
    ensures |ALPHABET| == 64 && Encoded([]) == ""
    ensures var n := data[0] as int * 0x10000 + if |data| == 2 then data[1] as int * 0x100 else 0;
      Encoded(data)
      == [ALPHABET[n / 0x40000], ALPHABET[n / 0x1000 % 64], if |data| == 2 then ALPHABET[n / 0x40 % 64] else '=', '=']
  {
    var b1: int := if |data| == 2 then data[1] else 0;
    var n := data[0] as int * 0x10000 + b1 * 0x100;
    NothingEncoded("", data);
    TopSextet(n);
    ChunkEncoded(data, b1, 0, n);
    hide Encoded, ALPHABET, UPPER, LOWER, DIGITS;
    var four := FourChars(n / 0x40000 % 64, n / 0x1000 % 64, n / 0x40 % 64, n % 64, |data|);
    assert four + "" == four;
  }

  lemma TopSextet(n: int)
    requires 0 <= n < 0x1000000
    ensures 0 <= n / 0x40000 < 64 && n / 0x40000 % 64 == n / 0x40000
  {
    DivUnique(n / 0x40000, 64, 0, n / 0x40000);
  }

  /** Three bytes for every four sextets, two for three left over and one for
      two, each with its own bits. */
  lemma {:induction false} UnpackedAt(ss: seq<sextet>, g: nat)
    ensures |Unpacked(ss)| == |ss| * 3 / 4
    ensures 4 * g + 1 < |ss| ==> Unpacked(ss)[3 * g] == ss[4 * g] as int * 4 + ss[4 * g + 1] as int / 16
    ensures 4 * g + 2 < |ss| ==> Unpacked(ss)[3 * g + 1] == ss[4 * g + 1] as int % 16 * 16 + ss[4 * g + 2] as int / 4
    ensures 4 * g + 3 < |ss| ==> Unpacked(ss)[3 * g + 2] == ss[4 * g + 2] as int % 4 * 64 + ss[4 * g + 3] as int
    decreases |ss|
  {
    if |ss| >= 4 { UnpackedAt(ss[4..], if g > 0 then g - 1 else 0); }
  }

  /* ---------- The programs ---------- */

  /** By chunks of three bytes, each as one 24-bit number. */
  method Encode(data: Bytes) returns (out: string)
    ensures out == Encoded(data)
  {
    hide *;
    out := "";
    var rest := data;
    NothingEncoded(out, data);
    while rest != []
      invariant Encoded(data) == out + Encoded(rest) && |ALPHABET| == 64 && (rest == [] ==> Encoded(rest) == "")
      decreases |rest|
    {
      var chunk := if |rest| > 3 then rest[..3] else rest;
      var b0: int := chunk[0];
      var b1: int := if |chunk| > 1 then chunk[1] else 0;
      var b2: int := if |chunk| > 2 then chunk[2] else 0;
      var n := b0 * 0x10000 + b1 * 0x100 + b2;
      ChunkEncoded(rest, b1, b2, n);
      var i0, i1, i2, i3 := n / 0x40000 % 64, n / 0x1000 % 64, n / 0x40 % 64, n % 64;
      ghost var out0, four := out, FourChars(i0, i1, i2, i3, |chunk|);
      out := out + [ALPHABET[i0]];
      out := out + [ALPHABET[i1]];
      if |chunk| > 1 { out := out + [ALPHABET[i2]]; } else { out := out + "="; }
      if |chunk| > 2 { out := out + [ALPHABET[i3]]; } else { out := out + "="; }
      FourCharsAre(out0, i0, i1, i2, i3, |chunk|);
      rest := if |rest| > 3 then rest[3..] else [];
      assert out0 + (four + Encoded(rest)) == out0 + four + Encoded(rest);
    }
    assert out + "" == out;
  }

  /** The characters of the four sextets of a chunk of `k` bytes. */
  function FourChars(i0: sextet, i1: sextet, i2: sextet, i3: sextet, k: int): string {
    ValOfAlphabet(0);
    [ALPHABET[i0], ALPHABET[i1], if k > 1 then ALPHABET[i2] else '=', if k > 2 then ALPHABET[i3] else '=']
  }

  lemma FourCharsAre(out: string, i0: sextet, i1: sextet, i2: sextet, i3: sextet, k: int)
    ensures |ALPHABET| == 64
    ensures out + FourChars(i0, i1, i2, i3, k)
      == out + [ALPHABET[i0]] + [ALPHABET[i1]] + (if k > 1 then [ALPHABET[i2]] else "=") + if k > 2 then [ALPHABET[i3]] else "="
  {
    ValOfAlphabet(0);
    hide ALPHABET, UPPER, LOWER, DIGITS;
  }

  lemma NothingEncoded(out: string, data: Bytes)
    ensures Encoded([]) == "" && |ALPHABET| == 64
    ensures "" + Encoded(data) == Encoded(data)
  {
    ValOfAlphabet(0);
  }

  lemma {:induction false} TimesPositive(d: int, e: int)
    requires d > 0 && e >= 1
    ensures d * e >= d
  {
    if e > 1 {
      TimesPositive(d, e - 1);
      assert d * e == d * (e - 1) + d;
    }
  }

  lemma DivUnique(n: int, d: int, q: int, r: int)
    requires d > 0 && n == d * q + r && 0 <= r < d
    ensures n / d == q && n % d == r
  {
    var q' := n / d;
    assert n == d * q' + n % d;
    assert d * (q - q') == d * q - d * q' && d * (q' - q) == d * q' - d * q;
    if q > q' { TimesPositive(d, q - q'); }
    if q < q' { TimesPositive(d, q' - q); }
  }

  /** The four sextets of a chunk read off its 24-bit number. */
  lemma ChunkSextets(b0: int, b1: int, b2: int, n: int)
    requires 0 <= b0 < 256 && 0 <= b1 < 256 && 0 <= b2 < 256 && n == b0 * 0x10000 + b1 * 0x100 + b2
    ensures n / 0x40000 % 64 == Sextet(0, b0, b1, b2) && n / 0x1000 % 64 == Sextet(1, b0, b1, b2)
    ensures n / 0x40 % 64 == Sextet(2, b0, b1, b2) && n % 64 == Sextet(3, b0, b1, b2)
  {
    var s0, s1, s2, s3 := b0 / 4, b0 % 4 * 16 + b1 / 16, b1 % 16 * 4 + b2 / 64, b2 % 64;
    assert n == 0x40000 * s0 + 0x1000 * s1 + 0x40 * s2 + s3;
    DivUnique(n, 0x40000, s0, 0x1000 * s1 + 0x40 * s2 + s3);
    DivUnique(s0, 64, 0, s0);
    DivUnique(n, 0x1000, 0x40 * s0 + s1, 0x40 * s2 + s3);
    DivUnique(0x40 * s0 + s1, 64, s0, s1);
    DivUnique(n, 0x40, 0x1000 * s0 + 0x40 * s1 + s2, s3);
    DivUnique(0x1000 * s0 + 0x40 * s1 + s2, 64, 0x40 * s0 + s1, s2);
  }

  /** The four characters of a chunk are the first four of the encoding. */
  lemma ChunkEncoded(rest: Bytes, b1: int, b2: int, n: int)
    requires rest != []
    requires b1 == (if |rest| > 1 then rest[1] else 0) && b2 == (if |rest| > 2 then rest[2] else 0)
    requires var b0: int := rest[0]; n == b0 * 0x10000 + b1 * 0x100 + b2
    ensures var i0, i1, i2, i3 := n / 0x40000 % 64, n / 0x1000 % 64, n / 0x40 % 64, n % 64;
      Encoded(rest) == FourChars(i0, i1, i2, i3, if |rest| > 3 then 3 else |rest|) + Encoded(if |rest| > 3 then rest[3..] else [])
  {
    ChunkSextets(rest[0], b1, b2, n);
    hide Sextet, Encoded, FourChars;
    if |rest| >= 3 {
      WholeChunk(rest, n / 0x40000 % 64, n / 0x1000 % 64, n / 0x40 % 64, n % 64);
    } else {
      LastChunk(rest, n / 0x40000 % 64, n / 0x1000 % 64, n / 0x40 % 64, n % 64);
    }
  }

  lemma CharsConcat(a: seq<sextet>, b: seq<sextet>)
    ensures Chars(a + b) == Chars(a) + Chars(b)
  {
    hide ALPHABET;
  }

  lemma CharsOfFour(i0: sextet, i1: sextet, i2: sextet, i3: sextet)
    ensures Chars([i0, i1, i2, i3]) == FourChars(i0, i1, i2, i3, 3)
    ensures Chars([i0, i1, i2]) + "=" == FourChars(i0, i1, i2, i3, 2)
    ensures Chars([i0, i1]) + "==" == FourChars(i0, i1, i2, i3, 1)
  {
    hide ALPHABET, UPPER, LOWER, DIGITS;
  }

  /** The sextets of the first chunk, missing bytes being zero. */
  ghost predicate FirstSextets(rest: Bytes, i0: sextet, i1: sextet, i2: sextet, i3: sextet) {
    && rest != []
    && var b0, b1, b2 := rest[0], if |rest| > 1 then rest[1] else 0, if |rest| > 2 then rest[2] else 0;
       i0 == Sextet(0, b0, b1, b2) && i1 == Sextet(1, b0, b1, b2) && i2 == Sextet(2, b0, b1, b2) && i3 == Sextet(3, b0, b1, b2)
  }

  lemma PackedParts(rest: Bytes, i0: sextet, i1: sextet, i2: sextet, i3: sextet)
    requires FirstSextets(rest, i0, i1, i2, i3)
    ensures |rest| >= 3 ==> Packed(rest) == [i0, i1, i2, i3] + Packed(rest[3..]) && Padding(rest) == Padding(rest[3..])
    ensures |rest| == 1 ==> Packed(rest) == [i0, i1] && Padding(rest) == "=="
    ensures |rest| == 2 ==> Packed(rest) == [i0, i1, i2] && Padding(rest) == "="
  {
    hide Sextet;
  }

  lemma WholeChunk(rest: Bytes, i0: sextet, i1: sextet, i2: sextet, i3: sextet)
    requires |rest| >= 3 && FirstSextets(rest, i0, i1, i2, i3)
    ensures Encoded(rest) == FourChars(i0, i1, i2, i3, 3) + Encoded(if |rest| > 3 then rest[3..] else [])
  {
    hide *;
    var more := if |rest| > 3 then rest[3..] else [];
    var four: seq<sextet> := [i0, i1, i2, i3];
    assert more == rest[3..];
    PackedParts(rest, i0, i1, i2, i3);
    CharsOfFour(i0, i1, i2, i3);
    CharsConcat(four, Packed(more));
    EncodedIs(rest);
    EncodedIs(more);
    assert FourChars(i0, i1, i2, i3, 3) + Chars(Packed(more)) + Padding(more)
      == FourChars(i0, i1, i2, i3, 3) + (Chars(Packed(more)) + Padding(more));
  }

  lemma EncodedIs(data: Bytes)
    ensures Encoded(data) == Chars(Packed(data)) + Padding(data)
    ensures data == [] ==> Encoded(data) == ""
  {
    hide ALPHABET;
  }

  lemma LastChunk(rest: Bytes, i0: sextet, i1: sextet, i2: sextet, i3: sextet)
    requires 0 < |rest| < 3 && FirstSextets(rest, i0, i1, i2, i3)
    ensures Encoded(rest) == FourChars(i0, i1, i2, i3, |rest|) + Encoded([])
  {
    hide *;
    PackedParts(rest, i0, i1, i2, i3);
    EncodedIs(rest);
    EncodedIs([]);
    CharsOfFour(i0, i1, i2, i3);
  }

  /** The accumulator keeps 32 bits: higher ones are shifted out. */
  method Decode(text: string) returns (r: Option<Bytes>)
    ensures r == Decoded(text)
  {
    hide Val, Skipped, Sextets, Unpacked, Completed;
    var acc, nbits: int, out: Bytes := 0, 0, [];
    ghost var ss: seq<sextet>, groups, k := [], 0, 0;
    NothingDecoded(text);
    for i := 0 to |text|
      invariant Sextets(text[..i]) == Some(ss) && out == Unpacked(ss)
      invariant 0 <= acc < 0x1_0000_0000 && (ss != [] ==> acc % 64 == ss[|ss| - 1])
      invariant 0 <= k < 4 && groups >= 0 && |ss| == 4 * groups + k && nbits == (if k == 0 then 0 else 8 - 2 * k)
    {
      var c := text[i];
      SextetsMore(text, i, ss);
      if Skipped(c) { continue; }
      var v := Val(c);
      if v.None? { return None; }
      AccStep(acc, if ss == [] then 0 else ss[|ss| - 1], v.value);
      UnpackedMore(ss, v.value, groups, k);
      acc := acc * 64 % 0x1_0000_0000 + v.value;
      nbits := nbits + 6;
      if nbits >= 8 {
        nbits := nbits - 8;
        out := out + [acc / Pow2(nbits) % 256];
      }
      ss := ss + [v.value];
      if k == 3 { groups, k := groups + 1, 0; } else { k := k + 1; }
    }
    assert text[..|text|] == text;
    r := Some(out);
  }

  lemma NothingDecoded(text: string)
    ensures Sextets(text[..0]) == Some([]) && Unpacked([]) == []
  {
  }

  lemma SextetsMore(text: string, i: nat, ss: seq<sextet>)
    requires i < |text| && Sextets(text[..i]) == Some(ss)
    ensures Skipped(text[i]) ==> Sextets(text[..i + 1]) == Some(ss)
    ensures !Skipped(text[i]) && Val(text[i]).Some? ==> Sextets(text[..i + 1]) == Some(ss + [Val(text[i]).value])
    ensures !Skipped(text[i]) && Val(text[i]).None? ==> Decoded(text) == None
  {
    assert text[..i + 1][..i] == text[..i];
    if !Skipped(text[i]) && Val(text[i]).None? { RejectsExactly(text); }
  }

  /** The low bits of the accumulator are the last sextets, whatever the shift
      dropped; so is the byte read from it. */
  lemma AccStep(acc: int, last: int, x: int)
    requires 0 <= acc < 0x1_0000_0000 && 0 <= last < 64 && 0 <= x < 64
    ensures var acc' := acc * 64 % 0x1_0000_0000 + x;
      0 <= acc' < 0x1_0000_0000 && acc' % 64 == x
      && (acc % 64 == last ==>
            acc' / Pow2(4) % 256 == Completed(1, last, x) && acc' / Pow2(2) % 256 == Completed(2, last, x)
            && acc' / Pow2(0) % 256 == Completed(3, last, x))
  {
    PowersUpTo4();
    hide Pow2;
    var k, m := acc / 0x400_0000, acc % 0x400_0000;
    DivUnique(acc * 64, 0x1_0000_0000, k, 64 * m);
    var acc' := 64 * m + x;
    DivUnique(acc', 64, m, x);
    if acc % 64 == last {
      var g := acc / 64 - 0x10_0000 * k;
      assert m == 64 * g + last;
      DivUnique(acc', 16, 0x100 * g + last * 4 + x / 16, x % 16);
      DivUnique(0x100 * g + last * 4 + x / 16, 256, g, last * 4 + x / 16);
      DivUnique(acc', 4, 0x400 * g + last * 16 + x / 4, x % 4);
      DivUnique(0x400 * g + last * 16 + x / 4, 256, 4 * g + last / 16, last % 16 * 16 + x / 4);
      DivUnique(acc', 256, 16 * g + last / 4, last % 4 * 64 + x);
    }
  }

  function Pow2(n: int): (p: int)
    ensures p > 0
  {
    if n <= 0 then 1 else 2 * Pow2(n - 1)
  }

  lemma PowersUpTo4()
    ensures Pow2(0) == 1 && Pow2(2) == 4 && Pow2(4) == 16
  {
    assert Pow2(1) == 2 && Pow2(3) == 8;
  }
}
