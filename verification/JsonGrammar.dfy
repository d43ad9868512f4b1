/** The texts the parser accepts and what they mean, as a grammar: syntax trees
    with every space and every escape, their text and their value. */
module JsonGrammar {
  import opened Wrappers
  import opened JsonSpec
  import opened JsonRoundTrip
  import opened JsonLetters

  datatype Tree =
    | Constant(word: string, v: Json)
    | Number(lexeme: string)
    | Quote(letters: seq<Letter>)
    | NoItems(gap: string)
    | Items(items: seq<Spaced>)
    | NoMembers(gap: string)
    | Members(members: seq<Member>)

  /** A value between spaces. */
  datatype Spaced = Spaced(before: string, tree: Tree, after: string)
  datatype Member = Member(before: string, key: seq<Letter>, colon: string, value: Spaced)

  /* ---------- Text ---------- */

  /** The text of a value, followed by `rest`. */
  function TreeText(t: Tree, rest: string): string {
    match t
    case Constant(word, _) => word + rest
    case Number(lexeme) => lexeme + rest
    case Quote(letters) => "\"" + LettersText(letters, "\"" + rest)
    case NoItems(gap) => "[" + (gap + ("]" + rest))
    case Items(items) => "[" + ItemsText(items, rest)
    case NoMembers(gap) => "{" + (gap + ("}" + rest))
    case Members(members) => "{" + MembersText(members, rest)
  }

  function SpacedText(x: Spaced, rest: string): string { x.before + TreeText(x.tree, x.after + rest) }

  function ItemsText(items: seq<Spaced>, rest: string): string {
    if items == [] then rest
    else SpacedText(items[0], if |items| > 1 then "," + ItemsText(items[1..], rest) else "]" + rest)
  }

  function MemberText(m: Member, rest: string): string {
    m.before + ("\"" + LettersText(m.key, "\"" + (m.colon + (":" + SpacedText(m.value, rest)))))
  }

  function MembersText(members: seq<Member>, rest: string): string {
    if members == [] then rest
    else MemberText(members[0], if |members| > 1 then "," + MembersText(members[1..], rest) else "}" + rest)
  }

  /* ---------- Well-formedness ---------- */

  ghost predicate Space(s: string) { forall i | 0 <= i < |s| :: s[i] in {' ', '\U{0009}', '\U{000A}', '\U{000D}'} }

  ghost predicate NumberWord(s: string) {
    s != [] && s[0] in "-0123456789" && forall i | 0 <= i < |s| :: s[i] in "0123456789-+.eE"
  }

  ghost predicate WellFormed(t: Tree) {
    match t
    case Constant(word, v) => (word, v) in {("null", Null), ("true", Bool(true)), ("false", Bool(false))}
    case Number(lexeme) => NumberWord(lexeme)
    case Quote(letters) => Spelled(letters)
    case NoItems(gap) => Space(gap)
    case Items(items) => items != [] && forall i | 0 <= i < |items| :: SpacedWell(items[i])
    case NoMembers(gap) => Space(gap)
    case Members(members) => members != [] && forall i | 0 <= i < |members| :: MemberWell(members[i])
  }

  ghost predicate SpacedWell(x: Spaced) { Space(x.before) && WellFormed(x.tree) && Space(x.after) }

  ghost predicate MemberWell(m: Member) { Space(m.before) && Spelled(m.key) && Space(m.colon) && SpacedWell(m.value) }

  /* ---------- Meaning ---------- */

  function Meaning(t: Tree): Json {
    match t
    case Constant(_, v) => v
    case Number(lexeme) => Num(lexeme)
    case Quote(letters) => Str(Spelling(letters))
    case NoItems(_) => Arr([])
    case Items(items) => Arr(seq(|items|, i requires 0 <= i < |items| => Meaning(items[i].tree)))
    case NoMembers(_) => Obj(map[])
    case Members(members) => Obj(FieldsMeaning(members, map[]))
  }

  /** The fields in the order they are written. */
  function FieldsMeaning(members: seq<Member>, out: map<string, Json>): map<string, Json> {
    if members == [] then out
    else FieldsMeaning(members[1..], out[Spelling(members[0].key) := Meaning(members[0].value.tree)])
  }

  /** `k` is not written from the `i`-th member on. */
  ghost predicate NoneFrom(members: seq<Member>, i: nat, k: string) {
    forall j | i <= j < |members| :: Spelling(members[j].key) != k
  }

  lemma {:induction false} OthersStay(members: seq<Member>, out: map<string, Json>, k: string)
    requires NoneFrom(members, 0, k)
    ensures k in FieldsMeaning(members, out) <==> k in out
    ensures k in out ==> FieldsMeaning(members, out)[k] == out[k]
    decreases |members|
  {
    hide Spelling, Meaning;
    if members != [] {
      assert NoneFrom(members[1..], 0, k);
      OthersStay(members[1..], out[Spelling(members[0].key) := Meaning(members[0].value.tree)], k);
    }
  }

  /** A key has the value last written under it. */
  lemma {:induction false} LastValueStays(members: seq<Member>, out: map<string, Json>, i: nat)
    requires i < |members| && NoneFrom(members, i + 1, Spelling(members[i].key))
    ensures var k := Spelling(members[i].key);
      k in FieldsMeaning(members, out) && FieldsMeaning(members, out)[k] == Meaning(members[i].value.tree)
    decreases |members|
  {
    hide Spelling, Meaning;
    var k, out' := Spelling(members[i].key), out[Spelling(members[0].key) := Meaning(members[0].value.tree)];
    if i == 0 {
      assert NoneFrom(members[1..], 0, k);
      OthersStay(members[1..], out', k);
    } else {
      assert members[1..][i - 1] == members[i] && NoneFrom(members[1..], i, k);
      LastValueStays(members[1..], out', i - 1);
    }
  }

  /* ---------- Every tree is read as its meaning ---------- */

  lemma {:induction false} SpaceSkipped(gap: string, s: string)
    requires Space(gap)
    ensures SkipWs(gap + s) == SkipWs(s)
    decreases |gap|
  {
    if gap == [] {
      assert gap + s == s;
    } else {
      SpaceSkipped(gap[1..], s);
      assert (gap + s)[1..] == gap[1..] + s;
    }
  }

  /** Spaces and what ends a value do not continue a number. */
  lemma SpaceDelimits(gap: string, rest: string)
    requires Space(gap) && Delimited(rest)
    ensures Delimited(gap + rest)
  {
    if gap == [] { assert gap + rest == rest; }
  }

  lemma NumberWordIs(s: string)
    ensures NumberWord(s) <==> IsLexeme(s)
  {
    assert forall c: char :: c in "-0123456789" <==> c == '-' || IsDigit(c);
    assert forall c: char :: c in "0123456789-+.eE" <==> InNumber(c);
  }

  /** Skipping first makes no difference to a value. */
  lemma ValueSkips(s: string)
    ensures ValueOf(s) == ValueOf(SkipWs(s))
  {
    SkipsOnce(s);
    hide ItemsStart, FieldsStart, StringOf, LiteralOf, SkipWs;
  }

  lemma {:induction false} SkipsOnce(s: string)
    ensures SkipWs(SkipWs(s)) == SkipWs(s)
    decreases |s|
  {
    if s != [] && IsWs(s[0]) { SkipsOnce(s[1..]); }
  }

  lemma {:induction false} TreeRead(t: Tree, rest: string)
    requires WellFormed(t) && Delimited(rest)
    ensures ValueOf(TreeText(t, rest)) == Got(Meaning(t), rest)
    decreases t, 1
  {
    hide ValueOf, ItemsStart, FieldsStart, StringOf, ItemsText, MembersText, LettersText, ItemsOf, FieldsOf, FieldsMeaning;
    match t
    case Constant(word, v) => ConstantRead(word, v, rest);
    case Number(lexeme) =>
      NumberWordIs(lexeme);
      NumberAt(lexeme, rest);
    case Quote(letters) =>
      LettersRead(letters, "", rest);
      ValueAtQuote(LettersText(letters, "\"" + rest));
      assert "" + Spelling(letters) == Spelling(letters);
    case NoItems(gap) =>
      ValueAtBracket(gap + ("]" + rest));
      NoItemsRead(gap, rest);
    case Items(items) =>
      ValueAtBracket(ItemsText(items, rest));
      ItemsRead(items, [], rest);
      ItemsBegin(items, rest);
      ItemsMean(items);
    case NoMembers(gap) =>
      ValueAtBrace(gap + ("}" + rest));
      NoMembersRead(gap, rest);
    case Members(members) =>
      ValueAtBrace(MembersText(members, rest));
      MembersRead(members, map[], rest);
      MembersBegin(members, rest);
  }

  lemma ConstantRead(word: string, v: Json, rest: string)
    requires WellFormed(Constant(word, v)) && Delimited(rest)
    ensures ValueOf(word + rest) == Got(v, rest)
  {
    ScalarRead(v, rest);
    hide ValueOf;
  }

  lemma NoItemsRead(gap: string, rest: string)
    requires Space(gap)
    ensures ItemsStart(gap + ("]" + rest)) == Got([], rest)
  {
    SpaceSkipped(gap, "]" + rest);
    Cons(']', rest);
    hide ItemsOf, SkipWs;
  }

  lemma NoMembersRead(gap: string, rest: string)
    requires Space(gap)
    ensures FieldsStart(gap + ("}" + rest)) == Got(map[], rest)
  {
    SpaceSkipped(gap, "}" + rest);
    Cons('}', rest);
    hide FieldsOf, SkipWs;
  }

  lemma {:induction false} SpacedRead(x: Spaced, rest: string)
    requires SpacedWell(x) && Delimited(rest)
    ensures ValueOf(SpacedText(x, rest)) == Got(Meaning(x.tree), x.after + rest)
    decreases x, 2
  {
    hide ValueOf, TreeText, Meaning, WellFormed, SkipWs, Space;
    SpaceDelimits(x.after, rest);
    TreeRead(x.tree, x.after + rest);
    SpaceSkipped(x.before, TreeText(x.tree, x.after + rest));
    ValueSkips(SpacedText(x, rest));
    ValueSkips(TreeText(x.tree, x.after + rest));
  }

  function Meanings(items: seq<Spaced>): seq<Json> {
    seq(|items|, i requires 0 <= i < |items| => Meaning(items[i].tree))
  }

  lemma ItemsMean(items: seq<Spaced>)
    ensures Meaning(Items(items)) == Arr([] + Meanings(items))
  {
    assert Meaning(Items(items)).items == [] + Meanings(items);
  }

  /** After an item and its space, a comma goes on and a bracket ends. */
  lemma ItemsAfter(s: string, out: seq<Json>, v: Json, gap: string, c: char, t: string)
    requires ValueOf(s) == Got(v, gap + ([c] + t)) && Space(gap) && (c == ',' || c == ']')
    ensures ItemsOf(s, out) == if c == ',' then ItemsOf(t, out + [v]) else Got(out + [v], t)
  {
    Cons(c, t);
    SpaceSkipped(gap, [c] + t);
    hide ValueOf, SkipWs;
  }

  lemma {:induction false} ItemsRead(items: seq<Spaced>, out: seq<Json>, rest: string)
    requires items != [] && forall i | 0 <= i < |items| :: SpacedWell(items[i])
    ensures ItemsOf(ItemsText(items, rest), out) == Got(out + Meanings(items), rest)
    decreases items, 3
  {
    hide ValueOf, ItemsOf, SpacedText, SpacedWell, Meaning;
    var x, s, v := items[0], ItemsText(items, rest), Meaning(items[0].tree);
    assert SpacedWell(x) ==> Space(x.after) by { SpacedSpace(x); }
    if |items| > 1 {
      var more := ItemsText(items[1..], rest);
      SpacedRead(x, "," + more);
      ItemsAfter(s, out, v, x.after, ',', more);
      ItemsRead(items[1..], out + [v], rest);
      assert out + [v] + Meanings(items[1..]) == out + Meanings(items);
    } else {
      SpacedRead(x, "]" + rest);
      ItemsAfter(s, out, v, x.after, ']', rest);
      assert out + [v] == out + Meanings(items);
    }
  }

  lemma SpacedSpace(x: Spaced)
    ensures SpacedWell(x) ==> Space(x.before) && Space(x.after) && WellFormed(x.tree)
  {
  }

  /** A value starts with none of the characters that are skipped or that close
      a list. */
  lemma TreeStarts(t: Tree, rest: string)
    requires WellFormed(t)
    ensures var s := TreeText(t, rest); s != [] && s[0] != ']' && SkipWs(s) == s
  {
    hide LettersText, ItemsText, MembersText, SpacedWell, MemberWell, Space, Spelled, NumberWord;
    if t.Number? { NumberWordIs(t.lexeme); }
  }

  lemma ItemsBegin(items: seq<Spaced>, rest: string)
    requires items != [] && SpacedWell(items[0])
    ensures ItemsStart(ItemsText(items, rest)) == ItemsOf(ItemsText(items, rest), [])
  {
    var x, tail := items[0], if |items| > 1 then "," + ItemsText(items[1..], rest) else "]" + rest;
    var s := TreeText(x.tree, x.after + tail);
    SpaceSkipped(x.before, s);
    TreeStarts(x.tree, x.after + tail);
    hide TreeText, WellFormed, SkipWs;
    ItemsSkip(ItemsText(items, rest), []);
  }

  lemma ItemsSkip(s: string, out: seq<Json>)
    ensures ItemsOf(s, out) == ItemsOf(SkipWs(s), out)
  {
    ValueSkips(s);
    hide ValueOf, SkipWs;
  }

  lemma FieldsSkip(s: string, out: map<string, Json>)
    ensures FieldsOf(s, out) == FieldsOf(SkipWs(s), out)
  {
    SkipsOnce(s);
    assert FieldOf(s) == FieldOf(SkipWs(s)) by { hide ValueOf, SkipWs, StringOf; }
    hide FieldOf, SkipWs;
  }

  lemma MembersBegin(members: seq<Member>, rest: string)
    requires members != [] && MemberWell(members[0])
    ensures FieldsStart(MembersText(members, rest)) == FieldsOf(MembersText(members, rest), map[])
  {
    var m, tail := members[0], if |members| > 1 then "," + MembersText(members[1..], rest) else "}" + rest;
    var t := LettersText(m.key, "\"" + (m.colon + (":" + SpacedText(m.value, tail))));
    SpaceSkipped(m.before, "\"" + t);
    Cons('"', t);
    hide SpacedText, LettersText, SkipWs;
    FieldsSkip(MembersText(members, rest), map[]);
  }

  lemma FieldAfter(s: string, out: map<string, Json>, key: string, v: Json, gap: string, c: char, t: string)
    requires FieldOf(s) == Got((key, v), gap + ([c] + t)) && Space(gap) && (c == ',' || c == '}')
    ensures FieldsOf(s, out) == if c == ',' then FieldsOf(t, out[key := v]) else Got(out[key := v], t)
  {
    Cons(c, t);
    SpaceSkipped(gap, [c] + t);
    hide FieldOf, SkipWs;
  }

  lemma FieldSpaced(before: string, t: string, key: string, colon: string, u: string, v: Json, rest: string)
    requires Space(before) && StringOf(t, "") == Got(key, colon + (":" + u)) && Space(colon) && ValueOf(u) == Got(v, rest)
    ensures FieldOf(before + ("\"" + t)) == Got((key, v), rest)
  {
    SpaceSkipped(before, "\"" + t);
    Cons('"', t);
    SpaceSkipped(colon, ":" + u);
    Cons(':', u);
    hide StringOf, ValueOf, SkipWs;
  }

  lemma {:induction false} MemberRead(m: Member, rest: string)
    requires MemberWell(m) && Delimited(rest)
    ensures FieldOf(MemberText(m, rest)) == Got((Spelling(m.key), Meaning(m.value.tree)), m.value.after + rest)
    decreases m, 3
  {
    hide ValueOf, StringOf, FieldOf, SpacedText, SpacedWell, Meaning, LettersText, Space;
    SpacedRead(m.value, rest);
    var u := SpacedText(m.value, rest);
    LettersRead(m.key, "", m.colon + (":" + u));
    assert "" + Spelling(m.key) == Spelling(m.key);
    FieldSpaced(m.before, LettersText(m.key, "\"" + (m.colon + (":" + u))), Spelling(m.key), m.colon, u,
                Meaning(m.value.tree), m.value.after + rest);
  }

  lemma {:induction false} MembersRead(members: seq<Member>, out: map<string, Json>, rest: string)
    requires members != [] && forall i | 0 <= i < |members| :: MemberWell(members[i])
    ensures FieldsOf(MembersText(members, rest), out) == Got(FieldsMeaning(members, out), rest)
    decreases members, 4
  {
    hide FieldOf, FieldsOf, MemberText, MemberWell, Meaning, Spelling, Space;
    var m, s := members[0], MembersText(members, rest);
    var key, v := Spelling(m.key), Meaning(m.value.tree);
    assert MemberWell(m) ==> Space(m.value.after) by { MemberSpace(m); }
    if |members| > 1 {
      var more := MembersText(members[1..], rest);
      MemberRead(m, "," + more);
      FieldAfter(s, out, key, v, m.value.after, ',', more);
      MembersRead(members[1..], out[key := v], rest);
    } else {
      MemberRead(m, "}" + rest);
      FieldAfter(s, out, key, v, m.value.after, '}', rest);
    }
  }

  lemma MemberSpace(m: Member)
    ensures MemberWell(m) ==> Space(m.value.after)
  {
    hide Space;
    SpacedSpace(m.value);
  }

  /* ---------- Whatever is read has a tree ---------- */

  lemma {:induction false} GapOf(s: string) returns (gap: string)
    ensures Space(gap) && s == gap + SkipWs(s)
    decreases |s|
  {
    if s != [] && IsWs(s[0]) {
      var more := GapOf(s[1..]);
      gap := [s[0]] + more;
      assert s == [s[0]] + s[1..];
    } else {
      gap := [];
    }
  }

  lemma {:induction false} LiteralTree(s: string, word: string, v: Json) returns (t: Tree)
    requires LiteralOf(s, word, v).Got? && WellFormed(Constant(word, v))
    ensures WellFormed(t) && Meaning(t) == LiteralOf(s, word, v).value && s == TreeText(t, LiteralOf(s, word, v).rest)
  {
    t := Constant(word, v);
    assert s == word + s[|word|..];
  }

  lemma {:induction false} NumberTree(s: string) returns (t: Tree)
    requires s != [] && (s[0] == '-' || IsDigit(s[0]))
    ensures WellFormed(t) && Meaning(t) == Num(s[..NumberLength(s)]) && s == TreeText(t, s[NumberLength(s)..])
  {
    LexemeOf(s);
    NumberWordIs(s[..NumberLength(s)]);
    t := Number(s[..NumberLength(s)]);
  }

  /** A value with no space before it. */
  lemma {:induction false} ValueTree(s: string) returns (t: Tree)
    requires ValueOf(s).Got? && SkipWs(s) == s
    ensures WellFormed(t) && Meaning(t) == ValueOf(s).value && s == TreeText(t, ValueOf(s).rest)
    decreases |s|, 0
  {
    hide ItemsStart, FieldsStart, StringOf, LiteralOf, Spelled, NumberLength;
    assert s == [s[0]] + s[1..];
    if s[0] == '{' {
      t := ObjectTree(s[1..]);
    } else if s[0] == '[' {
      t := ArrayTree(s[1..]);
    } else if s[0] == '"' {
      var letters := LettersOf(s[1..], "");
      t := Quote(letters);
      assert "" + Spelling(letters) == Spelling(letters);
    } else if s[0] == 't' {
      t := LiteralTree(s, "true", Bool(true));
    } else if s[0] == 'f' {
      t := LiteralTree(s, "false", Bool(false));
    } else if s[0] == 'n' {
      t := LiteralTree(s, "null", Null);
    } else {
      t := NumberTree(s);
    }
  }

  /** A value with the space before it; that after it is still in what is left. */
  lemma {:induction false} SpacedTree(s: string, gap: string) returns (x: Spaced)
    requires ValueOf(s).Got? && Space(gap)
    ensures SpacedWell(x) && Meaning(x.tree) == ValueOf(s).value && x.after == gap
    ensures forall rest :: ValueOf(s).rest == gap + rest ==> s == SpacedText(x, rest)
    decreases |s|, 1
  {
    SkipsOnce(s);
    ValueSkips(s);
    var before := GapOf(s);
    hide ValueOf, Space, SkipWs;
    var t := ValueTree(SkipWs(s));
    x := Spaced(before, t, gap);
  }

  lemma {:induction false} ArrayTree(s: string) returns (t: Tree)
    requires ItemsStart(s).Got?
    ensures WellFormed(t) && Meaning(t) == Arr(ItemsStart(s).value) && "[" + s == TreeText(t, ItemsStart(s).rest)
    decreases |s|, 4
  {
    var u := SkipWs(s);
    var gap := GapOf(s);
    hide ItemsOf, SkipWs, Space, SpacedWell;
    if u != [] && u[0] == ']' {
      t := NoItems(gap);
      assert u == "]" + u[1..];
    } else {
      ItemsSkip(s, []);
      var items := ItemsTrees(s, []);
      t := Items(items);
      ItemsMean(items);
    }
  }

  lemma MeaningsMore(x: Spaced, more: seq<Spaced>, out: seq<Json>)
    ensures out + [Meaning(x.tree)] + Meanings(more) == out + Meanings([x] + more)
    ensures more == [] ==> out + [Meaning(x.tree)] == out + Meanings([x])
  {
    hide Meaning;
  }

  lemma {:induction false} ItemsTrees(s: string, out: seq<Json>) returns (items: seq<Spaced>)
    requires ItemsOf(s, out).Got?
    ensures items != [] && (forall i | 0 <= i < |items| :: SpacedWell(items[i]))
    ensures ItemsOf(s, out).value == out + Meanings(items) && s == ItemsText(items, ItemsOf(s, out).rest)
    decreases |s|, 3
  {
    var v, rest := ValueOf(s).value, ValueOf(s).rest;
    var u := SkipWs(rest);
    var gap := GapOf(rest);
    var x := SpacedTree(s, gap);
    hide ValueOf, SkipWs, Space, SpacedWell, SpacedText, Meaning, Meanings;
    assert u == [u[0]] + u[1..];
    if u[0] == ',' {
      var more := ItemsTrees(u[1..], out + [v]);
      items := [x] + more;
      MeaningsMore(x, more, out);
      assert items[1..] == more;
    } else {
      items := [x];
      MeaningsMore(x, [], out);
    }
  }

  lemma {:induction false} ObjectTree(s: string) returns (t: Tree)
    requires FieldsStart(s).Got?
    ensures WellFormed(t) && Meaning(t) == Obj(FieldsStart(s).value) && "{" + s == TreeText(t, FieldsStart(s).rest)
    decreases |s|, 4
  {
    var u := SkipWs(s);
    var gap := GapOf(s);
    hide FieldsOf, SkipWs, Space, MemberWell, FieldsMeaning;
    if u != [] && u[0] == '}' {
      t := NoMembers(gap);
      assert u == "}" + u[1..];
    } else {
      FieldsSkip(s, map[]);
      var members := MembersTrees(s, map[]);
      t := Members(members);
    }
  }

  lemma {:induction false} MembersTrees(s: string, out: map<string, Json>) returns (members: seq<Member>)
    requires FieldsOf(s, out).Got?
    ensures members != [] && (forall i | 0 <= i < |members| :: MemberWell(members[i]))
    ensures FieldsOf(s, out).value == FieldsMeaning(members, out) && s == MembersText(members, FieldsOf(s, out).rest)
    decreases |s|, 3
  {
    var f, rest := FieldOf(s).value, FieldOf(s).rest;
    var u := SkipWs(rest);
    var gap := GapOf(rest);
    var m := MemberTree(s, gap);
    hide FieldOf, SkipWs, Space, MemberWell, MemberText, Meaning, Spelling;
    assert u == [u[0]] + u[1..];
    if u[0] == ',' {
      var more := MembersTrees(u[1..], out[f.0 := f.1]);
      members := [m] + more;
      assert members[1..] == more;
    } else {
      members := [m];
      assert members[1..] == [];
    }
  }

  lemma {:induction false} MemberTree(s: string, gap: string) returns (m: Member)
    requires FieldOf(s).Got? && Space(gap)
    ensures MemberWell(m) && (Spelling(m.key), Meaning(m.value.tree)) == FieldOf(s).value && m.value.after == gap
    ensures forall rest :: FieldOf(s).rest == gap + rest ==> s == MemberText(m, rest)
    decreases |s|, 2
  {
    hide StringOf, ValueOf, SkipWs, Space, SpacedWell, SpacedText, Meaning, Spelled, LettersText;
    var t := SkipWs(s);
    var before := GapOf(s);
    var letters := LettersOf(t[1..], "");
    assert "" + Spelling(letters) == Spelling(letters);
    var rest := StringOf(t[1..], "").rest;
    var u := SkipWs(rest);
    var colon := GapOf(rest);
    var x := SpacedTree(u[1..], gap);
    assert t == "\"" + t[1..] && u == ":" + u[1..];
    m := Member(before, letters, colon, x);
  }

  /* ---------- Exactly the grammar ---------- */

  /** The text of some tree with that meaning. */
  ghost predicate Denotes(text: string, v: Json) {
    exists x :: SpacedWell(x) && SpacedText(x, "") == text && Meaning(x.tree) == v
  }

  /** A document parses to a value exactly when it denotes it: no other text is
      accepted, and none otherwise. */
  lemma ParsesExactly(text: string, v: Json)
    ensures Parse(text) == Ok(v) <==> Denotes(text, v)
  {
    hide SpacedWell, SpacedText, Meaning;
    if x :| SpacedWell(x) && SpacedText(x, "") == text && Meaning(x.tree) == v { DocumentRead(x); }
    if Parse(text) == Ok(v) {
      var x := DocumentTree(text);
    }
  }

  lemma DocumentRead(x: Spaced)
    requires SpacedWell(x)
    ensures Parse(SpacedText(x, "")) == Ok(Meaning(x.tree))
  {
    SpacedRead(x, "");
    SpacedSpace(x);
    SpaceSkipped(x.after, "");
    ValueSkips(SpacedText(x, ""));
    hide ValueOf, SkipWs, SpacedText, SpacedWell, Space, Meaning;
    assert SkipWs("") == "" by { NothingSkipped(); }
  }

  lemma NothingSkipped()
    ensures SkipWs("") == ""
  {
  }

  lemma {:induction false} DocumentTree(text: string) returns (x: Spaced)
    requires Parse(text).Ok?
    ensures SpacedWell(x) && SpacedText(x, "") == text && Meaning(x.tree) == Parse(text).value
  {
    ValueSkips(text);
    var gap := GapOf(ValueOf(text).rest);
    x := SpacedTree(text, gap);
    hide ValueOf, SkipWs, SpacedText, SpacedWell, Space, Meaning;
  }
}
