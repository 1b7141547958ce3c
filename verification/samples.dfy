/**
  The repository's own test cases, stated about the model, and the
  line-ending behaviour of the dictionary builder. The interpolated strings
  are written as the composite format strings the C# compiler produces for
  them: holes renumbered from `{0}`, the argument values as the keys.
 */
module Samples {
  import opened Strings
  import opened Decimal
  import opened Format
  import opened Holes
  import opened CharBuffer
  import Renderer
  import Dictionary

  // ---------------------------------------------------------------------------
  // Format.Parse

  /** A test case of the parser: the format `f` is written from the literal
      segments `lits` and the hole bodies `bodies`, whose specifiers are
      `specs`. */
  lemma ParseExample<K>(f: string, lits: seq<string>, bodies: seq<string>, specs: seq<string>, keys: seq<K>)
    requires WellFormed(lits, bodies) && f == Compose(lits, bodies) && f != []
    requires Specifiers(bodies) == specs
    ensures Parse(f, keys) == Template(lits, specs, keys)
  {
    ParseCompose(lits, bodies, keys);
  }

  lemma SpecifierAfterColon(bodies: seq<string>, j: nat, idx: string, spec: string)
    requires j < |bodies| && bodies[j] == idx + ":" + spec
    requires ':' !in idx && ':' !in spec
    ensures Specifiers(bodies)[j] == Trim(spec)
  {
    assert "{" + bodies[j] == "{" + idx + [':'] + spec;
    SplitAtOnlySeparator("{" + idx, spec, ':');
  }

  lemma ParseEmptyFormat()
    ensures Parse<Object>("", []) == Template([], [], [])
  {
  }

  lemma ParseLiteralOnly()
    ensures Parse<Object>("abc", []) == Template(["abc"], [], [])
  {
    ParseExample<Object>("abc", ["abc"], [], [], []);
  }

  lemma ParseHoleFirst()
    ensures Parse("{0}abc", [BoxedInt(1)]) == Template(["", "abc"], [""], [BoxedInt(1)])
  {
    IndexOnlySpecifiers(["0"]);
    ParseExample("{0}abc", ["", "abc"], ["0"], [""], [BoxedInt(1)]);
  }

  lemma ParseHoleLast()
    ensures Parse("abc{0}", [BoxedInt(1)]) == Template(["abc", ""], [""], [BoxedInt(1)])
  {
    IndexOnlySpecifiers(["0"]);
    ParseExample("abc{0}", ["abc", ""], ["0"], [""], [BoxedInt(1)]);
  }

  lemma IndexOnlyPair()
    ensures Specifiers(["0", "1"]) == ["", ""]
  {
    IndexOnlySpecifiers(["0", "1"]);
  }

  lemma ParseHolesAround()
    ensures Parse("{0}abc{1}", [BoxedInt(1), BoxedInt(1)])
         == Template(["", "abc", ""], ["", ""], [BoxedInt(1), BoxedInt(1)])
  {
    IndexOnlyPair();
    ParseExample("{0}abc{1}", ["", "abc", ""], ["0", "1"], ["", ""], [BoxedInt(1), BoxedInt(1)]);
  }

  /** The keys are whatever the holes hold: a character, a number, null. */
  lemma ParseHolesInside(a: Object, b: Object)
    ensures Parse("qq{0}abc{1}pp", [a, b]) == Template(["qq", "abc", "pp"], ["", ""], [a, b])
  {
    IndexOnlyPair();
    ParseExample("qq{0}abc{1}pp", ["qq", "abc", "pp"], ["0", "1"], ["", ""], [a, b]);
  }

  lemma ParseKeysPassThrough()
    ensures Parse("qq{0}abc{1}pp", [BoxedChar('1'), BoxedInt(1)])
         == Template(["qq", "abc", "pp"], ["", ""], [BoxedChar('1'), BoxedInt(1)])
    ensures Parse("qq{0}abc{1}pp", [Null, BoxedInt(1)])
         == Template(["qq", "abc", "pp"], ["", ""], [Null, BoxedInt(1)])
  {
    ParseHolesInside(BoxedChar('1'), BoxedInt(1));
    ParseHolesInside(Null, BoxedInt(1));
  }

  lemma IndexOnlyTriple()
    ensures Specifiers(["0", "1", "2"]) == ["", "", ""]
  {
    IndexOnlySpecifiers(["0", "1", "2"]);
  }

  lemma ThreeHolesWellFormed()
    ensures WellFormed(["", "qq", "abc", "pp"], ["0", "1", "2"])
  {
  }

  lemma ThreeHolesShape()
    ensures Compose(["", "qq", "abc", "pp"], ["0", "1", "2"]) == "{0}qq{1}abc{2}pp"
  {
    assert Compose(["abc", "pp"], ["2"]) == "abc{2}pp";
    assert Compose(["qq", "abc", "pp"], ["1", "2"]) == "qq{1}" + "abc{2}pp";
  }

  lemma ParseThreeHoles()
    ensures Parse("{0}qq{1}abc{2}pp", [Str("1"), BoxedChar('1'), BoxedInt(1)])
         == Template(["", "qq", "abc", "pp"], ["", "", ""], [Str("1"), BoxedChar('1'), BoxedInt(1)])
  {
    IndexOnlyTriple();
    ThreeHolesWellFormed();
    ThreeHolesShape();
    ParseExample("{0}qq{1}abc{2}pp", ["", "qq", "abc", "pp"], ["0", "1", "2"], ["", "", ""],
                 [Str("1"), BoxedChar('1'), BoxedInt(1)]);
  }

  /** Specifiers are split off at the `:` and trimmed. */
  lemma SpecifierDigits()
    ensures Specifiers(["0:9999"]) == ["9999"]
  {
    SpecifierAfterColon(["0:9999"], 0, "0", "9999");
    TrimFixed("9999");
  }

  lemma ParseOneSpecifier()
    ensures Parse("{0:9999}", [BoxedInt(1)]) == Template(["", ""], ["9999"], [BoxedInt(1)])
  {
    SpecifierDigits();
    ParseExample("{0:9999}", ["", ""], ["0:9999"], ["9999"], [BoxedInt(1)]);
  }

  lemma SpecifierTrimmed()
    ensures Specifiers(["0:9999", "1: x"])[1] == "x"
  {
    SpecifierAfterColon(["0:9999", "1: x"], 1, "1", " x");
    assert Trim(" x") == "x";
  }

  lemma TwoSpecifiers()
    ensures Specifiers(["0:9999", "1: x"]) == ["9999", "x"]
  {
    SpecifierAfterColon(["0:9999", "1: x"], 0, "0", "9999");
    TrimFixed("9999");
    SpecifierTrimmed();
  }

  lemma TwoSpecifiersShape()
    ensures WellFormed(["", "x", ""], ["0:9999", "1: x"])
    ensures Compose(["", "x", ""], ["0:9999", "1: x"]) == "{0:9999}x{1: x}"
  {
  }

  lemma ParseTwoSpecifiers()
    ensures Parse("{0:9999}x{1: x}", [BoxedInt(1), BoxedInt(1)])
         == Template(["", "x", ""], ["9999", "x"], [BoxedInt(1), BoxedInt(1)])
  {
    TwoSpecifiers();
    TwoSpecifiersShape();
    ParseExample("{0:9999}x{1: x}", ["", "x", ""], ["0:9999", "1: x"], ["9999", "x"], [BoxedInt(1), BoxedInt(1)]);
  }

  /** `$"{{x}}"`, lowered to the format `{{x}}` with no arguments: only the
      first `{` is skipped, the second opens a hole, so the parse has a gap
      and a specifier but no hole value, and `Apply` cannot render it. */
  lemma EscapedBraceOpensHole()
    ensures Parse<Hole<int>>("{{x}}", []) == Template(["{", "}"], [""], [])
    ensures !Renderer.Applicable(Renderer.Create(Parse<Hole<int>>("{{x}}", [])))
  {
    var f := "{{x}}";
    assert !OpensHole(f, 0) && OpensHole(f, 1);
    assert FindClose(f, 3) == 3;
    assert f[1..3] == "{x";
    SplitNoSeparator("{x", ':');
    assert Specifier(f[1..3]) == "";
    assert f[0..1] == "{" && f[4..] == "}";
    assert Scan(f, 4, 4) == Pieces(["}"], []);
    assert Scan(f, 0, 1) == Pieces(["{", "}"], [""]);
  }

  // ---------------------------------------------------------------------------
  // FormatStringBuilder.Apply

  /** A rendering test: the format `f` is written from `lits` and `bodies`,
      and `texts` are the texts of its holes for the value `v`. */
  lemma RenderExample<T>(f: string, lits: seq<string>, bodies: seq<string>, holes: seq<Hole<T>>, v: T,
                         toText: (Object, string) -> string, subjectText: (T, string) -> string,
                         texts: seq<string>)
    requires WellFormed(lits, bodies) && f == Compose(lits, bodies) && f != []
    requires |holes| == |bodies| == |texts|
    requires forall j :: 0 <= j < |texts| ==>
               texts[j] == Renderer.HoleText(holes[j], v, Specifiers(bodies)[j], toText, subjectText)
    ensures Renderer.Applicable(Renderer.Create(Parse(f, holes)))
    ensures Renderer.RenderText(Renderer.Create(Parse(f, holes)), v, toText, subjectText) == Interleave(lits, texts)
  {
    ComposeIsInterleave(lits, bodies);
    Renderer.RenderComposed(lits, bodies, holes, v, toText, subjectText);
    assert seq(|bodies|, j requires 0 <= j < |bodies| =>
             Renderer.HoleText(holes[j], v, Specifier("{" + bodies[j]), toText, subjectText)) == texts;
  }

  lemma TwoHolesShape()
    ensures WellFormed(["i: ", " j: ", ""], ["0", "1"])
    ensures Compose(["i: ", " j: ", ""], ["0", "1"]) == "i: {0} j: {1}"
  {
  }

  lemma InterleaveTwo(a: string, b: string, c: string, x: string, y: string)
    ensures Interleave([a, b, c], [x, y]) == a + x + b + y + c
  {
    assert [a, b, c][..2] == [a, b] && [x, y][..1] == [x];
    assert [a, b][..1] == [a] && [x][..0] == [];
    assert Interleave([a, b], [x]) == a + x + b;
  }

  lemma InterleaveThree(a: string, b: string, c: string, d: string, x: string, y: string, z: string)
    ensures Interleave([a, b, c, d], [x, y, z]) == a + x + b + y + c + z + d
  {
    assert [a, b, c, d][..3] == [a, b, c] && [x, y, z][..2] == [x, y];
    InterleaveTwo(a, b, c, x, y);
  }

  function IntOfPair(t: (Int32, Int32)): Int32 { t.0 }
  function SecondIntOfPair(t: (Int32, Int32)): Int32 { t.1 }

  /** `i: {i} j: {j}` over two integers renders both through the as-written
      `Append(int)`; the decimal text the test expects (it tries (1, 2),
      (99, 123) and (123456789, 12345678)) comes out exactly when neither is
      `int.MinValue`. */
  lemma RenderTwoInts(v: (Int32, Int32), toText: (Object, string) -> string,
                      subjectText: ((Int32, Int32), string) -> string)
    ensures var b := Renderer.Create(Parse("i: {0} j: {1}", [IntHole(IntOfPair), IntHole(SecondIntOfPair)]));
      && Renderer.Applicable(b)
      && Renderer.RenderText(b, v, toText, subjectText) == "i: " + Int32TextAsWritten(v.0) + " j: " + Int32TextAsWritten(v.1)
      && (v.0 != MinInt32 && v.1 != MinInt32 ==>
            Renderer.RenderText(b, v, toText, subjectText) == "i: " + DecimalText(v.0) + " j: " + DecimalText(v.1))
  {
    TwoHolesShape();
    IndexOnlyPair();
    RenderExample("i: {0} j: {1}", ["i: ", " j: ", ""], ["0", "1"], [IntHole(IntOfPair), IntHole(SecondIntOfPair)],
                  v, toText, subjectText, [Int32TextAsWritten(v.0), Int32TextAsWritten(v.1)]);
    InterleaveTwo("i: ", " j: ", "", Int32TextAsWritten(v.0), Int32TextAsWritten(v.1));
    MinValueLosesDigits();
  }

  function IntOf(t: (Int32, string)): Int32 { t.0 }
  function StringOf(t: (Int32, string)): Object { Str(t.1) }

  /** An integer and a string: the string goes through the runtime's
      formatting, which gives a string back unchanged, and the integer is in
      decimal unless it is `int.MinValue` (the test tries (-32145, "999ss")
      among others). */
  lemma RenderIntAndString(v: (Int32, string), toText: (Object, string) -> string,
                           subjectText: ((Int32, string), string) -> string)
    requires toText(Str(v.1), "") == v.1
    ensures var b := Renderer.Create(Parse("i: {0} j: {1}", [IntHole(IntOf), GenericHole(StringOf)]));
      && Renderer.Applicable(b)
      && Renderer.RenderText(b, v, toText, subjectText) == "i: " + Int32TextAsWritten(v.0) + " j: " + v.1
      && (v.0 != MinInt32 ==> Renderer.RenderText(b, v, toText, subjectText) == "i: " + DecimalText(v.0) + " j: " + v.1)
  {
    TwoHolesShape();
    IndexOnlyPair();
    RenderExample("i: {0} j: {1}", ["i: ", " j: ", ""], ["0", "1"], [IntHole(IntOf), GenericHole(StringOf)],
                  v, toText, subjectText, [Int32TextAsWritten(v.0), v.1]);
    InterleaveTwo("i: ", " j: ", "", Int32TextAsWritten(v.0), v.1);
    MinValueLosesDigits();
  }

  lemma ThreeHolesRenderWellFormed()
    ensures WellFormed(["i: ", " j: ", " k: ", ""], ["0", "1", "2"])
  {
  }

  lemma ThreeHolesRenderShape()
    ensures Compose(["i: ", " j: ", " k: ", ""], ["0", "1", "2"]) == "i: {0} j: {1} k: {2}"
  {
    assert Compose([" k: ", ""], ["2"]) == " k: {2}";
  }

  function IntOfTriple(t: (Int32, string, char)): Int32 { t.0 }
  function StringOfTriple(t: (Int32, string, char)): Object { Str(t.1) }
  function CharOfTriple(t: (Int32, string, char)): char { t.2 }

  /** An integer, a string and a character. */
  lemma RenderIntStringChar(v: (Int32, string, char), toText: (Object, string) -> string,
                            subjectText: ((Int32, string, char), string) -> string)
    requires toText(Str(v.1), "") == v.1
    ensures var b := Renderer.Create(Parse("i: {0} j: {1} k: {2}",
                                           [IntHole(IntOfTriple), GenericHole(StringOfTriple), CharHole(CharOfTriple)]));
      && Renderer.Applicable(b)
      && Renderer.RenderText(b, v, toText, subjectText) == "i: " + Int32TextAsWritten(v.0) + " j: " + v.1 + " k: " + [v.2]
      && (v.0 != MinInt32 ==>
            Renderer.RenderText(b, v, toText, subjectText) == "i: " + DecimalText(v.0) + " j: " + v.1 + " k: " + [v.2])
  {
    ThreeHolesRenderWellFormed();
    ThreeHolesRenderShape();
    IndexOnlyTriple();
    RenderExample("i: {0} j: {1} k: {2}", ["i: ", " j: ", " k: ", ""], ["0", "1", "2"],
                  [IntHole(IntOfTriple), GenericHole(StringOfTriple), CharHole(CharOfTriple)],
                  v, toText, subjectText, [Int32TextAsWritten(v.0), v.1, [v.2]]);
    InterleaveThree("i: ", " j: ", " k: ", "", Int32TextAsWritten(v.0), v.1, [v.2]);
    MinValueLosesDigits();
  }

  /** The negative value of the test, as `Append(int)` writes it. */
  lemma NegativeDecimal()
    ensures DecimalText(-32145) == "-32145"
    ensures Int32TextAsWritten(-32145) == "-32145"
  {
  }

  // ---------------------------------------------------------------------------
  // DictionaryBuilder

  /** Without a newline after it, the last line of a template loses its
      final character, which is read as the line terminator: `a: 1` records
      `a` with the empty text. With the newline, the whole value is kept. */
  lemma LastLineLosesCharacter(k: string, b: string, c: char)
    requires ':' !in k && '\n' !in k && Trim(k) != []
    requires '\n' !in b && c != '\n'
    ensures Dictionary.Build<int>(Template([k + [':'] + b + [c]], [], [])).entries
         == [Dictionary.Entry(Trim(k), Dictionary.Literal(Trim(b)))]
    ensures Dictionary.Build<int>(Template([k + [':'] + (b + [c]) + ['\n']], [], [])).entries
         == [Dictionary.Entry(Trim(k), Dictionary.Literal(Trim(b + [c])))]
  {
    var start: Dictionary.Machine<int> := Dictionary.Start();
    Dictionary.LiteralLine(start, k, b, c, true);
    Dictionary.LiteralLine(start, k, b + [c], '\n', true);
  }
}
