/**
  The sample program: a `DictionaryBuilder` over pairs `(i, j)` whose
  template has four `key: {hole}` lines, the last hole holding a nested
  builder over `int`. The verbatim interpolated strings span source lines
  ending in CR LF, so every line of a template ends in `"\r\n"`, and the
  lines are indented. The templates are written over their indentation,
  and the program's own is the instance with 12, 16 and 20 spaces.
 */
module SampleProgram {
  import opened Strings
  import opened Decimal
  import opened Format
  import opened Holes
  import opened Dictionary

  type Pair = (Int32, Int32)

  /** `n` spaces. */
  function Spaces(n: nat): (w: string)
    ensures |w| == n && forall k :: 0 <= k < n ==> w[k] == ' '
  {
    seq(n, _ => ' ')
  }

  /** The indentation of the closing quote, of the outer lines and of the
      nested lines. */
  const Indent12: string := Spaces(12)
  const Indent16: string := Spaces(16)
  const Indent20: string := Spaces(20)

  /** Indentation: blanks, on one line, without `:`. */
  predicate Indentation(w: string) {
    AllWhiteSpace(w) && ':' !in w && '\n' !in w
  }

  lemma SpacesAreIndentation(n: nat)
    ensures Indentation(Spaces(n))
  {
    var w := Spaces(n);
    assert forall k :: 0 <= k < |w| ==> IsWhiteSpace(w[k]);
    assert ':' !in w && '\n' !in w;
  }

  lemma IndentsAreIndentation()
    ensures Indentation(Indent12) && Indentation(Indent16) && Indentation(Indent20)
  {
    SpacesAreIndentation(12);
    SpacesAreIndentation(16);
    SpacesAreIndentation(20);
  }

  /** The selectors of the holes: `t.i`, `t.j`, `t.j + t.j` (unchecked)
      and, in the nested template, `v`. */
  function SelectI(t: Pair): Int32 { t.0 }
  function SelectJ(t: Pair): Int32 { t.1 }
  function SelectJJ(t: Pair): Int32 { Add32(t.1, t.1) }
  function SelectV(v: Int32): Int32 { v }

  // ---------------------------------------------------------------------------
  // Lines

  /** A literal line `a:b` ended by a newline. */
  function TextLine(a: string, b: string): string {
    a + [':'] + b + ['\n']
  }

  /** An indented word trims to the word. */
  lemma TrimIndented(w: string, word: string)
    requires AllWhiteSpace(w)
    requires word != [] && !IsWhiteSpace(word[0]) && !IsWhiteSpace(word[|word| - 1])
    ensures Trim(w + word) == word
  {
    TrimIgnoresPadding(w, word, []);
    assert w + word + [] == w + word;
    TrimFixed(word);
  }

  lemma TrimOne()
    ensures Trim(" 1\r") == "1"
  {
    TrimIgnoresPadding(" ", "1", "\r");
    assert " " + "1" + "\r" == " 1\r";
  }

  /** A line with nothing but a carriage return records nothing. */
  lemma BlankLine<T>(m: Machine<T>)
    requires AtLineStart(m)
    ensures ParseSegment(m, "\r\n", false) == m
  {
    NoColonLine(m, "\r", '\n', false);
  }

  // ---------------------------------------------------------------------------
  // The nested builder

  /** The literals of the nested template
      `"\r\n" + w + "s: 1\r\n" + w + "v: {v}\r\n" + close`: its lines are
      indented by `w` and its closing quote by `close`. */
  function InnerLiterals(w: string, close: string): seq<string> {
    ["\r\n" + TextLine(w + "s", " 1\r") + KeyLine("", w + "v", " "), "\r" + "\n" + close]
  }

  function InnerTemplate(w: string, close: string): (t: Template<Hole<Int32>>)
    requires Indentation(w) && Indentation(close)
    ensures t == Template(InnerLiterals(w, close), [""], [IntHole(SelectV)])
  {
    InnerParsed(w, close);
    Parse(Compose(InnerLiterals(w, close), ["0"]), [IntHole(SelectV)])
  }

  lemma InnerParsed(w: string, close: string)
    requires Indentation(w) && Indentation(close)
    ensures Parse<Hole<Int32>>(Compose(InnerLiterals(w, close), ["0"]), [IntHole(SelectV)])
         == Template(InnerLiterals(w, close), [""], [IntHole(SelectV)])
  {
    IndexOnlySpecifiers(["0"]);
    assert '{' !in w && '{' !in close;
    ParseCompose<Hole<Int32>>(InnerLiterals(w, close), ["0"], [IntHole(SelectV)]);
  }

  function InnerExpected(): seq<Entry<Int32>> {
    [Entry("s", Literal("1")), Entry("v", FromHole(0, IntHole(SelectV), ""))]
  }

  /** The line `s: 1` of the nested template. */
  lemma LineS(w: string)
    requires Indentation(w)
    ensures var m := ParseSegment(Start<Int32>(), TextLine(w + "s", " 1\r"), false);
      AtLineStart(m) && m.entries == [InnerExpected()[0]]
  {
    LiteralLine(Start<Int32>(), w + "s", " 1\r", '\n', false);
    TrimIndented(w, "s");
    TrimOne();
  }

  /** The empty first line and the line `s: 1` of the nested template. */
  lemma InnerLiteralLine(w: string)
    requires Indentation(w)
    ensures var m := ParseSegment(Start<Int32>(), "\r\n" + TextLine(w + "s", " 1\r"), false);
      AtLineStart(m) && m.entries == [InnerExpected()[0]]
  {
    var start: Machine<Int32> := Start();
    BlankLine(start);
    ParseSegmentSplit(start, "\r\n", TextLine(w + "s", " 1\r"), false);
    LineS(w);
  }

  /** The first segment of the nested template leaves the hole of `v`
      pending after recording `s`. */
  lemma InnerFirstSegment(w: string, close: string)
    requires Indentation(w)
    ensures AtHole(ParseSegment(Start<Int32>(), InnerLiterals(w, close)[0], false), 0, IntHole(SelectV), "")
         == Machine(Value, "v", "", true, Some(InnerExpected()[1]), [InnerExpected()[0]])
  {
    var start: Machine<Int32> := Start();
    var first := "\r\n" + TextLine(w + "s", " 1\r");
    InnerLiteralLine(w);
    TrimIndented(w, "v");
    KeyHoleLine(ParseSegment(start, first, false), "", w + "v", " ", 0, IntHole(SelectV), "");
    ParseSegmentSplit(start, first, KeyLine("", w + "v", " "), false);
  }

  /** The nested template records `s` with the text `1` and `v` with its
      hole. */
  lemma InnerEntries(w: string, close: string)
    requires Indentation(w) && Indentation(close)
    ensures Build(InnerTemplate(w, close)).entries == InnerExpected()
  {
    var t := InnerTemplate(w, close);
    var m := AtHole(ParseSegment(Start(), t.strings[0], false), 0, t.keys[0], t.formats[0]);
    assert Run(t, 0, Start()) == ParseSegment(m, t.strings[1], true);
    InnerFirstSegment(w, close);
    FinalLineAfterHole(m, "\r", close);
  }

  /** Replaying two entries. */
  lemma FoldTwo<T>(a: Entry<T>, b: Entry<T>, v: T)
    ensures Fold([a, b], v) == map[a.key := Produce(a.producer, v)][b.key := Produce(b.producer, v)]
  {
    assert [a, b][..1] == [a] && [a][..0] == [];
    assert Fold([a], v) == Fold([], v)[a.key := Produce(a.producer, v)];
    assert Fold([a, b], v) == Fold([a], v)[b.key := Produce(b.producer, v)];
  }

  /** The nested dictionary of a value `v`: `s` is the text `1`, `v` the
      boxed value. */
  lemma InnerDictionary(w: string, close: string, v: Int32)
    requires Indentation(w) && Indentation(close)
    ensures ToDictionary(Create(InnerTemplate(w, close)), v) == map["s" := Str("1"), "v" := BoxedInt(v)]
  {
    InnerEntries(w, close);
    FoldTwo(InnerExpected()[0], InnerExpected()[1], v);
  }

  // ---------------------------------------------------------------------------
  // The outer builder

  /** The literals of the outer template
      `"\r\n" + w16 + "i: {0}\r\n" + w16 + "j: {1}\r\n" + w16 + "\r\n" + w16 + "jj: {2}\r\n\r\n" + w16 + "dict: {3}\r\n" + w12`:
      its lines are indented by `w16`, one line holds only `w16`, and its
      closing quote is indented by `w12`. */
  function OuterLiterals(w12: string, w16: string): seq<string> {
    [ [] + KeyLine("\r\n", w16 + "i", " "),
      "\r" + "\n" + KeyLine("", w16 + "j", " "),
      "\r" + "\n" + KeyLine(w16 + "\r\n", w16 + "jj", " "),
      "\r" + "\n" + KeyLine("\r\n", w16 + "dict", " "),
      "\r" + "\n" + w12 ]
  }

  /** The nested builder, as the sample indents it. */
  function Nested(): Builder<Int32> {
    IndentsAreIndentation();
    Create(InnerTemplate(Indent20, Indent16))
  }

  function OuterHoles(): seq<Hole<Pair>> {
    [IntHole(SelectI), IntHole(SelectJ), IntHole(SelectJJ), PTransform(SelectI, AsTransformer(Nested()))]
  }

  function OuterTemplate(w12: string, w16: string): (t: Template<Hole<Pair>>)
    requires Indentation(w12) && Indentation(w16)
    ensures t == Template(OuterLiterals(w12, w16), ["", "", "", ""], OuterHoles())
  {
    OuterParsed(w12, w16, OuterHoles());
    Parse(Compose(OuterLiterals(w12, w16), ["0", "1", "2", "3"]), OuterHoles())
  }

  lemma OuterWellFormed(w12: string, w16: string)
    requires Indentation(w12) && Indentation(w16)
    ensures WellFormed(OuterLiterals(w12, w16), ["0", "1", "2", "3"])
    ensures Compose(OuterLiterals(w12, w16), ["0", "1", "2", "3"]) != []
  {
    assert '{' !in w12 && '{' !in w16;
  }

  lemma IndexOnlyFour()
    ensures Specifiers(["0", "1", "2", "3"]) == ["", "", "", ""]
  {
    IndexOnlySpecifiers(["0", "1", "2", "3"]);
  }

  lemma OuterParsed<K>(w12: string, w16: string, keys: seq<K>)
    requires Indentation(w12) && Indentation(w16)
    ensures Parse(Compose(OuterLiterals(w12, w16), ["0", "1", "2", "3"]), keys)
         == Template(OuterLiterals(w12, w16), ["", "", "", ""], keys)
  {
    OuterWellFormed(w12, w16);
    IndexOnlyFour();
    ParseCompose(OuterLiterals(w12, w16), ["0", "1", "2", "3"], keys);
  }

  /** How the outer template's lines divide: the colon-free lines before
      each key, the keys with their indentation, and the blanks around the
      holes. */
  function OuterQs(w16: string): seq<string> {
    ["\r\n", "", w16 + "\r\n", "\r\n"]
  }

  function OuterKs(w16: string): seq<string> {
    [w16 + "i", w16 + "j", w16 + "jj", w16 + "dict"]
  }

  function Blanks(): seq<string> {
    [" ", " ", " ", " "]
  }

  function LineEnds(): seq<string> {
    ["\r", "\r", "\r", "\r"]
  }

  lemma OuterSegment0<T>(t: Template<Hole<T>>, w12: string, w16: string)
    requires Indentation(w12) && Indentation(w16) && t.strings == OuterLiterals(w12, w16)
    ensures KeyHoleSegment(t, OuterQs(w16), OuterKs(w16), Blanks(), LineEnds(), 0)
  {
    TrimIndented(w16, "i");
  }

  lemma OuterSegment1<T>(t: Template<Hole<T>>, w12: string, w16: string)
    requires Indentation(w12) && Indentation(w16) && t.strings == OuterLiterals(w12, w16)
    ensures KeyHoleSegment(t, OuterQs(w16), OuterKs(w16), Blanks(), LineEnds(), 1)
  {
    TrimIndented(w16, "j");
  }

  lemma OuterSegment2<T>(t: Template<Hole<T>>, w12: string, w16: string)
    requires Indentation(w12) && Indentation(w16) && t.strings == OuterLiterals(w12, w16)
    ensures KeyHoleSegment(t, OuterQs(w16), OuterKs(w16), Blanks(), LineEnds(), 2)
  {
    TrimIndented(w16, "jj");
  }

  lemma OuterSegment3<T>(t: Template<Hole<T>>, w12: string, w16: string)
    requires Indentation(w12) && Indentation(w16) && t.strings == OuterLiterals(w12, w16)
    ensures KeyHoleSegment(t, OuterQs(w16), OuterKs(w16), Blanks(), LineEnds(), 3)
  {
    TrimIndented(w16, "dict");
  }

  /** A template with the outer literals and four holes is made of
      `key: {hole}` lines. */
  lemma OuterShape<T>(t: Template<Hole<T>>, w12: string, w16: string)
    requires Indentation(w12) && Indentation(w16) && t.strings == OuterLiterals(w12, w16)
    requires |t.keys| == 4 <= |t.formats|
    ensures KeyHoleTemplate(t, OuterQs(w16), OuterKs(w16), Blanks(), LineEnds(), w12)
  {
    OuterSegment0(t, w12, w16);
    OuterSegment1(t, w12, w16);
    OuterSegment2(t, w12, w16);
    OuterSegment3(t, w12, w16);
  }

  /** Such a template records `i`, `j`, `jj` and `dict`, each with its
      hole. */
  lemma OuterEntries<T>(t: Template<Hole<T>>, w12: string, w16: string)
    requires Indentation(w12) && Indentation(w16) && t.strings == OuterLiterals(w12, w16)
    requires |t.keys| == 4 <= |t.formats|
    ensures Build(t).entries
         == [Entry("i", FromHole(0, t.keys[0], t.formats[0])), Entry("j", FromHole(1, t.keys[1], t.formats[1])),
             Entry("jj", FromHole(2, t.keys[2], t.formats[2])), Entry("dict", FromHole(3, t.keys[3], t.formats[3]))]
  {
    OuterShape(t, w12, w16);
    KeyHoleLines(t, OuterQs(w16), OuterKs(w16), Blanks(), LineEnds(), w12);
    TrimIndented(w16, "i");
    TrimIndented(w16, "j");
    TrimIndented(w16, "jj");
    TrimIndented(w16, "dict");
  }

  /** Replaying four entries. */
  lemma FoldFour<T>(a: Entry<T>, b: Entry<T>, c: Entry<T>, d: Entry<T>, v: T)
    ensures Fold([a, b, c, d], v)
         == Fold([a, b], v)[c.key := Produce(c.producer, v)][d.key := Produce(d.producer, v)]
  {
    assert [a, b, c, d][..3] == [a, b, c] && [a, b, c][..2] == [a, b];
    assert Fold([a, b, c], v) == Fold([a, b], v)[c.key := Produce(c.producer, v)];
  }

  /** The last hole captures the nested dictionary of `i`. */
  lemma CaptureNested(v: Pair)
    ensures Capture(OuterHoles()[3], v) == Dict(map["s" := Str("1"), "v" := BoxedInt(v.0)])
  {
    IndentsAreIndentation();
    InnerDictionary(Indent20, Indent16, v.0);
    var h := PTransform(SelectI, AsTransformer(Nested()));
    assert OuterHoles()[3] == h;
    assert h.GenericHole? && h.select(v) == AsTransformer(Nested())(SelectI(v));
  }

  /** The dictionary of a pair: `i`, `j` and `jj` are boxed integers, `jj`
      the 32-bit sum `j + j`, and `dict` the nested dictionary of `i`. */
  lemma SampleDictionary(w12: string, w16: string, v: Pair)
    requires Indentation(w12) && Indentation(w16)
    ensures ToDictionary(Create(OuterTemplate(w12, w16)), v)
         == map["i" := BoxedInt(v.0), "j" := BoxedInt(v.1), "jj" := BoxedInt(Add32(v.1, v.1)),
                "dict" := Dict(map["s" := Str("1"), "v" := BoxedInt(v.0)])]
  {
    var hs := OuterHoles();
    OuterEntries(OuterTemplate(w12, w16), w12, w16);
    var a := Entry("i", FromHole(0, hs[0], ""));
    var b := Entry("j", FromHole(1, hs[1], ""));
    FoldTwo(a, b, v);
    FoldFour(a, b, Entry("jj", FromHole(2, hs[2], "")), Entry("dict", FromHole(3, hs[3], "")), v);
    CaptureNested(v);
  }

  /** The program's own call, `(i: 30, j: 40)`. */
  lemma ProgramDictionary()
    ensures Indentation(Indent12) && Indentation(Indent16)
    ensures ToDictionary(Create(OuterTemplate(Indent12, Indent16)), (30, 40))
         == map["i" := BoxedInt(30), "j" := BoxedInt(40), "jj" := BoxedInt(80),
                "dict" := Dict(map["s" := Str("1"), "v" := BoxedInt(30)])]
  {
    IndentsAreIndentation();
    SampleDictionary(Indent12, Indent16, (30, 40));
  }
}
