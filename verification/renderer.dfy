/**
  `FormatStringBuilder<T>`: a parsed template replayed into a character
  buffer for a subject value. Segments are appended verbatim; each hole is
  dispatched on how it was built: an integer hole through the buffer's
  integer formatting, a character hole as that character, a generic hole
  through the runtime's `ToString(fmt)`, and a hole that is not a placeholder
  through `ToString(fmt)` of the subject value itself.

  The runtime's formatting (`Stringer<T>`) is not modelled: it is the
  parameter `toText` for boxed objects and `subjectText` for the subject.
 */
module Renderer {
  import opened Decimal
  import opened Holes
  import opened CharBuffer
  import opened Format

  /** The builder; `Unset` is the one whose arrays were left null because the
      template parsed to no segments. */
  datatype FormatStringBuilder<!T> =
    | Unset
    | FormatStringBuilder(strings: seq<string>, formats: seq<string>, holes: seq<Hole<T>>)

  /** The constructor, given the parsed template. */
  function Create<T>(t: Template<Hole<T>>): (b: FormatStringBuilder<T>)
    ensures b.Unset? <==> t.strings == []
  {
    if |t.strings| == 0 then Unset else FormatStringBuilder(t.strings, t.formats, t.keys)
  }

  /** `Apply` indexes `formats` and the hole actions for every segment but the
      last one; the parsed form of a compiler-produced format always has them. */
  predicate Applicable<T>(b: FormatStringBuilder<T>) {
    b.FormatStringBuilder? ==>
      && |b.strings| > 0
      && |b.holes| >= |b.strings| - 1
      && |b.formats| >= |b.strings| - 1
  }

  /** The text one hole contributes. An integer hole goes through
      `Append(int, fmt)` as written, so `int.MinValue` gives a lone `-`. A
      non-placeholder hole renders the subject value, not the constant it was
      built from (the action installed for it passes the subject to the
      generic `Adapt`). */
  function HoleText<T>(h: Hole<T>, v: T, fmt: string,
                       toText: (Object, string) -> string,
                       subjectText: (T, string) -> string): string
  {
    match h
    case IntHole(sel) => Int32TextAsWritten(sel(v))
    case CharHole(sel) => [sel(v)]
    case GenericHole(sel) => toText(sel(v), fmt)
    case Constant(_) => subjectText(v, fmt)
  }

  /** An integer hole renders its value in decimal for every value except
      `int.MinValue`, which renders as `-` alone. */
  lemma IntHoleText<T>(sel: T -> Int32, v: T, fmt: string,
                       toText: (Object, string) -> string,
                       subjectText: (T, string) -> string)
    ensures sel(v) != MinInt32 <==> HoleText(IntHole(sel), v, fmt, toText, subjectText) == DecimalText(sel(v))
    ensures sel(v) == MinInt32 ==> HoleText(IntHole(sel), v, fmt, toText, subjectText) == "-"
  {
  }

  /** The text of every hole, in order. */
  function HoleTexts<T>(b: FormatStringBuilder<T>, v: T,
                        toText: (Object, string) -> string,
                        subjectText: (T, string) -> string): (r: seq<string>)
    requires b.FormatStringBuilder? && Applicable(b)
    ensures |r| == |b.strings| - 1
  {
    seq(|b.strings| - 1, j requires 0 <= j < |b.strings| - 1 =>
      HoleText(b.holes[j], v, b.formats[j], toText, subjectText))
  }

  /** The rendered text: segments interleaved with the hole texts. */
  function RenderText<T>(b: FormatStringBuilder<T>, v: T,
                         toText: (Object, string) -> string,
                         subjectText: (T, string) -> string): string
    requires Applicable(b)
  {
    if b.Unset? then "" else Interleave(b.strings, HoleTexts(b, v, toText, subjectText))
  }

  /** One hole action through `StringBuilderPlaceHolderAdapter`. */
  method AppendHole<T>(s: Sink, h: Hole<T>, v: T, fmt: string,
                       toText: (Object, string) -> string,
                       subjectText: (T, string) -> string) returns (r: Sink)
    requires s.Valid()
    ensures r.Valid() && r.Text() == s.Text() + HoleText(h, v, fmt, toText, subjectText)
  {
    match h
    case IntHole(sel) =>
      r := AppendIntAsWritten(s, sel(v), fmt);
    case CharHole(sel) =>
      r := AppendChar(s, sel(v), fmt);
    case GenericHole(sel) =>
      r := AppendString(s, toText(sel(v), fmt));
    case Constant(_) =>
      r := AppendString(s, subjectText(v, fmt));
  }

  /** `Apply(stringBuilder, value)`: appends `strings[0]`, hole 0,
      `strings[1]`, ..., `strings[last]`, each hole once and in order; an
      `Unset` builder appends nothing. */
  method Apply<T>(b: FormatStringBuilder<T>, sink: Sink, v: T,
                  toText: (Object, string) -> string,
                  subjectText: (T, string) -> string) returns (r: Sink)
    requires sink.Valid() && Applicable(b)
    ensures r.Valid() && r.Text() == sink.Text() + RenderText(b, v, toText, subjectText)
    ensures b.Unset? ==> r == sink
  {
    r := sink;
    if b.Unset? {
      return;
    }
    var n := |b.strings|;
    r := AppendLeadingPairs(b, sink, v, toText, subjectText);
    ghost var last := r;
    r := AppendString(r, b.strings[n - 1]);
    assert r.Text() == last.Text() + b.strings[n - 1];
  }

  /** The loop of `Apply`: every segment but the last, each followed by its
      hole. What is missing from the full rendering is the last segment. */
  method AppendLeadingPairs<T>(b: FormatStringBuilder<T>, sink: Sink, v: T,
                               toText: (Object, string) -> string,
                               subjectText: (T, string) -> string) returns (r: Sink)
    requires sink.Valid() && b.FormatStringBuilder? && Applicable(b)
    ensures r.Valid()
    ensures r.Text() + b.strings[|b.strings| - 1]
         == sink.Text() + Interleave(b.strings, HoleTexts(b, v, toText, subjectText))
  {
    r := sink;
    var n := |b.strings|;
    ghost var fills := HoleTexts(b, v, toText, subjectText);
    var i := 0;
    assert b.strings[..1] == [b.strings[0]] && fills[..0] == [];
    while i < n - 1
      invariant 0 <= i <= n - 1
      invariant r.Valid()
      invariant r.Text() + b.strings[i] == sink.Text() + Interleave(b.strings[..i + 1], fills[..i])
    {
      ghost var before := r.Text();
      r := AppendSegmentAndHole(r, b, i, v, toText, subjectText);
      PairStep(b.strings, fills, i, sink.Text(), before, r.Text());
      i := i + 1;
    }
    assert b.strings[..n] == b.strings && fills[..n - 1] == fills;
  }

  /** One iteration of the loop in `Apply`: segment `i`, then hole `i`. */
  method AppendSegmentAndHole<T>(s: Sink, b: FormatStringBuilder<T>, i: nat, v: T,
                                 toText: (Object, string) -> string,
                                 subjectText: (T, string) -> string) returns (r: Sink)
    requires s.Valid() && b.FormatStringBuilder? && Applicable(b) && i < |b.strings| - 1
    ensures r.Valid()
    ensures r.Text() == s.Text() + b.strings[i] + HoleTexts(b, v, toText, subjectText)[i]
  {
    r := AppendString(s, b.strings[i]);
    r := AppendHole(r, b.holes[i], v, b.formats[i], toText, subjectText);
  }

  /** The loop invariant of `AppendLeadingPairs` is kept by one iteration. */
  lemma PairStep(segs: seq<string>, fills: seq<string>, i: nat, prefix: string, before: string, after: string)
    requires |segs| == |fills| + 1 && i < |fills|
    requires before + segs[i] == prefix + Interleave(segs[..i + 1], fills[..i])
    requires after == before + segs[i] + fills[i]
    ensures after + segs[i + 1] == prefix + Interleave(segs[..i + 2], fills[..i + 1])
  {
    InterleaveStep(segs, fills, i);
  }

  /** Extending the interleaving by one hole and one segment. */
  lemma InterleaveStep(segs: seq<string>, fills: seq<string>, i: nat)
    requires |segs| == |fills| + 1 && i < |fills|
    ensures Interleave(segs[..i + 2], fills[..i + 1])
         == Interleave(segs[..i + 1], fills[..i]) + fills[i] + segs[i + 1]
  {
    assert segs[..i + 2][..i + 1] == segs[..i + 1];
    assert fills[..i + 1][..i] == fills[..i];
  }

  /** A non-empty format without holes renders as itself. */
  lemma LiteralRoundTrip<T>(f: string, v: T,
                            toText: (Object, string) -> string,
                            subjectText: (T, string) -> string)
    requires f != [] && NoHoleFrom(f, 0)
    ensures Applicable(Create(Parse<Hole<T>>(f, [])))
    ensures RenderText(Create(Parse<Hole<T>>(f, [])), v, toText, subjectText) == f
  {
    NoHoleIsOneSegment<Hole<T>>(f, []);
  }

  /** Rendering a well-formed template gives its literal segments with each
      hole's text in place of the hole. */
  lemma RenderComposed<T>(lits: seq<string>, bodies: seq<string>, holes: seq<Hole<T>>, v: T,
                          toText: (Object, string) -> string,
                          subjectText: (T, string) -> string)
    requires WellFormed(lits, bodies) && |holes| == |bodies|
    requires Interleave(lits, Braced(bodies)) != []
    ensures var b := Create(Parse(Interleave(lits, Braced(bodies)), holes));
            && Applicable(b)
            && RenderText(b, v, toText, subjectText)
               == Interleave(lits, seq(|bodies|, j requires 0 <= j < |bodies| =>
                    HoleText(holes[j], v, Specifier("{" + bodies[j]), toText, subjectText)))
  {
    ParseComposed(lits, bodies, holes);
    var b := Create(Parse(Interleave(lits, Braced(bodies)), holes));
    var texts := seq(|bodies|, j requires 0 <= j < |bodies| =>
                    HoleText(holes[j], v, Specifier("{" + bodies[j]), toText, subjectText));
    assert HoleTexts(b, v, toText, subjectText) == texts;
  }
}
