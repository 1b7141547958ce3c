/**
  `DictionaryBuilder<T>`: re-reads a parsed template as lines of the form
  `key: value` and records one entry per accepted line.

  Construction is a single pass of a three-state line machine over the
  literal segments, with one hole between consecutive segments. A line ends
  at `\n`, and also at the final character of the final segment, which is
  consumed as the terminator. A literal line `key: text` yields the trimmed
  text; a hole yields an entry only when it is the whole right-hand side of
  its line. At render time the entries are replayed in order into a map, a
  later entry overwriting an earlier one with the same key.
 */
module Dictionary {
  import opened Strings
  import opened Format
  import opened Holes

  datatype Option<X> = None | Some(value: X)

  /** The exceptions the as-written construction path can raise. */
  datatype Error = NullReference | TypeInitialization(inner: Error)

  datatype Result<X> = Success(value: X) | Failure(error: Error)

  /** How an entry produces its value: a fixed trimmed text, or the value
      captured from hole `index` (its format specifier is carried along and
      not used by the capture). */
  datatype Producer<!T> =
    | Literal(text: string)
    | FromHole(index: nat, hole: Hole<T>, fmt: string)

  datatype Entry<!T> = Entry(key: string, producer: Producer<T>)

  /** The builder; `Empty` is the one used for a template with no segments. */
  datatype Builder<!T> = Empty | Builder(entries: seq<Entry<T>>)

  datatype ParserState = Key | Value | IgnoreLine

  /** The construction state: the line state, the key of the current line,
      the text buffer, whether a hole was inserted on this line and the entry
      it would commit, and the entries committed so far. */
  datatype Machine<!T> = Machine(
    state: ParserState,
    key: string,
    sb: string,
    isInserted: bool,
    pending: Option<Entry<T>>,
    entries: seq<Entry<T>>)

  function Start<T>(): Machine<T> {
    Machine(Key, "", "", false, None, [])
  }

  /** The state at the beginning of a line. */
  predicate AtLineStart<T>(m: Machine<T>) {
    m.state == Key && m.key == "" && m.sb == "" && !m.isInserted && m.pending == None
  }

  // ---------------------------------------------------------------------------
  // Construction

  /** The entries a line terminator commits. */
  function Committed<T>(m: Machine<T>): seq<Entry<T>> {
    if m.state != Value then []
    else
      var value := Trim(m.sb);
      if m.isInserted then
        (if |value| == 0 && m.pending.Some? then [m.pending.value] else [])
      else [Entry(m.key, Literal(value))]
  }

  /** A line terminator: commit, then reset to the start of a line. */
  function EndLine<T>(m: Machine<T>): (r: Machine<T>)
    ensures AtLineStart(r)
    ensures |r.entries| >= |m.entries| && r.entries[..|m.entries|] == m.entries
  {
    Machine(Key, "", "", false, None, m.entries + Committed(m))
  }

  /** A character that does not end the line. */
  function Feed<T>(m: Machine<T>, c: char): Machine<T> {
    match m.state
    case Key =>
      if c == ':' then
        var k := Trim(m.sb);
        m.(key := k, sb := "", state := if |k| == 0 then IgnoreLine else Value)
      else m.(sb := m.sb + [c])
    case Value => m.(sb := m.sb + [c])
    case IgnoreLine => m
  }

  function Step<T>(m: Machine<T>, c: char, terminator: bool): Machine<T> {
    if terminator then EndLine(m) else Feed(m, c)
  }

  /** The local `Parse(s, lastString)`: every character of a segment; in the
      last segment its final character is a terminator whatever it is. */
  function ParseSegment<T>(m: Machine<T>, s: string, last: bool): Machine<T>
    decreases |s|
  {
    if |s| == 0 then m
    else ParseSegment(Step(m, s[0], s[0] == '\n' || (last && |s| == 1)), s[1..], last)
  }

  /** The hole between segment `i` and segment `i + 1`: it is inserted only
      when the line is in the value state with nothing but whitespace since
      the `:`; otherwise the rest of the line is ignored. */
  function AtHole<T>(m: Machine<T>, i: nat, h: Hole<T>, fmt: string): Machine<T> {
    var value := Trim(m.sb);
    if m.state != Value || |value| != 0 then m.(sb := "", state := IgnoreLine)
    else m.(sb := "", isInserted := true, pending := Some(Entry(m.key, FromHole(i, h, fmt))))
  }

  /** The constructor's loop from segment `i`. */
  function Run<T>(t: Template<Hole<T>>, i: nat, m: Machine<T>): Machine<T>
    requires i <= |t.keys| <= |t.formats|
    decreases |t.strings| - i
  {
    if i >= |t.strings| then m
    else
      var last := i == |t.keys|;
      var m' := ParseSegment(m, t.strings[i], last);
      if last then m'
      else Run(t, i + 1, AtHole(m', i, t.keys[i], t.formats[i]))
  }

  /** `new DictionaryBuilder<T>(format)`. */
  function Build<T>(t: Template<Hole<T>>): (b: Builder<T>)
    requires |t.keys| <= |t.formats|
    ensures b.Builder?
    ensures EntriesWellFormed(t, b.entries)
  {
    RunKeepsWellFormed(t, 0, Start());
    Builder(Run(t, 0, Start()).entries)
  }

  /** `DictionaryBuilder.Create`, with `Empty` standing for a builder without
      entries. */
  function Create<T>(t: Template<Hole<T>>): (b: Builder<T>)
    requires |t.keys| <= |t.formats|
    ensures b.Empty? <==> t.strings == []
  {
    if |t.strings| == 0 then Empty else Build(t)
  }

  // ---------------------------------------------------------------------------
  // The empty template as written

  /** `DictionaryBuilder.Create` as written. The empty template returns the
      static field `Empty`, which is `new DictionaryBuilder<T>(default)`. The
      segment list of `default(Format)` is null, so the constructor's first
      read of `Strings.Count` throws a null reference; thrown inside a static
      field initializer, it fails the type initializer and is rethrown,
      wrapped, where the field is read. Every other template is built
      normally and agrees with `Create`. */
  function CreateAsWritten<T>(t: Template<Hole<T>>): (r: Result<Builder<T>>)
    requires |t.keys| <= |t.formats|
    ensures r.Failure? <==> t.strings == []
    ensures r.Success? ==> r.value == Create(t)
  {
    if |t.strings| == 0 then Failure(TypeInitialization(NullReference)) else Success(Build(t))
  }

  /** The empty template: as written, `Create` fails with a type
      initialization error around a null reference; the corrected `Create`
      returns the builder that `ToDictionary` treats as having no entries,
      as its null check intends, and renders the empty dictionary. */
  lemma EmptyTemplateThrows<T>(v: T)
    ensures CreateAsWritten(Parse<Hole<T>>("", [])) == Failure(TypeInitialization(NullReference))
    ensures Create(Parse<Hole<T>>("", [])) == Empty
    ensures ToDictionary(Create(Parse<Hole<T>>("", [])), v) == map[]
  {
  }

  // ---------------------------------------------------------------------------
  // Rendering

  /** `DictionaryPlaceholderAdapter`: the value a hole hands to the adapter,
      captured as it is. A hole that is not a placeholder yields its own
      object. */
  function Capture<T>(h: Hole<T>, v: T): Object {
    match h
    case IntHole(sel) => BoxedInt(sel(v))
    case CharHole(sel) => BoxedChar(sel(v))
    case GenericHole(sel) => sel(v)
    case Constant(obj) => obj
  }

  function Produce<T>(p: Producer<T>, v: T): Object {
    match p
    case Literal(text) => Str(text)
    case FromHole(_, h, _) => Capture(h, v)
  }

  /** The entries replayed in order into a map. */
  function Fold<T>(es: seq<Entry<T>>, v: T): map<string, Object>
    decreases |es|
  {
    if |es| == 0 then map[]
    else
      var e := es[|es| - 1];
      Fold(es[..|es| - 1], v)[e.key := Produce(e.producer, v)]
  }

  /** `ToDictionary(value)`. */
  function ToDictionary<T>(b: Builder<T>, v: T): map<string, Object> {
    match b
    case Empty => map[]
    case Builder(es) => Fold(es, v)
  }

  /** The builder as an `ITransformer`: its `Transform` is `ToDictionary`,
      so a hole `P(selector, builder)` captures a nested dictionary. */
  function AsTransformer<K>(b: Builder<K>): K -> Object {
    k => Dict(ToDictionary(b, k))
  }

  // ---------------------------------------------------------------------------
  // Invariant of construction

  /** A key as the machine can record it: trimmed, non-empty, on one line and
      without `:`. */
  predicate GoodKey(k: string) {
    k != [] && Trim(k) == k && ':' !in k && '\n' !in k
  }

  ghost predicate EntryWellFormed<T>(t: Template<Hole<T>>, e: Entry<T>) {
    && GoodKey(e.key)
    && match e.producer
       case Literal(text) => Trim(text) == text && '\n' !in text
       case FromHole(i, h, fmt) => i < |t.keys| && i < |t.formats| && fmt == t.formats[i] && h == t.keys[i]
  }

  /** Every recorded entry has a good key; a literal value is a trimmed text
      of one line; a hole entry names hole `i` with its own specifier. */
  ghost predicate EntriesWellFormed<T>(t: Template<Hole<T>>, es: seq<Entry<T>>) {
    forall j :: 0 <= j < |es| ==> EntryWellFormed(t, es[j])
  }

  ghost predicate MachineWellFormed<T>(t: Template<Hole<T>>, m: Machine<T>) {
    && EntriesWellFormed(t, m.entries)
    && (m.state == Value ==> GoodKey(m.key))
    && (m.state == Key ==> ':' !in m.sb && '\n' !in m.sb)
    && (m.state == Value ==> '\n' !in m.sb)
    && (m.isInserted <==> m.pending.Some?)
    && (m.pending.Some? ==> EntryWellFormed(t, m.pending.value) && m.pending.value.producer.FromHole?)
  }

  lemma TrimmedHasNo(s: string, c: char)
    requires c !in s
    ensures c !in Trim(s)
  {
    TrimStartShape(s);
    TrimEndShape(TrimStart(s));
    var k :| 0 <= k <= |s| && TrimStart(s) == s[k..];
    assert Trim(s) == s[k..k + |Trim(s)|];
  }

  lemma TrimIdempotent(s: string)
    ensures Trim(Trim(s)) == Trim(s)
  {
    TrimFixed(Trim(s));
  }

  lemma StepKeepsWellFormed<T>(t: Template<Hole<T>>, m: Machine<T>, c: char, terminator: bool)
    requires MachineWellFormed(t, m)
    requires !terminator ==> c != '\n'
    ensures MachineWellFormed(t, Step(m, c, terminator))
  {
    if terminator {
      if m.state == Value && !m.isInserted {
        TrimmedHasNo(m.sb, '\n');
        TrimIdempotent(m.sb);
      }
      var r := EndLine(m);
      assert forall j :: 0 <= j < |r.entries| ==>
        EntryWellFormed(t, r.entries[j]) by {
        forall j | 0 <= j < |r.entries|
          ensures EntryWellFormed(t, r.entries[j])
        {
          if j >= |m.entries| {
            assert r.entries[j] in Committed(m);
          }
        }
      }
    } else if m.state == Key && c == ':' {
      TrimmedHasNo(m.sb, ':');
      TrimmedHasNo(m.sb, '\n');
      TrimIdempotent(m.sb);
    }
  }

  lemma {:induction false} ParseSegmentKeepsWellFormed<T>(t: Template<Hole<T>>, m: Machine<T>, s: string, last: bool)
    requires MachineWellFormed(t, m)
    ensures MachineWellFormed(t, ParseSegment(m, s, last))
    decreases |s|
  {
    if |s| > 0 {
      var term := s[0] == '\n' || (last && |s| == 1);
      StepKeepsWellFormed(t, m, s[0], term);
      ParseSegmentKeepsWellFormed(t, Step(m, s[0], term), s[1..], last);
    }
  }

  lemma {:induction false} RunKeepsWellFormed<T>(t: Template<Hole<T>>, i: nat, m: Machine<T>)
    requires i <= |t.keys| <= |t.formats|
    requires MachineWellFormed(t, m)
    ensures MachineWellFormed(t, Run(t, i, m))
    decreases |t.strings| - i
  {
    if i < |t.strings| {
      var last := i == |t.keys|;
      ParseSegmentKeepsWellFormed(t, m, t.strings[i], last);
      if !last {
        RunKeepsWellFormed(t, i + 1, AtHole(ParseSegment(m, t.strings[i], last), i, t.keys[i], t.formats[i]));
      }
    }
  }

  // ---------------------------------------------------------------------------
  // Lines

  /** Splitting a segment: the characters of `x` are never the final
      character of the last segment when `y` follows them. */
  lemma {:induction false} ParseSegmentSplit<T>(m: Machine<T>, x: string, y: string, last: bool)
    requires y != [] || !last
    ensures ParseSegment(m, x + y, last) == ParseSegment(ParseSegment(m, x, false), y, last)
    decreases |x|
  {
    if |x| == 0 {
      assert x + y == y;
    } else {
      assert (x + y)[1..] == x[1..] + y;
      ParseSegmentSplit(Step(m, x[0], x[0] == '\n'), x[1..], y, last);
    }
  }

  /** The final character of the last segment ends the line, whatever it is,
      and is never part of a key or a value. */
  lemma LastCharacterEndsLine<T>(m: Machine<T>, x: string, c: char)
    ensures ParseSegment(m, x + [c], true) == EndLine(ParseSegment(m, x, false))
  {
    ParseSegmentSplit(m, x, [c], true);
  }

  lemma {:induction false} KeyRun<T>(m: Machine<T>, a: string)
    requires m.state == Key && ':' !in a && '\n' !in a
    ensures ParseSegment(m, a, false) == m.(sb := m.sb + a)
    decreases |a|
  {
    if |a| == 0 {
      assert m.sb + a == m.sb;
    } else {
      KeyRun(m.(sb := m.sb + [a[0]]), a[1..]);
      assert m.sb + [a[0]] + a[1..] == m.sb + a;
    }
  }

  lemma {:induction false} ValueRun<T>(m: Machine<T>, b: string)
    requires m.state == Value && '\n' !in b
    ensures ParseSegment(m, b, false) == m.(sb := m.sb + b)
    decreases |b|
  {
    if |b| == 0 {
      assert m.sb + b == m.sb;
    } else {
      ValueRun(m.(sb := m.sb + [b[0]]), b[1..]);
      assert m.sb + [b[0]] + b[1..] == m.sb + b;
    }
  }

  lemma {:induction false} IgnoreRun<T>(m: Machine<T>, b: string)
    requires m.state == IgnoreLine && '\n' !in b
    ensures ParseSegment(m, b, false) == m
    decreases |b|
  {
    if |b| > 0 {
      IgnoreRun(m, b[1..]);
    }
  }

  /** The machine after the text `a:` of a line: the key is the trimmed text
      before the first `:`; an empty key ignores the rest of the line. */
  lemma KeyThenColon<T>(m: Machine<T>, a: string)
    requires AtLineStart(m) && ':' !in a && '\n' !in a
    ensures var r := ParseSegment(m, a + [':'], false);
      && r.entries == m.entries && r.sb == "" && !r.isInserted && r.pending == None
      && r.key == Trim(a)
      && r.state == (if Trim(a) == [] then IgnoreLine else Value)
  {
    ParseSegmentSplit(m, a, [':'], false);
    KeyRun(m, a);
    assert m.sb + a == a;
  }

  /** The entry a literal line `a:b` yields. */
  function LiteralLineEntries<T>(a: string, b: string): seq<Entry<T>> {
    if Trim(a) == [] then [] else [Entry(Trim(a), Literal(Trim(b)))]
  }

  /** A literal line `a:b`, ended by a newline or by the end of the template,
      yields the trimmed key and the trimmed value, `:` characters after the
      first staying in the value; an empty key yields nothing. */
  lemma LiteralLine<T>(m: Machine<T>, a: string, b: string, c: char, last: bool)
    requires AtLineStart(m)
    requires ':' !in a && '\n' !in a && '\n' !in b
    requires c == '\n' || last
    ensures var r := ParseSegment(m, a + [':'] + b + [c], last);
      AtLineStart(r) && r.entries == m.entries + LiteralLineEntries(a, b)
  {
    var m1 := ParseSegment(m, a + [':'], false);
    KeyThenColon(m, a);
    ParseSegmentSplit(m, a + [':'], b + [c], last);
    assert a + [':'] + b + [c] == (a + [':']) + (b + [c]);
    ParseSegmentSplit(m1, b, [c], last);
    if m1.state == Value {
      ValueRun(m1, b);
      assert m1.sb + b == b;
    } else {
      IgnoreRun(m1, b);
    }
  }

  /** A line without `:`, ended by a newline or by the end of the template,
      yields nothing. */
  lemma NoColonLine<T>(m: Machine<T>, a: string, c: char, last: bool)
    requires AtLineStart(m)
    requires ':' !in a && '\n' !in a
    requires c == '\n' || last
    ensures var r := ParseSegment(m, a + [c], last);
      AtLineStart(r) && r.entries == m.entries
  {
    ParseSegmentSplit(m, a, [c], last);
    KeyRun(m, a);
  }

  /** The entry a line `a:b{hole}c` yields. */
  function HoleLineEntries<T>(a: string, b: string, c: string, i: nat, h: Hole<T>, fmt: string): seq<Entry<T>> {
    if Trim(a) != [] && AllWhiteSpace(b) && AllWhiteSpace(c) then [Entry(Trim(a), FromHole(i, h, fmt))] else []
  }

  /** A line `a:b{hole}c` yields an entry for the hole exactly when the key is
      not empty and only whitespace surrounds the hole on its line. */
  lemma HoleLine<T>(m: Machine<T>, a: string, b: string, i: nat, h: Hole<T>, fmt: string, c: string, d: char, last: bool)
    requires AtLineStart(m)
    requires ':' !in a && '\n' !in a && '\n' !in b && '\n' !in c
    requires d == '\n' || last
    ensures var m1 := ParseSegment(m, a + [':'] + b, false);
      var r := ParseSegment(AtHole(m1, i, h, fmt), c + [d], last);
      AtLineStart(r) && r.entries == m.entries + HoleLineEntries(a, b, c, i, h, fmt)
  {
    var m0 := ParseSegment(m, a + [':'], false);
    KeyThenColon(m, a);
    ParseSegmentSplit(m, a + [':'], b, false);
    var m1 := AtHole(ParseSegment(m0, b, false), i, h, fmt);
    TextThenHole(m0, b, i, h, fmt);
    TrimEmptyIff(a);
    LineEndAfterHoles(m1, c, d, last);
  }

  /** Text of a line after its `:` or after a hole, then a hole: the hole is
      inserted exactly when the line is still in the value state and the text
      is whitespace. */
  lemma TextThenHole<T>(m: Machine<T>, b: string, i: nat, h: Hole<T>, fmt: string)
    requires m.state == Value || m.state == IgnoreLine
    requires m.sb == "" && '\n' !in b
    ensures var r := AtHole(ParseSegment(m, b, false), i, h, fmt);
      && r.sb == "" && r.key == m.key && r.entries == m.entries
      && (r.state == Value || r.state == IgnoreLine)
      && (r.state == Value <==> m.state == Value && AllWhiteSpace(b))
      && (r.state == Value ==> r.isInserted && r.pending == Some(Entry(m.key, FromHole(i, h, fmt))))
  {
    TrimEmptyIff(b);
    if m.state == Value {
      ValueRun(m, b);
      assert m.sb + b == b;
    } else {
      IgnoreRun(m, b);
    }
  }

  /** A hole reached while the line is still reading its key, before its
      first `:`, drops the line: whatever follows, up to and including the
      terminator, records nothing. */
  lemma KeyHoleDrops<T>(m: Machine<T>, a: string, i: nat, h: Hole<T>, fmt: string,
                        c: string, d: char, last: bool)
    requires AtLineStart(m)
    requires ':' !in a && '\n' !in a && '\n' !in c
    requires d == '\n' || last
    ensures AtHole(ParseSegment(m, a, false), i, h, fmt).state == IgnoreLine
    ensures var r := ParseSegment(AtHole(ParseSegment(m, a, false), i, h, fmt), c + [d], last);
      AtLineStart(r) && r.entries == m.entries
  {
    KeyRun(m, a);
    var m1 := AtHole(ParseSegment(m, a, false), i, h, fmt);
    ParseSegmentSplit(m1, c, [d], last);
    IgnoreRun(m1, c);
  }

  /** The end of a line whose last hole has been reached: the pending entry
      is committed exactly when the line is still in the value state and only
      whitespace follows the hole. */
  lemma LineEndAfterHoles<T>(m: Machine<T>, c: string, d: char, last: bool)
    requires m.state == Value || m.state == IgnoreLine
    requires m.state == Value ==> m.isInserted && m.pending.Some?
    requires m.sb == "" && '\n' !in c
    requires d == '\n' || last
    ensures var r := ParseSegment(m, c + [d], last);
      && AtLineStart(r)
      && r.entries == m.entries + (if m.state == Value && AllWhiteSpace(c) then [m.pending.value] else [])
  {
    ParseSegmentSplit(m, c, [d], last);
    TrimEmptyIff(c);
    if m.state == Value {
      ValueRun(m, c);
      assert m.sb + c == c;
    } else {
      IgnoreRun(m, c);
    }
  }

  /** Two holes on one line: the later hole replaces the entry of the
      earlier one, so at most the later hole is recorded. */
  lemma LaterHoleReplaces<T>(m: Machine<T>, a: string, b: string, i: nat, h: Hole<T>, fmt: string,
                             c: string, j: nat, h2: Hole<T>, fmt2: string, e: string, d: char, last: bool)
    requires AtLineStart(m)
    requires ':' !in a && '\n' !in a && '\n' !in b && '\n' !in c && '\n' !in e
    requires d == '\n' || last
    ensures var m1 := AtHole(ParseSegment(m, a + [':'] + b, false), i, h, fmt);
      var m2 := AtHole(ParseSegment(m1, c, false), j, h2, fmt2);
      var r := ParseSegment(m2, e + [d], last);
      AtLineStart(r) && r.entries == m.entries + HoleLineEntries(a, b + c, e, j, h2, fmt2)
  {
    var m0 := ParseSegment(m, a + [':'], false);
    KeyThenColon(m, a);
    ParseSegmentSplit(m, a + [':'], b, false);
    var m1 := AtHole(ParseSegment(m0, b, false), i, h, fmt);
    TextThenHole(m0, b, i, h, fmt);
    var m2 := AtHole(ParseSegment(m1, c, false), j, h2, fmt2);
    TextThenHole(m1, c, j, h2, fmt2);
    TrimEmptyIff(a);
    assert AllWhiteSpace(b + c) <==> AllWhiteSpace(b) && AllWhiteSpace(c) by {
      assert forall k :: 0 <= k < |b| ==> (b + c)[k] == b[k];
      assert forall k :: 0 <= k < |c| ==> (b + c)[|b| + k] == c[k];
    }
    LineEndAfterHoles(m2, e, d, last);
  }

  /** Text made of whole lines without `:` leaves no entry behind and ends,
      when it ends a line, at the start of the next one. */
  lemma {:induction false} ColonFreeRun<T>(m: Machine<T>, q: string, last: bool)
    requires m.state == Key && m.key == "" && !m.isInserted && m.pending == None
    requires ':' !in q
    ensures var r := ParseSegment(m, q, last);
      && r.state == Key && r.key == "" && !r.isInserted && r.pending == None
      && r.entries == m.entries
      && (q != [] && (last || q[|q| - 1] == '\n') ==> r.sb == "")
    decreases |q|
  {
    if |q| > 0 {
      var term := q[0] == '\n' || (last && |q| == 1);
      ColonFreeRun(Step(m, q[0], term), q[1..], last);
    }
  }

  // ---------------------------------------------------------------------------
  // Templates made of `key: {hole}` lines

  /** Lines without `:`, possibly none, each ended by a newline. */
  predicate ColonFreeLines(q: string) {
    ':' !in q && (q == [] || q[|q| - 1] == '\n')
  }

  /** The shape of the sample template: hole `j` is the whole right-hand side
      of a line `ks[j]: {j}`, preceded by the colon-free lines `qs[j]`, with
      whitespace `pads[j]` between the `:` and the hole and whitespace
      `ends[j]` between the hole and the newline; the template ends with
      colon-free text `z` after the last newline. */
  ghost predicate KeyHoleTemplate<T>(t: Template<Hole<T>>, qs: seq<string>, ks: seq<string>,
                                     pads: seq<string>, ends: seq<string>, z: string) {
    var n := |t.keys|;
    && n <= |t.formats| && |t.strings| == n + 1
    && |qs| == n && |ks| == n && |pads| == n && |ends| == n
    && (forall j :: 0 <= j < n ==> KeyHoleSegment(t, qs, ks, pads, ends, j))
    && t.strings[n] == (if n == 0 then [] else ends[n - 1]) + "\n" + z
    && ':' !in z
  }

  /** Segment `j` of such a template: the end of line `j - 1`, then line `j`
      up to its hole. */
  ghost predicate KeyHoleSegment<T>(t: Template<Hole<T>>, qs: seq<string>, ks: seq<string>,
                                    pads: seq<string>, ends: seq<string>, j: nat)
    requires j < |t.strings| && j < |qs| && j < |ks| && j < |pads| && j < |ends|
  {
    && ColonFreeLines(qs[j])
    && ':' !in ks[j] && '\n' !in ks[j] && Trim(ks[j]) != []
    && AllWhiteSpace(pads[j]) && '\n' !in pads[j]
    && AllWhiteSpace(ends[j]) && '\n' !in ends[j]
    && t.strings[j] == (if j == 0 then [] else ends[j - 1] + "\n") + KeyLine(qs[j], ks[j], pads[j])
  }

  /** Colon-free lines `q`, then the key text `k`, the `:` and the
      whitespace `pad` before a hole. */
  function KeyLine(q: string, k: string, pad: string): string {
    q + k + ":" + pad
  }

  /** One entry per hole, in template order, under its trimmed key. */
  function KeyHoleEntries<T>(t: Template<Hole<T>>, ks: seq<string>): seq<Entry<T>>
    requires |ks| <= |t.keys| <= |t.formats|
  {
    seq(|ks|, j requires 0 <= j < |ks| => Entry(Trim(ks[j]), FromHole(j, t.keys[j], t.formats[j])))
  }

  /** The machine right after a `key: {hole}` line's hole was inserted. */
  lemma KeyHoleLine<T>(m: Machine<T>, q: string, k: string, pad: string, j: nat, h: Hole<T>, fmt: string)
    requires AtLineStart(m) && ColonFreeLines(q)
    requires ':' !in k && '\n' !in k && Trim(k) != []
    requires AllWhiteSpace(pad) && '\n' !in pad
    ensures AtHole(ParseSegment(m, KeyLine(q, k, pad), false), j, h, fmt)
         == Machine(Value, Trim(k), "", true, Some(Entry(Trim(k), FromHole(j, h, fmt))), m.entries)
  {
    ColonFreeRun(m, q, false);
    assert ParseSegment(m, q, false) == m;
    assert q + k + ":" + pad == q + ((k + ":") + pad);
    ParseSegmentSplit(m, q, (k + ":") + pad, false);
    KeyThenColon(m, k);
    ParseSegmentSplit(m, k + ":", pad, false);
    TextThenHole(ParseSegment(m, k + ":", false), pad, j, h, fmt);
  }

  /** The newline after an inserted hole, with only whitespace before it,
      commits the hole's entry. */
  lemma CommitAfterHole<T>(m: Machine<T>, e: string, rest: string, last: bool)
    requires m.state == Value && m.sb == "" && m.isInserted && m.pending.Some?
    requires AllWhiteSpace(e) && '\n' !in e
    requires rest != [] || !last
    ensures ParseSegment(m, e + "\n" + rest, last) == ParseSegment(EndLine(m), rest, last)
    ensures EndLine(m).entries == m.entries + [m.pending.value]
  {
    assert e + "\n" + rest == e + (['\n'] + rest);
    ParseSegmentSplit(m, e, ['\n'] + rest, last);
    ValueRun(m, e);
    assert m.sb + e == e;
    ParseSegmentSplit(m.(sb := e), ['\n'], rest, last);
    TrimEmptyIff(e);
    TrimEmptyIff([]);
  }

  /** The last segment after an inserted hole: whitespace, a newline and
      colon-free text commit the hole's entry and nothing else. */
  lemma FinalLineAfterHole<T>(m: Machine<T>, e: string, z: string)
    requires m.state == Value && m.sb == "" && m.isInserted && m.pending.Some?
    requires AllWhiteSpace(e) && '\n' !in e && ':' !in z
    ensures ParseSegment(m, e + "\n" + z, true).entries == m.entries + [m.pending.value]
  {
    if z == [] {
      assert e + "\n" + z == e + ['\n'];
      LastCharacterEndsLine(m, e, '\n');
      ValueRun(m, e);
      assert m.sb + e == e;
      TrimEmptyIff(e);
    } else {
      CommitAfterHole(m, e, z, true);
      ColonFreeRun(EndLine(m), z, true);
    }
  }

  /** A segment between two holes of `key: {hole}` lines: it commits the
      earlier hole's entry and inserts the later hole. */
  lemma NextKeyHoleLine<T>(m: Machine<T>, e: string, q: string, k: string, pad: string, j: nat, h: Hole<T>, fmt: string)
    requires m.state == Value && m.sb == "" && m.isInserted && m.pending.Some?
    requires AllWhiteSpace(e) && '\n' !in e && ColonFreeLines(q)
    requires ':' !in k && '\n' !in k && Trim(k) != []
    requires AllWhiteSpace(pad) && '\n' !in pad
    ensures AtHole(ParseSegment(m, e + "\n" + KeyLine(q, k, pad), false), j, h, fmt)
         == Machine(Value, Trim(k), "", true, Some(Entry(Trim(k), FromHole(j, h, fmt))), m.entries + [m.pending.value])
  {
    CommitAfterHole(m, e, KeyLine(q, k, pad), false);
    KeyHoleLine(EndLine(m), q, k, pad, j, h, fmt);
  }

  lemma KeyHoleLast<T>(t: Template<Hole<T>>, qs: seq<string>, ks: seq<string>,
                       pads: seq<string>, ends: seq<string>, z: string, m: Machine<T>)
    requires KeyHoleTemplate(t, qs, ks, pads, ends, z)
    requires 1 <= |t.keys|
    requires m.state == Value && m.sb == "" && m.isInserted
    requires m.pending == Some(KeyHoleEntries(t, ks)[|t.keys| - 1])
    requires m.entries == KeyHoleEntries(t, ks)[..|t.keys| - 1]
    ensures Run(t, |t.keys|, m).entries == KeyHoleEntries(t, ks)
  {
    var n := |t.keys|;
    assert Run(t, n, m) == ParseSegment(m, t.strings[n], true);
    assert AllWhiteSpace(ends[n - 1]) && '\n' !in ends[n - 1] by {
      assert KeyHoleSegment(t, qs, ks, pads, ends, n - 1);
    }
    FinalLineAfterHole(m, ends[n - 1], z);
    LastEntry(KeyHoleEntries(t, ks));
  }

  lemma RunStep<T>(t: Template<Hole<T>>, j: nat, m: Machine<T>)
    requires j < |t.keys| <= |t.formats| && j < |t.strings|
    ensures Run(t, j, m) == Run(t, j + 1, AtHole(ParseSegment(m, t.strings[j], false), j, t.keys[j], t.formats[j]))
  {
  }

  lemma KeyHoleFacts<T>(t: Template<Hole<T>>, qs: seq<string>, ks: seq<string>,
                        pads: seq<string>, ends: seq<string>, z: string, j: nat)
    requires KeyHoleTemplate(t, qs, ks, pads, ends, z)
    requires 1 <= j < |t.keys|
    ensures t.strings[j] == ends[j - 1] + "\n" + KeyLine(qs[j], ks[j], pads[j])
    ensures AllWhiteSpace(ends[j - 1]) && '\n' !in ends[j - 1] && ColonFreeLines(qs[j])
    ensures ':' !in ks[j] && '\n' !in ks[j] && Trim(ks[j]) != []
    ensures AllWhiteSpace(pads[j]) && '\n' !in pads[j]
  {
    assert KeyHoleSegment(t, qs, ks, pads, ends, j);
    assert KeyHoleSegment(t, qs, ks, pads, ends, j - 1);
  }

  lemma LastEntry<X>(s: seq<X>)
    requires |s| > 0
    ensures s == s[..|s| - 1] + [s[|s| - 1]]
  {
  }

  /** One hole of a `key: {hole}` template: the segment before hole `j`
      commits entry `j - 1` and hole `j` leaves entry `j` pending. */
  lemma KeyHoleStep<T>(t: Template<Hole<T>>, qs: seq<string>, ks: seq<string>,
                       pads: seq<string>, ends: seq<string>, z: string, j: nat, m: Machine<T>)
    requires KeyHoleTemplate(t, qs, ks, pads, ends, z)
    requires 1 <= j < |t.keys|
    requires m.state == Value && m.sb == "" && m.isInserted
    requires m.pending == Some(KeyHoleEntries(t, ks)[j - 1])
    requires m.entries == KeyHoleEntries(t, ks)[..j - 1]
    ensures Run(t, j, m)
         == Run(t, j + 1, Machine(Value, Trim(ks[j]), "", true, Some(KeyHoleEntries(t, ks)[j]), KeyHoleEntries(t, ks)[..j]))
  {
    RunStep(t, j, m);
    KeyHoleFacts(t, qs, ks, pads, ends, z, j);
    ghost var es := KeyHoleEntries(t, ks);
    assert es[..j - 1] + [es[j - 1]] == es[..j];
    NextKeyHoleLine(m, ends[j - 1], qs[j], ks[j], pads[j], j, t.keys[j], t.formats[j]);
  }

  lemma {:induction false} KeyHoleRun<T>(t: Template<Hole<T>>, qs: seq<string>, ks: seq<string>,
                                         pads: seq<string>, ends: seq<string>, z: string, j: nat, m: Machine<T>)
    requires KeyHoleTemplate(t, qs, ks, pads, ends, z)
    requires 1 <= j <= |t.keys|
    requires m.state == Value && m.sb == "" && m.isInserted
    requires m.pending == Some(KeyHoleEntries(t, ks)[j - 1])
    requires m.entries == KeyHoleEntries(t, ks)[..j - 1]
    ensures Run(t, j, m).entries == KeyHoleEntries(t, ks)
    decreases |t.keys| - j
  {
    if j == |t.keys| {
      KeyHoleLast(t, qs, ks, pads, ends, z, m);
    } else {
      var es := KeyHoleEntries(t, ks);
      KeyHoleStep(t, qs, ks, pads, ends, z, j, m);
      KeyHoleRun(t, qs, ks, pads, ends, z, j + 1, Machine(Value, Trim(ks[j]), "", true, Some(es[j]), es[..j]));
    }
  }

  /** A template of `key: {hole}` lines, as in the sample, records one entry
      per hole, in order, under its trimmed key. */
  lemma KeyHoleLines<T>(t: Template<Hole<T>>, qs: seq<string>, ks: seq<string>,
                        pads: seq<string>, ends: seq<string>, z: string)
    requires KeyHoleTemplate(t, qs, ks, pads, ends, z)
    ensures Build(t).entries == KeyHoleEntries(t, ks)
  {
    var m: Machine<T> := Start();
    if |t.keys| == 0 {
      assert Build(t).entries == ParseSegment(m, t.strings[0], true).entries;
      if z == [] {
        assert t.strings[0] == ['\n'];
        assert ParseSegment(m, ['\n'], true) == ParseSegment(EndLine(m), [], true);
      } else {
        assert t.strings[0] == ['\n'] + z;
        ParseSegmentSplit(m, ['\n'], z, true);
        ColonFreeRun(EndLine(m), z, true);
      }
    } else {
      assert KeyHoleSegment(t, qs, ks, pads, ends, 0);
      assert t.strings[0] == KeyLine(qs[0], ks[0], pads[0]) by {
        assert [] + KeyLine(qs[0], ks[0], pads[0]) == KeyLine(qs[0], ks[0], pads[0]);
      }
      KeyHoleLine(m, qs[0], ks[0], pads[0], 0, t.keys[0], t.formats[0]);
      KeyHoleRun(t, qs, ks, pads, ends, z, 1, AtHole(ParseSegment(m, t.strings[0], false), 0, t.keys[0], t.formats[0]));
    }
  }

  // ---------------------------------------------------------------------------
  // Rendering properties

  /** The keys of the dictionary are the keys of the entries. */
  lemma {:induction false} FoldKeys<T>(es: seq<Entry<T>>, v: T)
    ensures Fold(es, v).Keys == set j | 0 <= j < |es| :: es[j].key
    decreases |es|
  {
    if |es| > 0 {
      var init := es[..|es| - 1];
      FoldKeys(init, v);
      assert (set j | 0 <= j < |es| :: es[j].key) == (set j | 0 <= j < |init| :: init[j].key) + {es[|es| - 1].key} by {
        forall j | 0 <= j < |init|
          ensures init[j].key == es[j].key
        {
        }
      }
    }
  }

  /** Entries are applied in order: the value under a key is produced by the
      last entry with that key. */
  lemma {:induction false} FoldLastWins<T>(es: seq<Entry<T>>, v: T, j: nat)
    requires j < |es|
    requires forall k :: j < k < |es| ==> es[k].key != es[j].key
    ensures es[j].key in Fold(es, v)
    ensures Fold(es, v)[es[j].key] == Produce(es[j].producer, v)
    decreases |es|
  {
    if j < |es| - 1 {
      var init := es[..|es| - 1];
      assert init[j] == es[j];
      FoldLastWins(init, v, j);
    }
  }

  /** Every value of the dictionary was produced by an entry with its key. */
  lemma {:induction false} FoldValueFrom<T>(es: seq<Entry<T>>, v: T, k: string)
    requires k in Fold(es, v)
    ensures exists j :: 0 <= j < |es| && es[j].key == k && Fold(es, v)[k] == Produce(es[j].producer, v)
    decreases |es|
  {
    var last := |es| - 1;
    if es[last].key != k {
      var init := es[..last];
      FoldValueFrom(init, v, k);
      var j :| 0 <= j < |init| && init[j].key == k && Fold(init, v)[k] == Produce(init[j].producer, v);
      assert es[j] == init[j];
    } else {
      assert es[last].key == k && Fold(es, v)[k] == Produce(es[last].producer, v);
    }
  }

  /** What `ToDictionary` returns for a template: every key is trimmed,
      non-empty and free of `:` and newlines, and every value is either a
      trimmed one-line text from a literal line or the value captured from
      one of the template's holes. */
  lemma DictionaryContents<T>(t: Template<Hole<T>>, v: T, k: string)
    requires |t.keys| <= |t.formats|
    requires k in ToDictionary(Create(t), v)
    ensures GoodKey(k)
    ensures var d := ToDictionary(Create(t), v);
      || (exists text :: d[k] == Str(text) && Trim(text) == text && '\n' !in text)
      || (exists i :: 0 <= i < |t.keys| && d[k] == Capture(t.keys[i], v))
  {
    var es := Build(t).entries;
    FoldValueFrom(es, v, k);
    var j :| 0 <= j < |es| && es[j].key == k && Fold(es, v)[k] == Produce(es[j].producer, v);
    assert EntryWellFormed(t, es[j]);
    match es[j].producer
    case Literal(text) =>
      assert Fold(es, v)[k] == Str(text);
    case FromHole(i, h, fmt) =>
      assert Fold(es, v)[k] == Capture(t.keys[i], v);
  }

  /** In a template of `key: {hole}` lines the dictionary's keys are the
      trimmed line keys, and the value under the key of line `j` is what
      hole `j` captures, unless a later line repeats that key. */
  lemma KeyHoleCapture<T>(t: Template<Hole<T>>, qs: seq<string>, ks: seq<string>,
                          pads: seq<string>, ends: seq<string>, z: string, v: T, j: nat)
    requires KeyHoleTemplate(t, qs, ks, pads, ends, z)
    requires j < |t.keys|
    requires forall i :: j < i < |ks| ==> Trim(ks[i]) != Trim(ks[j])
    ensures ToDictionary(Create(t), v).Keys == set i | 0 <= i < |ks| :: Trim(ks[i])
    ensures Trim(ks[j]) in ToDictionary(Create(t), v)
    ensures ToDictionary(Create(t), v)[Trim(ks[j])] == Capture(t.keys[j], v)
  {
    KeyHoleLines(t, qs, ks, pads, ends, z);
    var es := KeyHoleEntries(t, ks);
    FoldKeys(es, v);
    assert (set i | 0 <= i < |es| :: es[i].key) == set i | 0 <= i < |ks| :: Trim(ks[i]) by {
      forall i | 0 <= i < |ks|
        ensures es[i].key == Trim(ks[i])
      {
      }
    }
    FoldLastWins(es, v, j);
  }

  /** A line `key: {P(selector, builder)}` records the builder's own
      dictionary of the selected value, since the builder's `Transform` is
      `ToDictionary`. */
  lemma KeyHoleNested<T, K>(t: Template<Hole<T>>, qs: seq<string>, ks: seq<string>,
                            pads: seq<string>, ends: seq<string>, z: string, v: T, j: nat,
                            sel: T -> K, b: Builder<K>)
    requires KeyHoleTemplate(t, qs, ks, pads, ends, z)
    requires j < |t.keys| && t.keys[j] == PTransform(sel, AsTransformer(b))
    requires forall i :: j < i < |ks| ==> Trim(ks[i]) != Trim(ks[j])
    ensures Trim(ks[j]) in ToDictionary(Create(t), v)
    ensures ToDictionary(Create(t), v)[Trim(ks[j])] == Dict(ToDictionary(b, sel(v)))
  {
    KeyHoleCapture(t, qs, ks, pads, ends, z, v, j);
    assert t.keys[j].select(v) == AsTransformer(b)(sel(v));
  }

  // ---------------------------------------------------------------------------
  // A template that ends with a hole

  /** Every hole entry in `es` comes from a hole before `k`. */
  predicate HolesBelow<T>(es: seq<Entry<T>>, k: nat) {
    forall j :: 0 <= j < |es| ==> es[j].producer.FromHole? ==> es[j].producer.index < k
  }

  /** The pending entry, if any, comes from a hole before `k`. */
  predicate PendingBelow<T>(m: Machine<T>, k: nat) {
    m.pending.Some? && m.pending.value.producer.FromHole? ==> m.pending.value.producer.index < k
  }

  /** A line terminator commits at most the pending entry. */
  lemma StepHolesBelow<T>(m: Machine<T>, c: char, terminator: bool, k: nat)
    requires HolesBelow(m.entries, k) && PendingBelow(m, k)
    ensures HolesBelow(Step(m, c, terminator).entries, k) && PendingBelow(Step(m, c, terminator), k)
  {
  }

  lemma {:induction false} ParseSegmentHolesBelow<T>(m: Machine<T>, s: string, last: bool, k: nat)
    requires HolesBelow(m.entries, k) && PendingBelow(m, k)
    ensures HolesBelow(ParseSegment(m, s, last).entries, k) && PendingBelow(ParseSegment(m, s, last), k)
    decreases |s|
  {
    if |s| > 0 {
      StepHolesBelow(m, s[0], s[0] == '\n' || (last && |s| == 1), k);
      ParseSegmentHolesBelow(Step(m, s[0], s[0] == '\n' || (last && |s| == 1)), s[1..], last, k);
    }
  }

  /** From hole `i - 1` on, with the last segment empty, no entry of hole
      `|t.keys| - 1` or later is ever committed. */
  lemma {:induction false} RunHolesBelow<T>(t: Template<Hole<T>>, i: nat, m: Machine<T>)
    requires 1 <= i <= |t.keys| <= |t.formats| && |t.strings| == |t.keys| + 1
    requires t.strings[|t.keys|] == []
    requires HolesBelow(m.entries, i - 1) && PendingBelow(m, i)
    ensures HolesBelow(Run(t, i, m).entries, |t.keys| - 1)
    decreases |t.keys| - i
  {
    if i < |t.keys| {
      var m' := ParseSegment(m, t.strings[i], false);
      assert HolesBelow(m.entries, i);
      ParseSegmentHolesBelow(m, t.strings[i], false, i);
      RunHolesBelow(t, i + 1, AtHole(m', i, t.keys[i], t.formats[i]));
    }
  }

  /** A template that ends right after a hole never records that hole: the
      empty last segment has no character to end the hole's line
      (DictionaryBuilder's loop parses the last segment and stops). */
  lemma HoleAtEndNotCommitted<T>(t: Template<Hole<T>>)
    requires 1 <= |t.keys| <= |t.formats| && |t.strings| == |t.keys| + 1
    requires t.strings[|t.keys|] == []
    ensures HolesBelow(Build(t).entries, |t.keys| - 1)
    ensures forall j :: 0 <= j < |Build(t).entries| ==>
              !(Build(t).entries[j].producer.FromHole? && Build(t).entries[j].producer.index == |t.keys| - 1)
  {
    var start: Machine<T> := Start();
    ParseSegmentHolesBelow(start, t.strings[0], false, 0);
    var m := AtHole(ParseSegment(start, t.strings[0], false), 0, t.keys[0], t.formats[0]);
    assert Run(t, 0, start) == Run(t, 1, m);
    RunHolesBelow(t, 1, m);
  }
}
