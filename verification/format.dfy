/**
  The template parser: `Format.Parse(string format, object[] keys)` splits a
  composite format string into its literal segments and the per-hole format
  specifiers, and keeps the argument array as the hole list.

  A hole opens at a `{` whose next character is not `{` (a `{` in the last
  position is literal); it closes at the first `}` found from two characters
  after the opening brace. The region `{idx[:spec]` is split on `:` and the
  specifier is the trimmed second piece when there are exactly two pieces.
  There is no unescaping. Of a `{{` only the first `{` is skipped; the
  second opens a hole whenever the character after it is not `{` either, so
  `{{x}}` parses to the segments `{` and `}` around one empty specifier.
 */
module Format {
  import opened Strings

  /** The parsed template: `strings` are the literal segments, `formats` the
      per-hole specifiers and `keys` the hole values, in order. */
  datatype Template<K> = Template(strings: seq<string>, formats: seq<string>, keys: seq<K>)

  /** The segments and specifiers produced by one scan. */
  datatype Pieces = Pieces(strings: seq<string>, formats: seq<string>)

  /** The text obtained by putting `fills[i]` between `segs[i]` and `segs[i + 1]`:
      segs[0], fills[0], segs[1], ..., segs[last]. */
  function Interleave(segs: seq<string>, fills: seq<string>): string
    requires |segs| == |fills| + 1
    decreases |fills|
  {
    if |fills| == 0 then segs[0]
    else Interleave(segs[..|segs| - 1], fills[..|fills| - 1]) + fills[|fills| - 1] + segs[|segs| - 1]
  }

  lemma {:induction false} InterleaveFront(segs: seq<string>, fills: seq<string>)
    requires |segs| == |fills| + 1 && |fills| > 0
    ensures Interleave(segs, fills) == segs[0] + fills[0] + Interleave(segs[1..], fills[1..])
    decreases |fills|
  {
    if |fills| > 1 {
      var s' := segs[..|segs| - 1];
      var f' := fills[..|fills| - 1];
      InterleaveFront(s', f');
      assert s'[1..] == segs[1..][..|segs[1..]| - 1];
      assert f'[1..] == fills[1..][..|fills[1..]| - 1];
    } else {
      assert segs[1..][..0] == [];
    }
  }

  /** Position `i` opens a hole: a `{` that is not the last character and is
      not followed by another `{`. */
  predicate OpensHole(f: string, i: int)
    requires 0 <= i && i + 1 < |f|
  {
    f[i] == '{' && f[i + 1] != '{'
  }

  /** No position of `f` from `i` on opens a hole. */
  predicate NoHoleFrom(f: string, i: int) {
    forall k :: i <= k && 0 <= k && k + 1 < |f| ==> !OpensHole(f, k)
  }

  /** The index of the first `}` at or after `j`, or `|f|` when there is none. */
  function FindClose(f: string, j: nat): (k: nat)
    requires j <= |f|
    ensures j <= k <= |f|
    ensures k < |f| ==> f[k] == '}'
    ensures forall m :: j <= m < k ==> f[m] != '}'
    decreases |f| - j
  {
    if j == |f| || f[j] == '}' then j else FindClose(f, j + 1)
  }

  /** The specifier of a hole region (`{` up to, not including, `}`). */
  function Specifier(region: string): string {
    var x := Split(region, ':');
    if |x| != 2 then "" else Trim(x[1])
  }

  /** The scan loop of `Parse` from position `i`, with the current segment
      starting at `start`. */
  function Scan(f: string, start: nat, i: nat): (r: Pieces)
    requires start <= i <= |f|
    ensures |r.formats| <= |r.strings| <= |r.formats| + 1
    decreases |f| - i
  {
    if i == |f| then Pieces([], [])
    else if i + 1 == |f| then Pieces([f[start..]], [])
    else if OpensHole(f, i) then
      var close := FindClose(f, i + 2);
      var spec := Specifier(f[i..close]);
      if close + 1 == |f| then Pieces([f[start..i], ""], [spec])
      else if close == |f| then Pieces([f[start..i]], [spec])
      else
        var rest := Scan(f, close + 1, close + 1);
        Pieces([f[start..i]] + rest.strings, [spec] + rest.formats)
    else Scan(f, start, i + 1)
  }

  /** `Format.Parse(format, keys)`. */
  function Parse<K>(format: string, keys: seq<K>): (t: Template<K>)
    ensures t.keys == keys
    ensures format == [] <==> t.strings == []
    ensures |t.formats| <= |t.strings| <= |t.formats| + 1
  {
    var p := Scan(format, 0, 0);
    assert format != [] ==> p.strings != [] by {
      if format != [] { ScanNonEmpty(format, 0, 0); }
    }
    Template(p.strings, p.formats, keys)
  }

  lemma {:induction false} ScanNonEmpty(f: string, start: nat, i: nat)
    requires start <= i < |f|
    ensures Scan(f, start, i).strings != []
    decreases |f| - i
  {
    if i + 1 < |f| && !OpensHole(f, i) {
      ScanNonEmpty(f, start, i + 1);
    }
  }

  // ---------------------------------------------------------------------------
  // Literal text without holes

  /** Characters that cannot open a hole are copied into the current segment. */
  lemma {:induction false} SkipLiteral(f: string, start: nat, i: nat, j: nat)
    requires start <= i <= j < |f|
    requires forall k :: i <= k < j ==> !OpensHole(f, k)
    ensures Scan(f, start, i) == Scan(f, start, j)
    decreases j - i
  {
    if i < j {
      SkipLiteral(f, start, i + 1, j);
    }
  }

  /** From a position with no hole ahead, the rest of the text is one segment. */
  lemma {:induction false} LiteralToEnd(f: string, start: nat, i: nat)
    requires start <= i < |f|
    requires NoHoleFrom(f, i)
    ensures Scan(f, start, i) == Pieces([f[start..]], [])
    decreases |f| - i
  {
    if i + 1 < |f| {
      LiteralToEnd(f, start, i + 1);
    }
  }

  /** A non-empty format has no specifiers exactly when no position opens a
      hole, and then it is one segment equal to the whole text. */
  lemma NoHoleIsOneSegment<K>(f: string, keys: seq<K>)
    requires f != []
    ensures Parse(f, keys).formats == [] <==> NoHoleFrom(f, 0)
    ensures NoHoleFrom(f, 0) ==> Parse(f, keys).strings == [f]
  {
    if NoHoleFrom(f, 0) {
      LiteralToEnd(f, 0, 0);
    } else {
      var k :| 0 <= k && k + 1 < |f| && OpensHole(f, k);
      FirstHoleGivesSpecifier(f, k);
    }
  }

  lemma FirstHoleGivesSpecifier(f: string, k: nat)
    requires k + 1 < |f| && OpensHole(f, k)
    ensures Scan(f, 0, 0).formats != []
  {
    var first: nat := k;
    while first > 0 && exists m :: 0 <= m < first && OpensHole(f, m)
      invariant first <= k && first + 1 < |f| && OpensHole(f, first)
      decreases first
    {
      var m :| 0 <= m < first && OpensHole(f, m);
      first := m;
    }
    SkipLiteral(f, 0, 0, first);
  }

  // ---------------------------------------------------------------------------
  // Well-formed templates

  /** The hole text written into a format string for each body `idx[:spec]`. */
  function Braced(bodies: seq<string>): (r: seq<string>)
    ensures |r| == |bodies|
  {
    seq(|bodies|, k requires 0 <= k < |bodies| => "{" + bodies[k] + "}")
  }

  /** The specifier recorded for each body. */
  function Specifiers(bodies: seq<string>): (r: seq<string>)
    ensures |r| == |bodies|
  {
    seq(|bodies|, k requires 0 <= k < |bodies| => Specifier("{" + bodies[k]))
  }

  /** Literal segments without `{`, and non-empty hole bodies without braces:
      the shape of the format strings the C# compiler produces for an
      interpolated string without brace escapes. */
  predicate WellFormed(lits: seq<string>, bodies: seq<string>) {
    && |lits| == |bodies| + 1
    && (forall i :: 0 <= i < |lits| ==> '{' !in lits[i])
    && (forall i :: 0 <= i < |bodies| ==> |bodies[i]| > 0 && '{' !in bodies[i] && '}' !in bodies[i])
  }

  /** Parsing a non-empty well-formed format returns exactly the literal
      segments it was written from (so `k` holes give `k + 1` segments) and one
      specifier per hole; the keys are passed through unchanged. */
  lemma ParseComposed<K>(lits: seq<string>, bodies: seq<string>, keys: seq<K>)
    requires WellFormed(lits, bodies)
    requires Interleave(lits, Braced(bodies)) != []
    ensures Parse(Interleave(lits, Braced(bodies)), keys)
         == Template(lits, Specifiers(bodies), keys)
  {
    var f := Interleave(lits, Braced(bodies));
    assert f[0..] == f;
    ComposeIsInterleave(lits, bodies);
    ScanComposed(f, 0, lits, bodies);
  }

  /** A hole body without `:` (a bare index) records the empty specifier. */
  lemma IndexOnlySpecifiers(bodies: seq<string>)
    requires forall j :: 0 <= j < |bodies| ==> ':' !in bodies[j]
    ensures forall j :: 0 <= j < |bodies| ==> Specifiers(bodies)[j] == ""
  {
    forall j | 0 <= j < |bodies|
      ensures Specifiers(bodies)[j] == ""
    {
      SplitNoSeparator("{" + bodies[j], ':');
    }
  }

  /** `ParseComposed` for the format written front to back. */
  lemma ParseCompose<K>(lits: seq<string>, bodies: seq<string>, keys: seq<K>)
    requires WellFormed(lits, bodies)
    requires Compose(lits, bodies) != []
    ensures Parse(Compose(lits, bodies), keys) == Template(lits, Specifiers(bodies), keys)
  {
    ComposeIsInterleave(lits, bodies);
    ParseComposed(lits, bodies, keys);
  }

  /** The composed format read front to back. */
  function Compose(lits: seq<string>, bodies: seq<string>): string
    requires |lits| == |bodies| + 1
    decreases |bodies|
  {
    if |bodies| == 0 then lits[0]
    else lits[0] + ("{" + bodies[0] + "}") + Compose(lits[1..], bodies[1..])
  }

  lemma {:induction false} ComposeIsInterleave(lits: seq<string>, bodies: seq<string>)
    requires |lits| == |bodies| + 1
    ensures Compose(lits, bodies) == Interleave(lits, Braced(bodies))
    decreases |bodies|
  {
    if |bodies| > 0 {
      ComposeIsInterleave(lits[1..], bodies[1..]);
      InterleaveFront(lits, Braced(bodies));
      BracedTail(bodies);
    }
  }

  lemma {:induction false} ScanComposed(f: string, pos: nat, lits: seq<string>, bodies: seq<string>)
    requires WellFormed(lits, bodies)
    requires pos < |f| && f[pos..] == Compose(lits, bodies)
    ensures Scan(f, pos, pos) == Pieces(lits, Specifiers(bodies))
    decreases |bodies|
  {
    if |bodies| == 0 {
      assert forall k :: pos <= k < |f| ==> f[k] == lits[0][k - pos];
      LiteralToEnd(f, pos, pos);
    } else {
      var b := bodies[0];
      var rest := Compose(lits[1..], bodies[1..]);
      var next := pos + |lits[0]| + 2 + |b|;
      assert WellFormed(lits[1..], bodies[1..]);
      SpecifiersCons(bodies);
      ScanOneHole(f, pos, lits[0], b, rest);
      assert lits == [lits[0]] + lits[1..];
      if rest != [] {
        ScanComposed(f, next, lits[1..], bodies[1..]);
      }
    }
  }

  /** A format `lit{b}rest` read from `pos`: the literal is the first segment,
      the body gives the first specifier, and scanning resumes on `rest` (or
      stops with an empty segment when `rest` is empty). */
  lemma ScanOneHole(f: string, pos: nat, lit: string, b: string, rest: string)
    requires pos <= |f| && f[pos..] == lit + ("{" + b + "}") + rest
    requires '{' !in lit && |b| > 0 && '{' !in b && '}' !in b
    ensures var next := pos + |lit| + 2 + |b|;
      && next + |rest| == |f| && f[next..] == rest
      && (rest == [] ==> Scan(f, pos, pos) == Pieces([lit, ""], [Specifier("{" + b)]))
      && (rest != [] ==>
            Scan(f, pos, pos) == Pieces([lit] + Scan(f, next, next).strings,
                                        [Specifier("{" + b)] + Scan(f, next, next).formats))
  {
    FirstHoleLayout(f, pos, lit, b, rest);
    var h := pos + |lit|;
    ScanPastLiteral(f, pos, lit);
    HoleStep(f, pos, h, b, lit);
  }

  /** A literal without `{` at the start of the current segment is passed
      over. */
  lemma ScanPastLiteral(f: string, pos: nat, lit: string)
    requires pos + |lit| < |f| && f[pos..pos + |lit|] == lit && '{' !in lit
    ensures Scan(f, pos, pos) == Scan(f, pos, pos + |lit|)
  {
    forall k | pos <= k < pos + |lit| && k + 1 < |f|
      ensures !OpensHole(f, k)
    {
      assert f[k] == lit[k - pos];
    }
    SkipLiteral(f, pos, pos, pos + |lit|);
  }

  lemma BracedTail(bodies: seq<string>)
    requires |bodies| > 0
    ensures Braced(bodies)[0] == "{" + bodies[0] + "}"
    ensures Braced(bodies)[1..] == Braced(bodies[1..])
  {
  }

  lemma SpecifiersCons(bodies: seq<string>)
    requires |bodies| > 0
    ensures Specifiers(bodies) == [Specifier("{" + bodies[0])] + Specifiers(bodies[1..])
  {
  }

  /** Where the parts of `lit + "{" + b + "}" + rest` sit inside `f`, from `pos`. */
  lemma FirstHoleLayout(f: string, pos: nat, lit: string, b: string, rest: string)
    requires pos <= |f| && f[pos..] == lit + ("{" + b + "}") + rest
    ensures pos + |lit| + 2 + |b| + |rest| == |f|
    ensures forall k :: pos <= k < pos + |lit| ==> f[k] == lit[k - pos]
    ensures f[pos + |lit|] == '{'
    ensures f[pos + |lit| + 1..pos + |lit| + 1 + |b|] == b
    ensures f[pos + |lit| + 1 + |b|] == '}'
    ensures f[pos + |lit| + 2 + |b|..] == rest
    ensures f[pos..pos + |lit|] == lit
  {
    var h := pos + |lit|;
    assert f[pos..][|lit|] == '{';
    assert f[pos..][|lit| + 1 + |b|] == '}';
    assert f[h + 1..h + 1 + |b|] == f[pos..][|lit| + 1..|lit| + 1 + |b|];
    assert f[h + 2 + |b|..] == f[pos..][|lit| + 2 + |b|..];
    assert f[pos..h] == f[pos..][..|lit|];
  }

  /** One hole `{b}` at position `h`: the segment so far is closed, the
      specifier of `{b` is recorded and scanning resumes after the `}`. */
  lemma HoleStep(f: string, start: nat, h: nat, b: string, lit: string)
    requires start <= h && h + 2 + |b| <= |f| && |b| > 0 && '{' !in b && '}' !in b
    requires f[h] == '{' && f[h + 1..h + 1 + |b|] == b && f[h + 1 + |b|] == '}'
    requires f[start..h] == lit
    ensures h + 2 + |b| == |f| ==>
              Scan(f, start, h) == Pieces([lit, ""], [Specifier("{" + b)])
    ensures h + 2 + |b| < |f| ==>
              Scan(f, start, h)
              == Pieces([lit] + Scan(f, h + 2 + |b|, h + 2 + |b|).strings,
                        [Specifier("{" + b)] + Scan(f, h + 2 + |b|, h + 2 + |b|).formats)
  {
    var close := h + 1 + |b|;
    assert f[h + 1] == b[0];
    assert forall m :: h + 2 <= m < close ==> f[m] == b[m - h - 1];
    FindCloseAt(f, h + 2, close);
    assert f[h..close] == "{" + b;
  }

  lemma FindCloseAt(f: string, j: nat, k: nat)
    requires j <= k < |f| && f[k] == '}'
    requires forall m :: j <= m < k ==> f[m] != '}'
    ensures FindClose(f, j) == k
  {
  }

  /** Specifier of a region with exactly one `:`: the trimmed text after it;
      with no `:` or more than one, the empty string. */
  lemma SpecifierShape(region: string)
    ensures Count(region, ':') != 1 ==> Specifier(region) == ""
    ensures forall a: string, b: string :: region == a + ":" + b && ':' !in a && ':' !in b
              ==> Specifier(region) == Trim(b)
  {
    forall a: string, b: string | region == a + ":" + b && ':' !in a && ':' !in b
      ensures Specifier(region) == Trim(b)
    {
      SplitAtOnlySeparator(a, b, ':');
    }
  }
}
