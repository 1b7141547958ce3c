/**
  `CharBufferedStringBuilder`: a growable character buffer with a fill
  length. The mutable object is modelled as a value that every operation
  takes and returns; the text built so far is `buffer[..length]`.
 */
module CharBuffer {
  import opened Decimal

  /** The capacity of `new CharBufferedStringBuilder()`. */
  const DefaultCapacity: nat := 10

  datatype Sink = Sink(buffer: seq<char>, length: nat) {
    predicate Valid() {
      length <= |buffer|
    }

    /** `new string(Buffer, 0, Length)`. */
    function Text(): string
      requires Valid()
    {
      buffer[..length]
    }
  }

  /** `new CharBufferedStringBuilder(capacity)`. */
  function New(capacity: nat): (s: Sink)
    ensures s.Valid() && s.Text() == [] && |s.buffer| == capacity
  {
    Sink(seq(capacity, _ => '\0'), 0)
  }

  /** `new CharBufferedStringBuilder()`: a builder of the default capacity. */
  function NewDefault(): (s: Sink)
    ensures s.Valid() && s.Text() == [] && |s.buffer| == DefaultCapacity
  {
    New(DefaultCapacity)
  }

  /** `Clear()`: forgets the text but keeps the buffer. */
  function Clear(s: Sink): (r: Sink)
    requires s.Valid()
    ensures r.Valid() && r.Text() == [] && r.buffer == s.buffer
  {
    s.(length := 0)
  }

  /** `Ensure(size)`: a buffer shorter than `size` is replaced by one of
      length `2 * size` holding the old contents. */
  function Ensure(s: Sink, size: int): (r: Sink)
    requires s.Valid()
    ensures r.Valid() && r.length == s.length && r.Text() == s.Text()
    ensures |r.buffer| >= size && |r.buffer| >= |s.buffer|
    ensures r.buffer[..|s.buffer|] == s.buffer
    ensures |s.buffer| >= size ==> r == s
    ensures |s.buffer| < size ==> |r.buffer| == 2 * size
  {
    if |s.buffer| >= size then s
    else s.(buffer := s.buffer + seq(2 * size - |s.buffer|, _ => '\0'))
  }

  /** Stores one character at the fill position: `Ensure(length + 1);
      buffer[length] = c; length++`. */
  function Push(s: Sink, c: char): (r: Sink)
    requires s.Valid()
    ensures r.Valid() && r.Text() == s.Text() + [c]
  {
    var e := Ensure(s, s.length + 1);
    assert e.buffer[..s.length] == s.buffer[..s.length];
    Sink(e.buffer[s.length := c], s.length + 1)
  }

  /** Copies `t` into `buf` at position `at`. */
  function Write(buf: seq<char>, at: nat, t: string): (r: seq<char>)
    requires at + |t| <= |buf|
    ensures |r| == |buf| && r[..at] == buf[..at] && r[at..at + |t|] == t
  {
    buf[..at] + t + buf[at + |t|..]
  }

  /** `Append(string)`. */
  function AppendString(s: Sink, t: string): (r: Sink)
    requires s.Valid()
    ensures r.Valid() && r.Text() == s.Text() + t
  {
    var e := Ensure(s, s.length + |t|);
    assert e.buffer[..s.length] == s.buffer[..s.length];
    var b := Write(e.buffer, s.length, t);
    assert b[..s.length + |t|] == b[..s.length] + b[s.length..s.length + |t|];
    Sink(b, s.length + |t|)
  }

  /** `Append(char[] source, int index, int length)`. */
  function AppendChars(s: Sink, source: seq<char>, index: int, count: int): (r: Sink)
    requires s.Valid()
    requires 0 <= index && 0 <= count && index + count <= |source|
    ensures r.Valid() && r.Text() == s.Text() + source[index..index + count]
  {
    var e := Ensure(s, s.length + count);
    assert e.buffer[..s.length] == s.buffer[..s.length];
    var t := source[index..index + count];
    var b := Write(e.buffer, s.length, t);
    assert b[..s.length + count] == b[..s.length] + b[s.length..s.length + count];
    Sink(b, s.length + count)
  }

  /** `Append(char v, string fmt)`: exactly one character; `fmt` is not read. */
  function AppendChar(s: Sink, c: char, fmt: string): (r: Sink)
    requires s.Valid()
    ensures r.Valid() && r.Text() == s.Text() + [c]
  {
    Push(s, c)
  }

  /** The in-place reversal loop of `Append(int)`: mirrors `buf[lo..hi)` and
      leaves every other position alone. */
  method ReverseSpan(buf: seq<char>, lo: nat, hi: nat) returns (r: seq<char>)
    requires lo <= hi <= |buf|
    ensures |r| == |buf|
    ensures forall k :: 0 <= k < |buf| && !(lo <= k < hi) ==> r[k] == buf[k]
    ensures forall k :: lo <= k < hi ==> r[k] == buf[lo + hi - 1 - k]
  {
    r := buf;
    var half := (hi - lo) / 2;
    var i := 0;
    while i < half
      invariant 0 <= i <= half
      invariant |r| == |buf|
      invariant forall k :: 0 <= k < |buf| && !(lo <= k < hi) ==> r[k] == buf[k]
      invariant forall k :: lo <= k < lo + i ==> r[k] == buf[lo + hi - 1 - k]
      invariant forall k :: hi - i <= k < hi ==> r[k] == buf[lo + hi - 1 - k]
      invariant forall k :: lo + i <= k < hi - i ==> r[k] == buf[k]
    {
      var a := lo + i;
      var b := hi - 1 - i;
      r := r[a := r[b]][b := r[a]];
      i := i + 1;
    }
  }

  /** The digit loop of `Append(int)` for the value left after the sign:
      while `v >= 0` the last digit is stored and `v` divided by ten, stopping
      once it reaches zero, so the digits come out least significant first.
      A negative value writes nothing. */
  method StoreDigitsReversed(s: Sink, v: int) returns (r: Sink)
    requires s.Valid()
    ensures r.Valid()
    ensures v >= 0 ==> r.Text() == s.Text() + DigitsRev(v)
    ensures v < 0 ==> r == s
  {
    r := s;
    var w := v;
    ghost var written: string := [];
    while w >= 0
      invariant r.Valid() && r.Text() == s.Text() + written
      invariant v < 0 ==> r == s && w == v
      invariant v >= 0 ==> w >= 0 && written + DigitsRev(w) == DigitsRev(v)
      decreases w
    {
      var d := DigitChar(w % 10);
      r := Push(r, d);
      DigitStep(s.Text(), written, d, w, v);
      written := written + [d];
      w := w / 10;
      if w == 0 {
        break;
      }
    }
  }

  /** One turn of the digit loop: the stored digit is the next one of the
      least-significant-first digits. */
  lemma DigitStep(pre: string, written: string, d: char, w: nat, v: nat)
    requires written + DigitsRev(w) == DigitsRev(v) && d == DigitChar(w % 10)
    ensures pre + written + [d] == pre + (written + [d])
    ensures w / 10 != 0 ==> (written + [d]) + DigitsRev(w / 10) == DigitsRev(v)
  {
    if w / 10 != 0 {
      assert DigitsRev(w) == [d] + DigitsRev(w / 10);
    }
  }

  /** The reversal step: the text written since fill position `start` is
      reversed in place, the text before it is kept. */
  method ReverseSince(s: Sink, start: nat) returns (r: Sink)
    requires s.Valid() && start <= s.length
    ensures r.Valid() && r.length == s.length && |r.buffer| == |s.buffer|
    ensures forall k :: 0 <= k < |s.buffer| && !(start <= k < s.length) ==> r.buffer[k] == s.buffer[k]
    ensures r.Text()[..start] == s.Text()[..start]
    ensures forall k :: start <= k < s.length ==> r.Text()[k] == s.Text()[start + s.length - 1 - k]
  {
    var buf := ReverseSpan(s.buffer, start, s.length);
    r := Sink(buf, s.length);
  }

  /** Digits stored least significant first and then reversed read most
      significant first. */
  lemma ReversedDigits(pre: string, t: string, u: string, v: nat)
    requires t == pre + DigitsRev(v) && |u| == |t|
    requires u[..|pre|] == pre
    requires forall k :: |pre| <= k < |t| ==> u[k] == t[|pre| + |t| - 1 - k]
    ensures u == pre + Digits(v)
  {
    DigitsRevMirror(v);
    assert forall k :: |pre| <= k < |t| ==> u[k] == DigitsRev(v)[|t| - 1 - k];
  }

  /** Lines 67-90 of `Append(int)`: the digits of `v`, in reading order. */
  method WriteDigits(s: Sink, v: int) returns (r: Sink)
    requires s.Valid()
    ensures r.Valid()
    ensures v >= 0 ==> r.Text() == s.Text() + Digits(v)
    ensures v < 0 ==> r == s
  {
    r := StoreDigitsReversed(s, v);
    if v >= 0 {
      var t := r;
      r := ReverseSince(t, s.length);
      ReversedDigits(s.Text(), t.Text(), r.Text(), v);
    } else {
      // the reversal loop has an empty span and changes nothing
      r := ReverseSince(r, s.length);
      assert r.buffer == s.buffer by {
        assert forall k :: 0 <= k < |s.buffer| ==> r.buffer[k] == s.buffer[k];
      }
    }
  }

  /** `Append(int v, string fmt)` with the magnitude of a negative value
      taken exactly: the decimal text of `v`. `fmt` is not read. */
  method AppendInt(s: Sink, v: Int32, fmt: string) returns (r: Sink)
    requires s.Valid()
    ensures r.Valid() && r.Text() == s.Text() + DecimalText(v)
  {
    r := s;
    var magnitude: int := v;
    if v < 0 {
      r := Push(r, '-');
      magnitude := 0 - v as int;
    }
    r := WriteDigits(r, magnitude);
  }

  /** What `Append(int v, string fmt)` writes as the code stands: the unchecked
      `-v` maps `int.MinValue` to itself, so the digit loop never runs and
      only the sign is written. */
  function Int32TextAsWritten(v: Int32): string {
    if v < 0 && Negate32(v) < 0 then "-" else DecimalText(v)
  }

  /** `Append(int v, string fmt)` as written, with 32-bit negation. */
  method AppendIntAsWritten(s: Sink, v: Int32, fmt: string) returns (r: Sink)
    requires s.Valid()
    ensures r.Valid() && r.Text() == s.Text() + Int32TextAsWritten(v)
  {
    r := s;
    var w: Int32 := v;
    if v < 0 {
      r := Push(r, '-');
      w := Negate32(v);
    }
    r := WriteDigits(r, w);
  }

  /** `int.MinValue` is written as a lone `-` instead of its digits. */
  lemma MinValueLosesDigits()
    ensures Int32TextAsWritten(MinInt32) == "-"
    ensures DecimalText(MinInt32) != "-"
    ensures forall v: Int32 :: v != MinInt32 ==> Int32TextAsWritten(v) == DecimalText(v)
  {
    assert DecimalText(MinInt32) == "-" + Digits(0x8000_0000);
  }
}
