# StringInterpolationUtil, modelled in Dafny

StringInterpolationUtil turns a C# interpolated string into a reusable
template. `Format.Parse` splits the compiler's composite format string into
literal segments, per-hole format specifiers and the hole objects. Two
consumers replay such a template against a subject value:

- `FormatStringBuilder<T>` renders it into a `CharBufferedStringBuilder`, a
  growable `char[]` with a fill length and hand-written integer formatting;
- the sample `DictionaryBuilder<T>` reads it as lines `key: value` and
  produces a `Dictionary<string, object>`, a hole standing for the value
  selected from the subject.

The model has these modules:

| file | module | what it models |
|---|---|---|
| strings.dfy | `Strings` | .NET `string.Trim` and `string.Split(char)`, with the whitespace class of `char.IsWhiteSpace` |
| decimal.dfy | `Decimal` | C# `int` with its unchecked negation and addition; decimal text and its inverse |
| format.dfy | `Format` | `Format.Parse(string, object[])` as a scan over the format |
| holes.dfy | `Holes` | the hole objects: `Placeholder.P` overloads and plain interpolated objects |
| charbuffer.dfy | `CharBuffer` | `CharBufferedStringBuilder`, as a value threaded through its operations |
| renderer.dfy | `Renderer` | `FormatStringBuilder<T>` construction and `Apply` |
| dictionary.dfy | `Dictionary` | `DictionaryBuilder.Create`, the line machine of the constructor, `ToDictionary`, `Transform`, `DictionaryPlaceholderAdapter` |
| samples.dfy | `Samples` | the repository's unit-test cases, as lemmas, and the last-line behaviour of the dictionary builder |
| sample_program.dfy | `SampleProgram` | the sample program's nested dictionary template |

How the source is represented:

- Mutable objects become values. A `CharBufferedStringBuilder` is
  `Sink(buffer, length)`, and every append returns the new sink.
- The closures that `Placeholder.P` builds become the tagged `Hole`
  datatype. Which overload built a hole decides which adapter entry point
  sees its value.
- The runtime's `ToString(fmt)` is not visible. It is a function parameter:
  `toText` for boxed objects and `subjectText` for the subject value.
- The renderer sends integer holes through `Append(int)` as the code
  stands, so `int.MinValue` renders as a lone `-` (see Findings).
  `CharBuffer.AppendInt` is the corrected `Append(int)`, with its round trip
  proved.

Where the code and its description differ, the model follows the code:

- A hole region with more than one `:` records the empty specifier, not the
  text after the first `:`.
- `Append(int, fmt)` and `Append(char, fmt)` ignore `fmt`.
- In the last segment, `DictionaryBuilder` treats the final character as a
  line terminator, whatever it is, and drops it. A template whose last line
  is `k: v` with no newline after it therefore records `k` with the value
  text missing its last character.

## Model

| member | source | states |
|---|---|---|
| Strings.Trim | StringInterpolationUtil.Sample/DictionaryBuilder.cs:87 | the trimmed text is empty or starts and ends with a non-whitespace character |
| Strings.TrimIgnoresPadding | StringInterpolationUtil.Sample/DictionaryBuilder.cs:58 | whitespace added on either side of a text does not change its trimmed form |
| Strings.TrimEmptyIff | StringInterpolationUtil.Sample/DictionaryBuilder.cs:62 | a buffer trims to the empty string exactly when it is all whitespace, which is the `value.Length == 0` test |
| Strings.TrimFixed | StringInterpolationUtil.Sample/DictionaryBuilder.cs:87 | a text that already starts and ends with non-whitespace is its own trimmed form |
| Strings.Split | StringInterpolationUtil/Format.cs:36 | splitting on `:` gives one piece more than there are separators, and no piece contains one |
| Strings.SplitJoin | StringInterpolationUtil/Format.cs:36 | joining the pieces with the separator rebuilds the split text |
| Strings.SplitAtOnlySeparator | StringInterpolationUtil/Format.cs:36-37 | a text with a single separator splits into exactly the two pieces around it |
| Strings.SplitNoSeparator | StringInterpolationUtil/Format.cs:36-37 | a text without the separator splits into itself alone |
| Strings.CountAbsent | StringInterpolationUtil/Format.cs:36-37 | a character occurs zero times exactly when it is absent |
| Decimal.Negate32 | StringInterpolationUtil/StringBuilder.cs:69 | unchecked `-v` is the exact negation except at `int.MinValue`, which maps to itself |
| Decimal.Add32 | StringInterpolationUtil.Sample/Program.cs:14 | unchecked `t.j + t.j` is the exact sum when it fits in 32 bits and is congruent to it modulo 2^32 in every case |
| Decimal.DigitChar | StringInterpolationUtil/StringBuilder.cs:77 | `(char)(d + '0')` is a decimal digit character for every digit value |
| Decimal.DigitsRevMirror | StringInterpolationUtil/StringBuilder.cs:74-90 | the digits that the `% 10` loop produces are the reading-order digits reversed |
| Decimal.DigitsShape | StringInterpolationUtil/StringBuilder.cs:74-81 | the digits are digit characters with no leading zero except for zero itself |
| Decimal.DigitsRoundTrip | StringInterpolationUtil/StringBuilder.cs:74-90 | reading the written digits back gives the magnitude |
| Decimal.DecimalRoundTrip | StringInterpolationUtil/StringBuilder.cs:61-91 | reading the decimal text back, with its sign, gives the integer |
| Decimal.DecimalShape | StringInterpolationUtil/StringBuilder.cs:63-70 | a `-` comes first exactly for negative values, and digits follow with no leading zero |
| Format.FindClose | StringInterpolationUtil/Format.cs:35 | the search stops at the first `}` at or after its start, or at the end of the format when there is none |
| Format.Scan | StringInterpolationUtil/Format.cs:21-45 | a scan yields at most one more segment than specifiers and never fewer segments than specifiers |
| Format.Parse | StringInterpolationUtil/Format.cs:16-48 | the keys pass through unchanged, the segments are empty exactly for the empty format, and the segment count is the specifier count or one more |
| Format.ScanNonEmpty | StringInterpolationUtil/Format.cs:25-28 | a scan from inside a non-empty format always closes at least one segment |
| Format.SkipLiteral | StringInterpolationUtil/Format.cs:31 | characters that cannot open a hole leave the scan's outcome unchanged |
| Format.LiteralToEnd | StringInterpolationUtil/Format.cs:25-28 | with no hole ahead, the rest of the format becomes one segment |
| Format.NoHoleIsOneSegment | StringInterpolationUtil/Format.cs:22-29 | a non-empty format has no specifiers exactly when no position opens a hole, and then its only segment is the whole text |
| Format.FirstHoleGivesSpecifier | StringInterpolationUtil/Format.cs:31-37 | any position that opens a hole makes the parse record a specifier |
| Format.ComposeIsInterleave | StringInterpolationUtil/Format.cs:22-45 | writing literals and braced bodies front to back gives the same format as interleaving them |
| Format.ScanOneHole | StringInterpolationUtil/Format.cs:31-43 | for `lit{body}rest`, `lit` is the next segment, `body` gives the next specifier, and the scan resumes on `rest`; an empty `rest` adds an empty last segment |
| Format.HoleStep | StringInterpolationUtil/Format.cs:33-43 | a hole closes the current segment, records its specifier and restarts after the `}`, adding an empty segment when the `}` ends the format |
| Format.ScanComposed | StringInterpolationUtil/Format.cs:22-45 | scanning a well-formed composed format from any position returns its literals and its specifiers |
| Format.ParseComposed | StringInterpolationUtil/Format.cs:16-48 | parsing a compiler-shaped format gives back exactly the literals it was written from and one specifier per hole: parse inverts composition |
| Format.ParseCompose | StringInterpolationUtil/Format.cs:16-48 | the same round trip, for the format written front to back |
| Format.IndexOnlySpecifiers | StringInterpolationUtil/Format.cs:36-37 | a hole holding only an index records the empty specifier |
| Format.SpecifierShape | StringInterpolationUtil/Format.cs:36-37 | a region with exactly one `:` records the trimmed text after it; any other count of `:` records the empty specifier |
| CharBuffer.New | StringInterpolationUtil/StringBuilder.cs:29-30 | a new builder is empty and has the requested capacity |
| CharBuffer.NewDefault | StringInterpolationUtil/StringBuilder.cs:25-27 | the parameterless constructor gives an empty builder with capacity 10 |
| CharBuffer.Clear | StringInterpolationUtil/StringBuilder.cs:32-33 | clearing empties the text and keeps the buffer |
| CharBuffer.Ensure | StringInterpolationUtil/StringBuilder.cs:93-97 | the text is kept, a large enough buffer is left alone, and a short one is regrown to twice the size with its old contents first |
| CharBuffer.Push | StringInterpolationUtil/StringBuilder.cs:56-58 | storing at the fill position appends exactly one character |
| CharBuffer.Write | StringInterpolationUtil/StringBuilder.cs:39 | copying into the buffer keeps its length and the text before the copy and places the copied text |
| CharBuffer.AppendString | StringInterpolationUtil/StringBuilder.cs:35-41 | the text grows by exactly the appended string |
| CharBuffer.AppendChars | StringInterpolationUtil/StringBuilder.cs:43-49 | the text grows by exactly the requested slice of the source array |
| CharBuffer.AppendChar | StringInterpolationUtil/StringBuilder.cs:54-59 | the text grows by exactly the character |
| CharBuffer.ReverseSpan | StringInterpolationUtil/StringBuilder.cs:84-90 | the swap loop mirrors the span and leaves every other position alone |
| CharBuffer.StoreDigitsReversed | StringInterpolationUtil/StringBuilder.cs:72-81 | for a non-negative value the digit loop appends the digits least significant first; a negative value appends nothing |
| CharBuffer.DigitStep | StringInterpolationUtil/StringBuilder.cs:76-80 | each turn of the digit loop stores the next least-significant digit |
| CharBuffer.ReverseSince | StringInterpolationUtil/StringBuilder.cs:83-90 | the text written since the start position is reversed in place, and the text before it is kept |
| CharBuffer.ReversedDigits | StringInterpolationUtil/StringBuilder.cs:83-90 | reversing the stored digits gives them in reading order |
| CharBuffer.WriteDigits | StringInterpolationUtil/StringBuilder.cs:72-90 | a non-negative value appends its decimal digits in reading order |
| CharBuffer.AppendInt | StringInterpolationUtil/StringBuilder.cs:61-91 | `Append(int)`, with the negation taken exactly, appends the decimal text of the value, which reads back as the value |
| CharBuffer.AppendIntAsWritten | StringInterpolationUtil/StringBuilder.cs:61-91 | `Append(int)` as written appends the decimal text except at `int.MinValue` |
| CharBuffer.MinValueLosesDigits | StringInterpolationUtil/StringBuilder.cs:69 | as written, `int.MinValue` is rendered as a lone `-`; every other value is rendered correctly |
| Renderer.Create | StringInterpolationUtil/StringBuilder.cs:200-227 | the builder's arrays are left unset exactly when the template has no segments |
| Renderer.IntHoleText | StringInterpolationUtil/StringBuilder.cs:61-91 | an integer hole renders its value in decimal exactly when the value is not `int.MinValue`, and `int.MinValue` renders as a lone `-` |
| Renderer.HoleTexts | StringInterpolationUtil/StringBuilder.cs:233-237 | there is one hole text per gap between consecutive segments |
| Renderer.AppendHole | StringInterpolationUtil/StringBuilder.cs:145-192 | a hole appends what the as-written `Append(int)` writes for an integer, the character of a character hole, the runtime text of a generic value, or the subject's text for a non-placeholder |
| Renderer.AppendSegmentAndHole | StringInterpolationUtil/StringBuilder.cs:235-236 | one loop turn appends segment `i` and then hole `i` |
| Renderer.AppendLeadingPairs | StringInterpolationUtil/StringBuilder.cs:233-237 | the loop appends every segment but the last, each followed by its hole, in order |
| Renderer.PairStep | StringInterpolationUtil/StringBuilder.cs:233-237 | one turn of the loop keeps its invariant |
| Renderer.InterleaveStep | StringInterpolationUtil/StringBuilder.cs:233-237 | one more hole and segment extend the interleaving at its end |
| Renderer.Apply | StringInterpolationUtil/StringBuilder.cs:229-240 | `Apply` appends the segments interleaved with the hole texts, and an unset builder appends nothing |
| Renderer.LiteralRoundTrip | StringInterpolationUtil/StringBuilder.cs:200-240 | a non-empty format without holes renders as itself |
| Renderer.RenderComposed | StringInterpolationUtil/StringBuilder.cs:200-240 | rendering a compiler-shaped template gives back its literals with each hole's text in place of the hole |
| Dictionary.EndLine | StringInterpolationUtil.Sample/DictionaryBuilder.cs:54-79 | a line terminator resets the machine to the start of a line and only appends to the entries |
| Dictionary.Build | StringInterpolationUtil.Sample/DictionaryBuilder.cs:40-146 | every recorded key is trimmed, non-empty and free of `:` and newlines; a literal value is a trimmed one-line text; a hole entry names its own hole and specifier |
| Dictionary.Create | StringInterpolationUtil.Sample/DictionaryBuilder.cs:25-32 | the empty builder is returned exactly for a template without segments |
| Dictionary.CreateAsWritten | StringInterpolationUtil.Sample/DictionaryBuilder.cs:25-32 | as written, `Create` fails exactly on a template without segments and otherwise agrees with the corrected `Create` |
| Dictionary.EmptyTemplateThrows | StringInterpolationUtil.Sample/DictionaryBuilder.cs:29-37 | the empty interpolated string makes `Create` throw as written; the corrected `Create` returns the builder whose dictionary is empty |
| Dictionary.StepKeepsWellFormed | StringInterpolationUtil.Sample/DictionaryBuilder.cs:53-108 | one character keeps the machine well formed: good keys, one-line values, and a pending entry exactly when a hole was inserted |
| Dictionary.ParseSegmentKeepsWellFormed | StringInterpolationUtil.Sample/DictionaryBuilder.cs:49-110 | a whole segment keeps the machine well formed |
| Dictionary.RunKeepsWellFormed | StringInterpolationUtil.Sample/DictionaryBuilder.cs:112-143 | the segment loop, with the hole handling between segments, keeps the machine well formed |
| Dictionary.TrimmedHasNo | StringInterpolationUtil.Sample/DictionaryBuilder.cs:87 | trimming adds no character that was not there |
| Dictionary.ParseSegmentSplit | StringInterpolationUtil.Sample/DictionaryBuilder.cs:51-54 | a segment is processed one piece after another, and only the final character of the last segment is special |
| Dictionary.LastCharacterEndsLine | StringInterpolationUtil.Sample/DictionaryBuilder.cs:54 | the final character of the last segment ends the line whatever it is, and it is not kept in the key or the value |
| Dictionary.KeyRun | StringInterpolationUtil.Sample/DictionaryBuilder.cs:98-101 | before the `:`, characters accumulate in the buffer |
| Dictionary.ValueRun | StringInterpolationUtil.Sample/DictionaryBuilder.cs:103-105 | after the `:`, characters accumulate in the buffer, `:` included |
| Dictionary.IgnoreRun | StringInterpolationUtil.Sample/DictionaryBuilder.cs:106-107 | an ignored line changes nothing until its end |
| Dictionary.KeyThenColon | StringInterpolationUtil.Sample/DictionaryBuilder.cs:85-96 | the first `:` sets the key to the trimmed text before it; an empty key makes the rest of the line ignored |
| Dictionary.LiteralLine | StringInterpolationUtil.Sample/DictionaryBuilder.cs:56-105 | a literal line `a:b` records the trimmed `a` with the trimmed `b`, later `:` staying in the value; an empty key records nothing |
| Dictionary.NoColonLine | StringInterpolationUtil.Sample/DictionaryBuilder.cs:54-101 | a line without `:` records nothing |
| Dictionary.TextThenHole | StringInterpolationUtil.Sample/DictionaryBuilder.cs:118-142 | after the line's `:`, a hole is inserted exactly when the line is in the value state and only whitespace precedes it; otherwise the rest of the line is ignored |
| Dictionary.KeyHoleDrops | StringInterpolationUtil.Sample/DictionaryBuilder.cs:122-125 | a hole before the line's first `:`, met in the key state, switches the line to ignored, and the line records nothing up to and including its terminator |
| Dictionary.LineEndAfterHoles | StringInterpolationUtil.Sample/DictionaryBuilder.cs:56-66 | the end of a line commits the pending hole entry exactly when only whitespace follows the hole |
| Dictionary.HoleLine | StringInterpolationUtil.Sample/DictionaryBuilder.cs:56-142 | a line `a:b{hole}c` records the hole under the trimmed `a` exactly when the key is non-empty and `b` and `c` are whitespace |
| Dictionary.LaterHoleReplaces | StringInterpolationUtil.Sample/DictionaryBuilder.cs:118-142 | of two holes on one line, only the later one can be recorded |
| Dictionary.ColonFreeRun | StringInterpolationUtil.Sample/DictionaryBuilder.cs:54-101 | lines without `:` record nothing |
| Dictionary.KeyHoleLine | StringInterpolationUtil.Sample/DictionaryBuilder.cs:84-142 | a line `key: {hole}` leaves that hole's entry pending under the trimmed key |
| Dictionary.CommitAfterHole | StringInterpolationUtil.Sample/DictionaryBuilder.cs:56-66 | a newline after an inserted hole and whitespace commits the pending entry |
| Dictionary.FinalLineAfterHole | StringInterpolationUtil.Sample/DictionaryBuilder.cs:54-66 | the last segment after a hole commits that hole's entry and nothing else |
| Dictionary.NextKeyHoleLine | StringInterpolationUtil.Sample/DictionaryBuilder.cs:56-142 | the segment between two `key: {hole}` lines commits the earlier entry and leaves the later one pending |
| Dictionary.KeyHoleStep | StringInterpolationUtil.Sample/DictionaryBuilder.cs:113-143 | one turn of the constructor's loop over such a template commits entry `j - 1` and leaves entry `j` pending |
| Dictionary.KeyHoleLast | StringInterpolationUtil.Sample/DictionaryBuilder.cs:113-117 | the last segment commits the last entry |
| Dictionary.KeyHoleRun | StringInterpolationUtil.Sample/DictionaryBuilder.cs:113-143 | from any hole on, the loop records the remaining entries in order |
| Dictionary.KeyHoleLines | StringInterpolationUtil.Sample/DictionaryBuilder.cs:40-146 | a template of `key: {hole}` lines records one entry per hole, in order, under its trimmed key |
| Dictionary.FoldKeys | StringInterpolationUtil.Sample/DictionaryBuilder.cs:148-159 | the dictionary's keys are exactly the entries' keys |
| Dictionary.FoldLastWins | StringInterpolationUtil.Sample/DictionaryBuilder.cs:153-156 | the value under a key comes from the last entry with that key |
| Dictionary.FoldValueFrom | StringInterpolationUtil.Sample/DictionaryBuilder.cs:153-156 | every value in the dictionary was produced by some entry with its key |
| Dictionary.KeyHoleCapture | StringInterpolationUtil.Sample/DictionaryBuilder.cs:130-156 | for a template of `key: {hole}` lines the dictionary's keys are exactly the trimmed line keys, and the value under a key is what that line's hole captures unless a later line repeats the key |
| Dictionary.KeyHoleNested | StringInterpolationUtil.Sample/DictionaryBuilder.cs:130-162 | a line `key: {P(selector, builder)}` records the nested builder's dictionary of the selected value |
| Dictionary.HoleAtEndNotCommitted | StringInterpolationUtil.Sample/DictionaryBuilder.cs:113-117 | for every template whose last segment is empty, no recorded entry comes from the last hole, because the loop stops after parsing the empty last segment and nothing ends that hole's line |
| Dictionary.DictionaryContents | StringInterpolationUtil.Sample/DictionaryBuilder.cs:148-162 | every key of `ToDictionary` is trimmed, non-empty and on one line, and every value is a trimmed one-line text or the value captured from one of the template's holes |
| Samples.ParseEmptyFormat | StringInterpolationUtil.Test/Format.cs:11 | the empty format parses to no segments, no specifiers and no keys |
| Samples.ParseLiteralOnly | StringInterpolationUtil.Test/Format.cs:12 | `abc` is one segment |
| Samples.ParseHoleFirst | StringInterpolationUtil.Test/Format.cs:13 | `{0}abc` gives the segments `""` and `abc` and one empty specifier |
| Samples.ParseHoleLast | StringInterpolationUtil.Test/Format.cs:14 | `abc{0}` gives the segments `abc` and `""` |
| Samples.ParseHolesAround | StringInterpolationUtil.Test/Format.cs:15 | `{0}abc{1}` gives `""`, `abc` and `""` |
| Samples.ParseHolesInside | StringInterpolationUtil.Test/Format.cs:16 | `qq{0}abc{1}pp` gives `qq`, `abc` and `pp`, whatever the keys |
| Samples.EscapedBraceOpensHole | StringInterpolationUtil/Format.cs:31-43 | the format `{{x}}` parses to the segments `{` and `}` with one empty specifier and no hole value, so the renderer's `Applicable` fails for it |
| Samples.ParseKeysPassThrough | StringInterpolationUtil.Test/Format.cs:17-19 | the character, integer and null keys of the tests pass through |
| Samples.ParseThreeHoles | StringInterpolationUtil.Test/Format.cs:18 | `{0}qq{1}abc{2}pp` gives four segments and three empty specifiers |
| Samples.ParseOneSpecifier | StringInterpolationUtil.Test/Format.cs:20 | `{0:9999}` records the specifier `9999` |
| Samples.ParseTwoSpecifiers | StringInterpolationUtil.Test/Format.cs:21 | `{0:9999}x{1: x}` records `9999` and the trimmed `x` |
| Samples.RenderTwoInts | StringInterpolationUtil.Test/StringBuilder.cs:12-16 | two integer holes render as `i: <i> j: <j>` with the as-written integer text for every pair, which is the decimal text the test expects whenever neither is `int.MinValue` |
| Samples.RenderIntAndString | StringInterpolationUtil.Test/StringBuilder.cs:18-22 | an integer hole and a string hole render as `i: <i> j: <j>`, the integer in decimal unless it is `int.MinValue` |
| Samples.RenderIntStringChar | StringInterpolationUtil.Test/StringBuilder.cs:24-28 | integer, string and character holes render as `i: <i> j: <j> k: <k>`, the integer in decimal unless it is `int.MinValue` |
| Samples.NegativeDecimal | StringInterpolationUtil.Test/StringBuilder.cs:19 | the negative value of the repository's test case has the decimal text `-32145`, and the as-written `Append(int)` writes exactly that |
| Samples.LastLineLosesCharacter | StringInterpolationUtil.Sample/DictionaryBuilder.cs:54 | a last line `k:bc` with no newline after it records `k` with the trimmed `b`, so its final character is lost; with a newline it records the trimmed `bc` |
| SampleProgram.InnerTemplate | StringInterpolationUtil.Sample/Program.cs:16-19 | the nested verbatim string parses to its two literal segments and one hole |
| SampleProgram.InnerEntries | StringInterpolationUtil.Sample/Program.cs:17-18 | the nested builder records `s` with the text `1` and then `v` with its hole |
| SampleProgram.InnerDictionary | StringInterpolationUtil.Sample/Program.cs:16-19 | the nested dictionary of a value maps `s` to `"1"` and `v` to the value |
| SampleProgram.OuterTemplate | StringInterpolationUtil.Sample/Program.cs:10-20 | the outer verbatim string parses to five literal segments and four holes |
| SampleProgram.OuterEntries | StringInterpolationUtil.Sample/Program.cs:11-16 | the outer builder records `i`, `j`, `jj` and `dict`, in order, each with its hole; the blank lines record nothing |
| SampleProgram.CaptureNested | StringInterpolationUtil.Sample/Program.cs:16 | the `dict` hole captures the nested dictionary of `t.i` |
| SampleProgram.SampleDictionary | StringInterpolationUtil.Sample/Program.cs:10-22 | for every pair, the dictionary holds `i`, `j`, the 32-bit `j + j` and the nested dictionary of `i` |
| SampleProgram.ProgramDictionary | StringInterpolationUtil.Sample/Program.cs:22 | the program's `(30, 40)` gives `i = 30`, `j = 40`, `jj = 80` and `dict = {s: "1", v: 30}` |

## Left out

- `Stringer<T>` and the runtime `ToString(fmt)` of boxed values and of the subject are not modelled. They are the parameters `toText` and `subjectText`, so a generic hole renders whatever `toText` returns.
- Samples.RenderIntAndString: requires that `toText` renders a string as itself, since the runtime's `string.ToString()` is not modelled.
- Samples.RenderIntStringChar: the same assumption about `toText`.
- The C# compiler's lowering of `$"..."` to a format string and an argument array is not modelled. Parsing starts from the lowered format, in which holes are renumbered from `{0}`.
- Brace escapes `{{` and `}}` are not unescaped, as in the code. Of a `{{` only the first `{` is skipped; the second opens a hole whenever the next character is not `{`, so `$"{{x}}"` (format `{{x}}`, no arguments) parses to the segments `{` and `}` with one specifier and no hole value (Samples.EscapedBraceOpensHole). The round-trip lemmas cover only formats without `{` in the literals.
- `Format.Parse(FormattableString)` (Format.cs:13-14) only forwards `Format` and `GetArguments()`, so it is modelled by `Format.Parse` on those two values.
- Closures, boxing and generic dispatch: a hole is the `Hole` datatype, and `P(selector, transformer)` is `Holes.PTransform`.
- Integer and character holes ignore their specifier, as the code does. Formatting through a specifier belongs to the runtime and is not modelled.
- `DictionaryPlaceholderAdapter.LastAdaptedValue`: the adapter shared by all entries is set and read back within one call, so `Dictionary.Capture` returns the value directly. Concurrent use of one builder, where that sharing matters, is not modelled.
- Thread safety of the shared adapter and of the static `Empty` field is not modelled.
- The integers are unbounded where the source has `int` lengths. `size * 2` in `Ensure` and the length counters do not overflow, and `Array.Resize` does not run out of memory.
- CharBuffer.AppendChars: the source throws when the slice lies outside the array. The model requires a valid slice instead of modelling the exception.
- Renderer.Apply: the source throws `IndexOutOfRangeException` when the template has fewer holes or specifiers than gaps. The model requires `Applicable` instead. Compiler-produced templates without brace escapes meet it, but one where a `{{` is followed by text and a `}` can fail it: `$"{{x}}"` has a gap and no hole value.
- Dictionary.Build: requires at least as many specifiers as holes. With fewer, the source throws only when a hole without a specifier is actually inserted, because `Formats[i]` is read only on the insertion branch (DictionaryBuilder.cs:129). The model does not represent that partial case. A parsed format always has at least as many specifiers as the compiler's holes.
- Dictionary.Create: the same requirement as `Dictionary.Build`.
- `new CharBufferedStringBuilder(capacity)` with a negative capacity throws in the source. The model takes a `nat`.
- A null format string, null builders and null selectors are not modelled.
- Strings are sequences of Unicode scalar values, while C# strings are sequences of UTF-16 code units. Where the source works on code units the model can differ. The final character of the last segment, which `DictionaryBuilder` drops as a terminator (DictionaryBuilder.cs:54), is one code unit in the source. So a last segment `k: ab😀` records a value ending in a lone high surrogate there, and `ab` in the model. A character hole whose selector returns a lone surrogate cannot be represented.
- The type initialiser of `DictionaryBuilder<T>` is modelled as running only when `Empty` is read. The runtime may run it earlier, and then a non-empty template fails too.
- The console output of the sample program (Program.cs:22-36) is left out. Its dictionary is modelled.

## Findings

| source | as written | input that shows it | evidently intended | confidence | as-written member | corrected member |
|---|---|---|---|---|---|---|
| StringInterpolationUtil/StringBuilder.cs:69 | `v = -v` is unchecked, so `int.MinValue` stays negative and the digit loop `while (v >= 0)` never runs | `Append(int.MinValue, "")` appends only `-` | `-2147483648` | high; not executed | CharBuffer.AppendIntAsWritten, CharBuffer.MinValueLosesDigits | CharBuffer.AppendInt |
| StringInterpolationUtil.Sample/DictionaryBuilder.cs:29-37 | `Empty` is built from `default(Format)`, whose `Strings` is null, so the static initialiser throws when the constructor reads `Strings.Count` | `DictionaryBuilder.Create<int>(p => $"")` throws `TypeInitializationException` | a builder whose `ToDictionary` returns an empty dictionary, as the null check at line 150 expects | high; not executed | Dictionary.CreateAsWritten, Dictionary.EmptyTemplateThrows | Dictionary.Create |
