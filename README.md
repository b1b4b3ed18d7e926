# kotlin-script-tool text layer, modelled in Dafny

This project models the text-transformation layer of a desktop Kotlin
script editor, plus the small pieces of editor logic built on it:

- **Tab expansion and offset mapping** (`CustomVisualTransformation`). Every
  tab becomes four spaces. A table records, for each displayed character,
  the index of the edited character it came from. That table answers the
  two offset queries Compose asks.
- **The script highlighter** (`ScriptTransformation.highlight`). A single
  pass with two flags, "in a string" and "in a comment", gives every
  character a style. Outside strings and comments, each maximal run of
  letters and digits is looked up in the keyword list.
- **The output highlighter** (`OutputTransformation.highlight`). Every line
  of the run's output is re-emitted with a newline. A line that starts with
  the error prefix is underlined in the error colour and gets an `ERROR`
  annotation over its exact span. The offset map is consecutive.
- **Colour parsing** (`Utils.parseColor`). An optional `#` is dropped, then
  6 hex digits (RRGGBB) or 8 (AARRGGBB) are decoded.
- **Editor logic** (`ScriptEditorView`): the cursor index for a click on a
  (line, column); the state the run button drives; the message shown when
  a run fails; and how the exit code is shown.

Modules: `Wrappers` (Option, Result), `TextOps` (the Kotlin standard-library
operations the code relies on), `VisualTransformation`,
`ScriptTransformation`, `OutputTransformation`, `Utils` and
`ScriptEditorView`, one file each.

The imperative parts are methods proved against specification functions:
- `ReplaceTabsWithSpaces` against `ExpandTabs` and `ExpansionMap`;
- the script `Highlight` against the per-character reference `RefStyle`;
- the output `Highlight` against `Emitted`, `Annotations` and `Consecutive`.

The lemmas state the properties of those functions.

The model follows the code as written:
- the output highlighter has only the `ERROR` annotation, with no path or
  URL matching and no click lookup;
- error lines are underlined as well as coloured.

## Model

| member | source | states |
|---|---|---|
| VisualTransformation.DefaultHighlight | src/main/kotlin/util/CustomVisualTransformation.kt:17-21 | the text is shown unchanged and both offset queries return their argument |
| VisualTransformation.FirstAtLeast | src/main/kotlin/util/CustomVisualTransformation.kt:27-29 | the result is the first index whose entry is at least the offset, or the table size if there is none |
| VisualTransformation.OriginalToTransformed | src/main/kotlin/util/CustomVisualTransformation.kt:25-30 | identity answers the offset; an empty table answers 0; otherwise the answer is the index of the first entry at or past the offset, or the table size when there is none, so it always lies in 0..size |
| VisualTransformation.TransformedToOriginal | src/main/kotlin/util/CustomVisualTransformation.kt:32-35 | identity answers the offset; an empty table answers 0; an offset inside the table answers its entry, one at or past its end the original length; when all entries lie in 0..length, so does the answer |
| VisualTransformation.ReplaceTabsWithSpaces | src/main/kotlin/util/CustomVisualTransformation.kt:39-59 | the loop builds exactly the tab expansion `ExpandTabs(text)` and its map `ExpansionMap(text)` |
| VisualTransformation.ExpandPrefix | src/main/kotlin/util/CustomVisualTransformation.kt:46-54 | the expansion of n characters has length n + 3 × (number of tabs among them) |
| VisualTransformation.MapPrefix | src/main/kotlin/util/CustomVisualTransformation.kt:44-56 | the map has one entry per transformed character, so it is as long as the transformed text |
| VisualTransformation.ExpansionMapShape | src/main/kotlin/util/CustomVisualTransformation.kt:44-56 | every map entry is an index of the text, and the map is non-decreasing |
| VisualTransformation.ExpansionOfChar | src/main/kotlin/util/CustomVisualTransformation.kt:46-54 | character j shows at position j + 3 × (tabs before j): a tab as four spaces that all map to j, any other character as itself mapped to j |
| VisualTransformation.ExpansionAt | src/main/kotlin/util/CustomVisualTransformation.kt:46-54 | every transformed character is a space from a tab or the original character it maps to; after a non-tab, the next entry is the next index |
| VisualTransformation.TabFreeExpansion | src/main/kotlin/util/CustomVisualTransformation.kt:51-53 | text without tabs is shown unchanged and its map is the identity |
| VisualTransformation.FirstPositionOf | src/main/kotlin/util/CustomVisualTransformation.kt:25-30 | every original index occurs in the map; `originalToTransformed(j)` is the first position of j's piece |
| VisualTransformation.ExpansionRoundTrip | src/main/kotlin/util/CustomVisualTransformation.kt:25-35 | for 0 ≤ k ≤ length, `transformedToOriginal(originalToTransformed(k)) == k`, including the past-the-end sentinel |
| VisualTransformation.ExpansionBackAndForth | src/main/kotlin/util/CustomVisualTransformation.kt:25-35 | for a position t inside the map, `originalToTransformed(transformedToOriginal(t))` is at most t and maps to the same original character |
| ScriptTransformation.ScriptTransformation.constructor | src/main/kotlin/util/ScriptTransformation.kt:14-20 | a new highlighter has an empty keyword list and cursor 0 |
| ScriptTransformation.ScriptTransformation.LoadKeywordsFromJson | src/main/kotlin/util/ScriptTransformation.kt:27-33 | after loading, the keyword list is exactly the loaded list |
| ScriptTransformation.ScriptTransformation.Highlight | src/main/kotlin/util/ScriptTransformation.kt:35-96 | the annotated text is `Highlighted(text, keywords)`, the mapping is built from the tab expansion, and the cursor ends at the end of the expanded text |
| ScriptTransformation.ScriptTransformation.HighlightWord | src/main/kotlin/util/ScriptTransformation.kt:64-79 | the word branch advances to the end of the maximal run of letters and digits and styles it as one unit in its keyword's colour |
| ScriptTransformation.HighlightedStyles | src/main/kotlin/util/ScriptTransformation.kt:40-91 | the highlighted text is exactly the tab-expanded text, each character emitted once in order, with its lexer style |
| ScriptTransformation.Next | src/main/kotlin/util/ScriptTransformation.kt:48-63 | only a quote outside a comment flips the string flag; only `//` outside a string raises the comment flag; only a newline lowers it; letters and digits change nothing |
| ScriptTransformation.ModeExclusive | src/main/kotlin/util/ScriptTransformation.kt:48-59 | `inString` and `inComment` are never both true |
| ScriptTransformation.LexerStep | src/main/kotlin/util/ScriptTransformation.kt:48-90 | quote: string flag flips, string colour; `//`: comment flag set, comment colour; newline: comment flag cleared, string flag kept, unstyled; other non-word character: string, comment or default colour |
| ScriptTransformation.CharStep | src/main/kotlin/util/ScriptTransformation.kt:48-63 | one non-word step of the loop appends that character with its reference style and moves the flags as the reference does |
| ScriptTransformation.WordStep | src/main/kotlin/util/ScriptTransformation.kt:64-79 | one word step appends the whole run in its word's colour and leaves both flags down |
| ScriptTransformation.FindKeyword | src/main/kotlin/util/ScriptTransformation.kt:75 | the result is the first keyword whose word equals the looked-up word, or none if no keyword has it |
| ScriptTransformation.RunEnd | src/main/kotlin/util/ScriptTransformation.kt:66-68 | the run of letters and digits from k ends at the first character that is not one |
| ScriptTransformation.RunStart | src/main/kotlin/util/ScriptTransformation.kt:64-68 | a run starts just after a character that is not a letter or digit, or at 0 |
| ScriptTransformation.WordRunStyle | src/main/kotlin/util/ScriptTransformation.kt:64-79 | every character of a maximal run that begins outside strings and comments gets the colour of the whole word |
| ScriptTransformation.OriginalWordMatches | src/main/kotlin/util/ScriptTransformation.kt:69-74 | the original text at the mapped start holds the transformed word, because a run of letters and digits has no tab |
| ScriptTransformation.CutWord | src/main/kotlin/util/ScriptTransformation.kt:71-74 | the `coerceAtMost` cut of the original text is then exactly the transformed word |
| OutputTransformation.OutputTransformation.constructor | src/main/kotlin/util/OutputTransformation.kt:13 | the error prefix starts out absent |
| OutputTransformation.OutputTransformation.Highlight | src/main/kotlin/util/OutputTransformation.kt:15-43 | the output is `Emitted` over `text.lines()`, the annotations are `Annotations`, and the map is 0, 1, …, length |
| OutputTransformation.OutputText | src/main/kotlin/util/OutputTransformation.kt:18-35 | the output pane shows the text followed by one newline, whatever the prefix |
| OutputTransformation.EmittedLength | src/main/kotlin/util/OutputTransformation.kt:19-37 | the first n lines emit Σ(line length + 1) characters, one offset for each |
| OutputTransformation.Consecutive | src/main/kotlin/util/OutputTransformation.kt:35-37 | the offset map is consecutive: entry k is k |
| OutputTransformation.EmittedAt | src/main/kotlin/util/OutputTransformation.kt:20-34 | the characters of line k sit at its line start in the line's style, error-underlined exactly for error lines; the newline after the line is unstyled |
| OutputTransformation.NoPrefixUnstyled | src/main/kotlin/util/OutputTransformation.kt:21-33 | without a prefix no character is styled |
| OutputTransformation.NoPrefixNoAnnotations | src/main/kotlin/util/OutputTransformation.kt:21-30 | without a prefix there are no annotations |
| OutputTransformation.EmptyPrefixAnnotatesEveryLine | src/main/kotlin/util/OutputTransformation.kt:21-30 | with the empty prefix every line is annotated, in order |
| OutputTransformation.AnnotationsFromErrorLines | src/main/kotlin/util/OutputTransformation.kt:21-33 | every annotation is tagged `ERROR` and is the annotation of a line that starts with the prefix; lines without it get none |
| OutputTransformation.AnnotationsComplete | src/main/kotlin/util/OutputTransformation.kt:21-30 | every line that starts with the prefix has its annotation |
| OutputTransformation.AnnotationsOrdered | src/main/kotlin/util/OutputTransformation.kt:20-37 | annotations are pairwise disjoint and in increasing order |
| OutputTransformation.ErrorAnnotationSpan | src/main/kotlin/util/OutputTransformation.kt:25-30 | an annotation covers [line start, line start + line length) and the text there is its payload, the line |
| OutputTransformation.ConsecutiveMapping | src/main/kotlin/util/OutputTransformation.kt:35-41 | the output's offset map sends every offset up to the text length to itself, in both directions |
| TextOps.JoinSplitLines | src/main/kotlin/util/OutputTransformation.kt:18 | splitting into lines loses nothing: joining the lines with newlines gives the text back |
| TextOps.SplitLines | src/main/kotlin/util/OutputTransformation.kt:18 | `lines()` yields at least one line and no line contains a newline |
| TextOps.LineStartInJoin | src/main/kotlin/ui/ScriptEditorView.kt:131 | `take(k).sumOf { it.length + 1 }` is where line k begins in the joined text: line k sits there and a newline precedes it |
| Utils.ParseHexPair | src/main/kotlin/util/Utils.kt:11-19 | `toInt(16)` on a pair succeeds exactly when both characters are hex digits, with a value in 0..255; otherwise it fails naming the pair |
| Utils.ParseHexPairCanonical | src/main/kotlin/util/Utils.kt:11-19 | a pair that parses, in either case, is written back by `HexPair` as its upper-case spelling, so its value is the number its two digits spell |
| Utils.RemoveHash | src/main/kotlin/util/Utils.kt:8 | one leading `#` is dropped, and nothing else |
| Utils.ParseColor | src/main/kotlin/util/Utils.kt:7-22 | every channel of a parsed colour is in 0..255; six digits are opaque; the invalid-format error with the given string occurs exactly for lengths other than 6 and 8; a number-format error names a malformed pair |
| Utils.ParseColorSucceeds | src/main/kotlin/util/Utils.kt:8-22 | parsing succeeds exactly when the string without `#` has 6 or 8 characters, all hex digits |
| Utils.HashIsOptional | src/main/kotlin/util/Utils.kt:8 | `#` + s parses exactly like s, except that an invalid-format message repeats the string as given |
| Utils.OpaqueAlpha | src/main/kotlin/util/Utils.kt:10-20 | `"FF" + rrggbb` parses exactly like `rrggbb`, errors included |
| Utils.FormatColorRoundTrip | src/main/kotlin/util/Utils.kt:15-20 | `#AARRGGBB` parses back to the colour: alpha from the first pair, then red, green and blue |
| Utils.FormatRgbRoundTrip | src/main/kotlin/util/Utils.kt:10-14 | `#RRGGBB` parses back to the colour with full alpha |
| Utils.ParseColorCanonical | src/main/kotlin/util/Utils.kt:8-20 | every accepted spelling, with or without `#` and in either case, is the written form of its colour: `#AARRGGBB` for eight digits, `#RRGGBB` for six |
| ScriptEditorView.CoerceIn | src/main/kotlin/ui/ScriptEditorView.kt:123-124 | the result lies in the range, equals the value inside it, and is the nearer bound outside it |
| ScriptEditorView.TargetLine | src/main/kotlin/ui/ScriptEditorView.kt:122-123 | the target line is a line of the script |
| ScriptEditorView.TargetPosition | src/main/kotlin/ui/ScriptEditorView.kt:124 | the target column is at most the target line's length |
| ScriptEditorView.CursorIndex | src/main/kotlin/ui/ScriptEditorView.kt:131 | 0 ≤ cursor index ≤ script length |
| ScriptEditorView.ColumnInJoin | src/main/kotlin/ui/ScriptEditorView.kt:131 | in the joined lines, Σ(length + 1) over the first k lines plus a column is that column of line k |
| ScriptEditorView.CursorOnTarget | src/main/kotlin/ui/ScriptEditorView.kt:121-132 | the cursor lands on the target line at the target column: k newlines precede it, a newline precedes the line's start, and the text from the line start to the cursor is the line's first `column` characters |
| ScriptEditorView.ClickInsideScript | src/main/kotlin/ui/ScriptEditorView.kt:122-131 | a (line, column) inside the script is not moved by the clamping |
| ScriptEditorView.ErrorMessageFor | src/main/kotlin/ui/ScriptEditorView.kt:179-185 | compiler-not-found text, a blank line and the message exactly for an I/O exception whose message contains "kotlinc" and starts with "Cannot run program"; otherwise the generic text followed by the message ("null" if there is none) |
| ScriptEditorView.OtherExceptionsAreGeneric | src/main/kotlin/ui/ScriptEditorView.kt:179-185 | an exception that is not an I/O exception, or has no message, always gets the generic text |
| ScriptEditorView.MissingKotlincRecognised | src/main/kotlin/ui/ScriptEditorView.kt:179-183 | the JVM's "Cannot run program \"kotlinc\"…" message is shown as the compiler-not-found text |
| ScriptEditorView.ExitCodeLabel | src/main/kotlin/ui/ScriptEditorView.kt:196-197 | "Exit Code: " followed by the code, or by "N/A" when there is none |
| ScriptEditorView.ExitCodeLabelReadBack | src/main/kotlin/ui/ScriptEditorView.kt:197 | the label shows "N/A" exactly when there is no code |
| ScriptEditorView.ExitCodeLabelDigits | src/main/kotlin/ui/ScriptEditorView.kt:197 | a non-negative code is shown as decimal digits that spell that code |
| ScriptEditorView.ExitCodeColor | src/main/kotlin/ui/ScriptEditorView.kt:198-201 | the primary colour exactly when the code is 0 or absent, otherwise the error colour |
| ScriptEditorView.ScriptEditorView.constructor | src/main/kotlin/ui/ScriptEditorView.kt:71-74 | a fresh window is idle, with empty output, no exit code and no error message |
| ScriptEditorView.ScriptEditorView.ButtonLabel | src/main/kotlin/ui/ScriptEditorView.kt:189-191 | the button reads "Execute" exactly when it is enabled, i.e. when no run is in progress, and "Running..." otherwise |
| ScriptEditorView.ScriptEditorView.OnExecuteClick | src/main/kotlin/ui/ScriptEditorView.kt:153-156 | starting a run sets running, clears the output, the exit code and the error message, and disables the button |
| ScriptEditorView.ScriptEditorView.OnStdoutLine | src/main/kotlin/ui/ScriptEditorView.kt:163-167 | a line of standard output is appended with a newline |
| ScriptEditorView.ScriptEditorView.OnStderrLine | src/main/kotlin/ui/ScriptEditorView.kt:168-172 | a line of the error stream is appended after the error prefix and a space, with a newline |
| ScriptEditorView.ScriptEditorView.OnRunFinished | src/main/kotlin/ui/ScriptEditorView.kt:174-175 | completion clears running, re-enables the button and shows the exit code; no error message |
| ScriptEditorView.ScriptEditorView.OnRunFailed | src/main/kotlin/ui/ScriptEditorView.kt:176-186 | an exception clears running, re-enables the button, leaves the exit code absent and sets the chosen error message |
| ScriptEditorView.ScriptEditorView.OnErrorDismissed | src/main/kotlin/ui/ScriptEditorView.kt:205-209 | closing the error dialog clears the message |

All the run-state methods also preserve `Valid()`:
- nothing is reported while a run is in progress;
- a run never ends with both an exit code and an error message.

## Left out

- Compose rendering, layout, focus, scrolling and coroutine dispatch. The
  scroll offset `targetLine * lineHeightPx` is a float and is not modelled.
  The run-button events are methods that the caller invokes in the order
  the coroutines would.
- Process execution (`ScriptRunner`), `writeScriptToFile` and
  `readScriptFromFile`. These are OS process and file I/O.
  - `OnExecuteClick` does not write the script file.
  - `OnRunFinished` and `OnRunFailed` take the exit code or the exception
    as parameters.
- Reading and decoding the keyword JSON file. `LoadKeywordsFromJson` takes
  the decoded list.
- `ConfigLoader` and the config records. The error prefix and the two
  error texts are constructor parameters of `ScriptEditorView`.
- Colours as Compose `Color` values and the `/ 255f` float division.
  - Highlighter styles are abstract tags.
  - A keyword's colour is kept as its raw string.
- ScriptTransformation.ScriptTransformation.Highlight: does not model the
  exception `Utils.parseColor` would throw for a malformed keyword colour.
  The colour string is kept unparsed.
- `stringColor` and `commentColor` are fixed tags. Their configuration
  lookup is left out.
- ScriptTransformation.ScriptTransformation.Highlight: scans with a local
  cursor and stores it in the inherited field `i` at the end. The source
  advances the field itself. Nothing reads `i` during the pass, so the two
  agree.
- ScriptTransformation.RefStyle: tests for a word before the quote, slash
  and newline cases. A letter or digit is none of those, so the order
  agrees with the source's `if` chain.
- `Char.isLetterOrDigit` is restricted to ASCII letters and digits. Unicode
  letters are not modelled.
- `String.lines()` is modelled for '\n' only. Kotlin also splits at "\r\n"
  and "\r".
- Utils.ParseHexPair: rejects a pair with a leading sign ("+F", "-1"). This
  is weaker than Kotlin's `toInt(16)`, which accepts a sign. Only ASCII hex
  digits count as digits.
- VisualTransformation.TransformedToOriginal: requires a non-negative
  offset when the table is not empty. Kotlin's list lookup throws
  `IndexOutOfBoundsException` for a negative offset; the model does not
  represent that exception. Compose only passes offsets of 0 or more.
- Kotlin's 32-bit `Int` is not modelled. Offsets and the cursor index are
  unbounded integers, since texts that long are out of reach.
- `getAnnotationAtOffset` is not part of this model; the click handler's
  (line, position) pair is a parameter.
- `OutputTransformation` is declared without calling its superclass
  constructor (src/main/kotlin/util/OutputTransformation.kt:12). Only its
  `highlight` logic is modelled.
- Nothing in the code assigns the error prefix after construction. The
  model keeps it as a field that starts absent, and the lemmas cover every
  prefix.
- ErrorDialog layout is not modelled.
