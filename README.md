# mdfmt renderer in Dafny

A model of the Markdown-to-Markdown renderer of `mdfmt` (`markdown/main.go`). The parser hands the
renderer a document tree. Its walker calls `RenderNode` on entering and on leaving each container
node, and once for each leaf node (text, code, code blocks, HTML, rules). `RenderNode` gives the hook, if one is set, the first chance at the node. Otherwise it
runs the node kind's emission routine, which appends canonical Markdown to the writer and
updates the renderer's state:

- the list depth;
- the ordered-list counters and the "loose item" flags, both per depth;
- the last text fragment;
- the length of the last write.

The model has these parts:

- `GoLib` (`golib.dfy`): the Go library calls the renderer relies on, each characterised. These are
  `bytes.Split` on newlines, `strings.Fields`, `strings.Repeat` and `%d`.
- `MarkdownText` (`text.dfy`): the pure helpers. `cleanWithoutTrim` is a loop method proved
  against the function `Cleaned`. `escape`, `isNumber` and `needsEscaping` are functions.
- `Ast` (`ast.dfy`): the node kinds, reduced to the attributes the renderer reads.
- `RenderState` (`render_state.dfy`): the renderer's state as a value, with one step function per
  emission routine. It also holds `RenderStep` (one `RenderNode` call) and `Walk` (a sequence of
  calls). Every step function is proved to keep the list depth and only append to
  the output (`Extends`).
- `Markdown` (`renderer.dfy`): the `Renderer` class. Its fields are updated in place and the writer
  is the `output` field, which only grows. Each emission routine is proved to move `Snapshot()`
  exactly as its step function does (`Out` as `Emit`, `Write` as `WriteRaw`, the type switch as
  `Dispatch`). The block-quote loop and its body (`QuoteLines`, `QuoteOneLine`) state the new value
  of each field instead.
- `RenderProperties` (`properties.dfy`): what the routines promise, and facts about whole walks.

Bytes are `seq<char>`, one `char` per byte. The two maps keep Go's semantics: a missing key reads
as 0 or `false`.

Where the code differs from the intended design, the model follows the code:

- `list` decrements `listDepth` when the same call returns, so the depth is 0 between calls
  (`FreshDepthStaysZero`). `list` sets the counter one level down, at depth 1. `listItem` reads the
  counter at depth 0, which no list ever sets. So ordered items are numbered 0, 1, 2, … across the
  whole document, counting entering and leaving visits alike, never restarting at 1 (`WalkCounter`,
  `ItemNumber`). Visits that the hook handles are not counted, because `listItem` does not run
  for them.
- Because the depth is always 0, the rule that drops a lone-newline text fragment inside a list
  never fires; the fragment comes out as a space (`NewlineTextBecomesSpace`).
- Every routine runs the same way on entering and on leaving (`EnteringIgnored`).
- `doubleSpace` writes a newline even before the first output.
- A heading has no trailing newline, and levels 1 and 2 get no marker at all.
- A `.` is also escaped after an empty fragment, because `isNumber("")` is true.
- The formatter is tried only when the whole info string is `Go` or `go`. The fence tag taken
  from that string plays no part in the choice.

## Model

| member | source | states |
|---|---|---|
| `GoLib.Split` | markdown/main.go:364 | `bytes.Split` on newline: always at least one piece |
| `GoLib.SplitPieces` | markdown/main.go:364 | there is one piece more than there are newlines, and no piece holds a newline |
| `GoLib.SplitJoin` | markdown/main.go:364 | joining the pieces with newlines gives back the input |
| `GoLib.JoinIsTerminatedPlusLast` | markdown/main.go:364-367 | the input is every piece but the last, each newline-terminated, then the last piece |
| `GoLib.Fields` | markdown/main.go:295 | `strings.Fields`: every field is non-empty and free of white space |
| `GoLib.FieldsSpell` | markdown/main.go:295 | the fields, concatenated, are the input with its white space removed |
| `GoLib.FieldsOfWord` | markdown/main.go:295 | a non-empty word without white space is exactly one field |
| `GoLib.FieldsSplit` | markdown/main.go:295 | a white-space byte splits: the fields of `a`, a space and `b` are the fields of `a` followed by those of `b` (with `FieldsOfWord` this determines `strings.Fields` completely) |
| `GoLib.FieldsTwoWords` | markdown/main.go:295 | `"g o"` has the two fields `g` and `o` |
| `GoLib.Repeat` | markdown/main.go:223 | `strings.Repeat`: exactly `n` copies of the byte |
| `GoLib.Digits` | markdown/main.go:194 | `%d` of a natural: at least one digit, all digits, no leading zero in any number of two or more digits, and exactly `0` for zero |
| `GoLib.FormatIntRoundTrip` | markdown/main.go:194 | what `%d` prints reads back as the same integer; a minus sign exactly for negatives |
| `MarkdownText.Cleaned` | markdown/main.go:551-565 | cleaning leaves no newline, carriage return or tab and no two adjacent spaces, is no longer than the input, and is empty only for empty input (`CleanedSplit` and `CleanedRun` state that every run of blanks, interior or at an end, becomes one space and every other byte stays) |
| `MarkdownText.CleanWithoutTrim` | markdown/main.go:551-565 | the loop with its carried previous byte computes `Cleaned` |
| `MarkdownText.CleanedKeepsFirst` | markdown/main.go:553-561 | the first byte is always kept (a break becomes a space) |
| `MarkdownText.CleanedKeepsLast` | markdown/main.go:550-565 | the last byte is always kept too (a break becomes a space): no blank is trimmed at either end |
| `MarkdownText.CleanedKeepsWords` | markdown/main.go:550-565 | every byte that is not a space or a break survives cleaning, in order |
| `MarkdownText.CleanedSplit` | markdown/main.go:550-565 | a byte that is neither a space nor a break stays, and the text on each side of it is cleaned on its own |
| `MarkdownText.CleanedRun` | markdown/main.go:556-562 | a non-empty run of spaces, newlines, carriage returns and tabs becomes exactly one space (with `CleanedSplit` this determines `Cleaned` completely) |
| `MarkdownText.CleanedTabBetweenWords` | markdown/main.go:550-565 | `"a\tb"` cleans to `"a b"` |
| `MarkdownText.CleanedFixes` | markdown/main.go:551-565 | a string without breaks or double spaces is its own cleaning |
| `MarkdownText.CleanedIdempotent` | markdown/main.go:551-565 | cleaning twice is cleaning once |
| `MarkdownText.EscapeRoundTrip` | markdown/main.go:567-570 | undoubling backslashes after `escape` gives back the input |
| `MarkdownText.Escape` | markdown/main.go:567-570 | `escape`: every backslash doubled, so the result is longer than the input by exactly its number of backslashes |
| `MarkdownText.EscapeChanges` | markdown/main.go:567-570 | `escape` changes a string exactly when it holds a backslash |
| `MarkdownText.IsNumber` | markdown/main.go:572-579 | true exactly when every byte is an ASCII digit, so true of the empty string |
| `MarkdownText.NeedsEscaping` | markdown/main.go:581-604 | true exactly for a lone byte among `` \ ` * _ { } [ ] ( ) # + - < > ``, or for `.` after an all-digit fragment |
| `MarkdownText.NeedsEscapingShape` | markdown/main.go:581-604 | only one-byte fragments are escaped; `!` never is; `.` after an empty fragment is |
| `RenderState.FormatCode` | markdown/main.go:276-287 | only the exact language strings `Go` and `go` can yield formatted code |
| `RenderState.SkipSpaceIfNeededNormalText` | markdown/main.go:407-412 | always answers no |
| `Markdown.Renderer.constructor` | markdown/main.go:60-75 | a new renderer has empty maps, depth 0, no last text, last write length 0, nothing written |
| `Markdown.Renderer.Out` | markdown/main.go:77-85 | appends the bytes and records their length |
| `Markdown.Renderer.Write` | markdown/main.go:194-199 | a write through `fmt.Fprintf` or the indenting writer appends without touching the recorded length |
| `Markdown.Renderer.Cr` | markdown/main.go:87-91 | a newline only when the last write was not empty |
| `Markdown.Renderer.DoubleSpace` | markdown/main.go:93-98 | a newline, unconditionally |
| `Markdown.Renderer.RenderNode` | markdown/main.go:101-166 | a handling hook's status is returned and the renderer writes nothing itself; otherwise the node kind's routine runs and the status is `GoToNext` |
| `Markdown.Renderer.DispatchNode` | markdown/main.go:109-163 | the type switch: each handled kind runs its own routine; `Document` and unhandled kinds change nothing |
| `Markdown.Renderer.DispatchInline` | markdown/main.go:110-137 | the switch cases for span-level kinds (text, breaks, emphasis, strong, strike-through, links, images, code spans, inline HTML) |
| `Markdown.Renderer.DispatchBlock` | markdown/main.go:122-163 | the switch cases for block kinds, and the empty `Document` and default cases |
| `Markdown.Renderer.List` | markdown/main.go:168-186 | one newline, depth unchanged on return, for an ordered list counter 1 at depth + 1 |
| `Markdown.Renderer.ListItem` | markdown/main.go:188-208 | marker, indented literal, newline, extra newline for a loose non-last item; the current depth is not loose afterwards |
| `Markdown.Renderer.HorizontalRule` | markdown/main.go:210-213 | a newline, then `---` and a newline |
| `Markdown.Renderer.Heading` | markdown/main.go:215-247 | moves the state as `HeadingStep` |
| `Markdown.Renderer.HtmlSpan` | markdown/main.go:249-251 | the literal, verbatim |
| `Markdown.Renderer.HtmlBlock` | markdown/main.go:253-257 | a newline, the literal, a newline |
| `Markdown.Renderer.DoParagraph` | markdown/main.go:260-273 | two newlines, and the current depth is marked loose |
| `Markdown.Renderer.CodeBlock` | markdown/main.go:289-320 | the field loop finds the fence tag `FenceTag(Fields(info))`; the block is written as `CodeBlockStep` |
| `Markdown.Renderer.Code` | markdown/main.go:322-326 | the literal between backticks |
| `Markdown.Renderer.Image` | markdown/main.go:328-343 | `![](`, the escaped destination, the optional quoted title, `)` |
| `Markdown.Renderer.Link` | markdown/main.go:345-359 | `[`, the text, `](`, the escaped destination, the optional quoted title, `)` |
| `Markdown.Renderer.BlockQuote` | markdown/main.go:361-376 | a newline, then the quoted lines `Quoted(QuotedLines(literal))` |
| `Markdown.Renderer.QuoteLines` | markdown/main.go:365-375 | the loop quotes every piece but the last, in order |
| `Markdown.Renderer.QuoteOneLine` | markdown/main.go:369-374 | `> ` and the line, or a bare `>`, then a newline |
| `Markdown.Renderer.Del` | markdown/main.go:378-382 | the literal between `~~` markers |
| `Markdown.Renderer.Strong` | markdown/main.go:384-395 | the literal between `**` markers, inside the bold and reset sequences on a terminal |
| `Markdown.Renderer.Emphasis` | markdown/main.go:397-405 | nothing for an empty literal, else the literal between `*` markers |
| `Markdown.Renderer.Text` | markdown/main.go:424-449 | moves the state as `TextStep` and remembers the literal as the last text |
| `RenderProperties.TextEffect` | markdown/main.go:424-449 | the last text becomes the literal in every case. The output is the cleaned, possibly escaped literal, or nothing for a lone newline inside a list. It has no breaks and no double spaces. |
| `RenderProperties.TextEscapesStructural` | markdown/main.go:427-429 | a lone structural byte comes out behind a backslash |
| `RenderProperties.TextDot` | markdown/main.go:596-598 | a `.` comes out as `\.` exactly when the previous fragment is all digits |
| `RenderProperties.ListEffect` | markdown/main.go:168-186 | one newline, depth kept, only the counter at depth + 1 changes (to 1, for an ordered list) |
| `RenderProperties.ListItemEffect` | markdown/main.go:188-208 | an ordered item prints the current depth's counter and `.` and adds exactly 1 to that counter. No other counter changes. The extra newline comes only for a loose item that is not the last. The depth is no longer loose afterwards. |
| `RenderProperties.QuotedNewlines` | markdown/main.go:365-375 | the quoted lines hold exactly one newline each |
| `RenderProperties.BlockQuoteEffect` | markdown/main.go:361-376 | one `>`-line per newline of the literal. The quoted lines are the literal's newline-terminated lines, and the text after the last newline is dropped. |
| `RenderProperties.FenceTagChoice` | markdown/main.go:294-310 | no tag exactly when every field is a bare `.`; otherwise the first field not a bare `.`, stripped of one leading `.` |
| `RenderProperties.FenceTagIsWord` | markdown/main.go:295-303 | the fence tag is a non-empty word without white space |
| `RenderProperties.CodeBlockEffect` | markdown/main.go:289-320 | newline, fence, newline, body, closing fence. The body is the formatter's result when the whole info string is `Go`/`go` and the formatter succeeds, and the literal otherwise. |
| `RenderProperties.HeadingEffect` | markdown/main.go:215-247 | a newline, then from level 3 on `level` hashes and a space; no trailing newline |
| `RenderProperties.EmphasisEmpty` | markdown/main.go:397-401 | an empty emphasis writes nothing and changes nothing |
| `RenderProperties.StrongEffect` | markdown/main.go:384-395 | `**` markers, wrapped in bold-on and reset sequences exactly when the terminal option is on |
| `RenderProperties.LinkEffect` | markdown/main.go:345-359 | a link whose destination has no backslash is written back as `[text](dest "title")` |
| `RenderProperties.EnteringIgnored` | markdown/main.go:109-165 | without a hook, entering and leaving render alike and the status is `GoToNext` |
| `RenderProperties.HookHandles` | markdown/main.go:102-107 | a handling hook decides the status; only what it wrote is appended |
| `RenderProperties.WalkEffect` | markdown/main.go:101-166 | any sequence of calls keeps the list depth and only appends |
| `RenderProperties.FreshDepthStaysZero` | markdown/main.go:174-175 | after any walk from a new renderer the depth is 0 |
| `RenderProperties.NewlineTextBecomesSpace` | markdown/main.go:431-435 | so a lone-newline text fragment is never dropped and comes out as a space |
| `RenderProperties.StepCounter` | markdown/main.go:101-208 | one call, with or without a hook, adds 1 to the current depth's counter exactly when it visits an ordered item the hook does not handle |
| `RenderProperties.InlineKeepsCounters` | markdown/main.go:110-137 | no span-level routine changes an ordered-list counter |
| `RenderProperties.DispatchCounter` | markdown/main.go:109-163 | a node's routine adds 1 to the current depth's counter exactly for an ordered item |
| `RenderProperties.WalkCounter` | markdown/main.go:101-208 | for any hook, the current depth's counter goes up once per ordered-item visit the hook leaves to the renderer, and is never reset |
| `RenderProperties.ItemNumber` | markdown/main.go:188-196 | after any walk from a new renderer, with or without a hook, the next ordered item is numbered with the count of ordered-item visits so far that the hook did not handle |

## Left out

- `Process` and `readSource` (file I/O), the parser and the tree walker are outside the model. The
  model takes the walker's visits as a sequence of (node, entering) events (`Walk`).
- `go/format.Source` is a foreign formatter; it is the `formatSource` function of `Library`, with
  `None` for an error. The indenting writer of `github.com/shurcooL/go/indentwriter` is the
  `indent` function of `Library`.
- The hook is modelled as a fixed function of (node, entering) returning the status, the
  "handled" flag and the bytes it wrote. A Go hook can keep state between calls and can tell apart
  two nodes with equal attributes by pointer; the model does not capture that, and `HookTakes`,
  `OrderedItems` and `WalkCounter` rely on it. What a real hook computes is not modelled.
- `terminalStringWidth`, the `stringWidth` field and `runewidth` measure visual width, and only
  dead code uses them.
- The commented-out table, underline-heading and autolink code is not modelled. Neither are the
  unused `headers`, `columnAligns`, `columnWidths` and `cells` fields or the empty
  `RenderHeader`/`RenderFooter`.
- Errors from the writer are ignored by the source and are not modelled.
- `GoLib.Fields`: only the six ASCII white-space bytes separate fields. Go's `strings.Fields` also
  splits on the multi-byte Unicode spaces, which a model with one `char` per byte cannot show.
- `Ast.ListFlags` keeps only the two bits of the list flag set that the renderer tests (ordered,
  end of list). Node kinds the renderer does not handle are one `Unknown` kind.
- `Markdown.Renderer.ListItem`: the counter is an unbounded integer; Go's 64-bit `int` would wrap
  after 2^63 - 1 increments.
- The `normalTextMarker` bookkeeping in `text` and `skipSpaceIfNeededNormalText` is commented out
  in the source and is not modelled.
