# Line-labelling renderer of `run`, in Dafny

`run` starts several tasks side by side and merges their output into a single
terminal. `printer.go` holds a UI for it, a line-labelling renderer. Every
task writes through its own `io.Writer`, and the renderer turns each chunk of
text into labelled lines:

- it trims the chunk, splits it at line breaks, trims every line and drops
  the blank ones;
- when the writing identifier differs from the last one rendered, the first
  line of the chunk carries the new identifier in a fixed-width label column
  (so a change to the empty identifier shows an empty label); every other
  line has an empty label;
- that first line is preceded by a blank separator line when the last
  identifier rendered was non-empty;
- the label column is as wide as the longest identifier, which `Start`
  measures in bytes.

This project models that renderer in two modules:

- `GoStrings` (`go_strings.dfy`) covers the parts of Go's `strings` and
  `unicode` packages the renderer relies on: `unicode.IsSpace`,
  `strings.TrimSpace`, `strings.Split` with its inverse `strings.Join`, and
  `len` as a UTF-8 byte count.
- `Printer` (`printer.dfy`) is the renderer itself:
  - The class `Printer` has the fields the Go struct updates: the width
    `keyLength` and the last rendered identifier `lastKey`. It also has
    `sinkSet`, which says whether a sink is bound, and `out`, the lines
    written to that sink so far.
  - `Start` computes the width in a loop.
  - `Write` runs the per-line state machine in a loop.
  - `PrinterWriter` is the per-task adapter.

A line written to the sink is a `Line` record, not styled text. The record
holds whether a separator comes first, the label text, the column width, the
owning identifier and the content.

Each method is proved against a specification function:

- `MaxByteLen` specifies `Start`'s loop.
- `Lines` specifies which contents a `Write` emits. It is the composition of
  `TrimSpace`, `Split` and `Kept`.
- `Layout` specifies how those contents are labelled.

The lemmas then prove what the renderer promises:

- trimming and splitting lose nothing but white space and blank lines;
- the output is always coherent: a line's label is its owner exactly when
  the owner differs from the previous line's, and is empty otherwise; a
  separator comes first exactly when the owner differs from the previous
  line's and that previous owner is non-empty;
- a two-stream session (`a` writes two lines around a blank one, then `b`,
  then `a` again) gives exactly the four expected lines.

## Model

| member | source | states |
|---|---|---|
| `GoStrings.IsSpace` | printer.go:65 | the white-space set of `unicode.IsSpace` used by `strings.TrimSpace`: tab, line feed, vertical tab, form feed, carriage return, space, U+0085, U+00A0, U+1680, U+2000 to U+200A, U+2028, U+2029, U+202F, U+205F and U+3000 |
| `GoStrings.TrimSpace` | printer.go:65 | `strings.TrimSpace`: drops leading then trailing white space; the result is never longer than the input (its full meaning is in the lemmas below) |
| `GoStrings.TrimLeftDropsLeadingSpace` | printer.go:65 | trimming on the left removes a prefix made only of white space and stops at the first other character |
| `GoStrings.TrimRightDropsTrailingSpace` | printer.go:65 | trimming on the right removes a suffix made only of white space and stops at the last other character |
| `GoStrings.TrimSpaceIsTrimmed` | printer.go:67 | a trimmed line neither starts nor ends with white space |
| `GoStrings.TrimSpaceIsSlice` | printer.go:65 | `TrimSpace(s)` is a contiguous slice of `s`, and everything outside that slice is white space |
| `GoStrings.TrimSpaceEmpty` | printer.go:67-70 | a line trims to the empty string (and is skipped) exactly when it is all white space |
| `GoStrings.TrimSpacePadded` | printer.go:65 | trimming a trimmed core padded with white space on both sides gives back the core |
| `GoStrings.TrimSpaceIgnoresPadding` | printer.go:65 | adding white space at either end of a string does not change its trimmed form |
| `GoStrings.TrimSpaceOfTrimmed` | printer.go:67 | trimming leaves a trimmed string unchanged |
| `GoStrings.TrimSpaceIdempotent` | printer.go:65-67 | trimming an already trimmed string again changes nothing |
| `GoStrings.Split` | printer.go:65 | splitting at `\n` gives one more piece than there are line breaks, so the empty message gives one empty piece |
| `GoStrings.SplitSnocSeparator` | printer.go:65 | a trailing line break adds one empty last piece |
| `GoStrings.SplitSnocOther` | printer.go:65 | a trailing character other than the separator extends the last piece |
| `GoStrings.SplitPiecesLackSeparator` | printer.go:65 | no piece contains a line break |
| `GoStrings.Join` | printer.go:65 | `strings.Join` with a one-character separator, the inverse of `Split`: the parts with one separator between neighbours, so at least one character per separator |
| `GoStrings.JoinSplit` | printer.go:65 | joining the pieces with `\n` gives the string back, so splitting loses nothing |
| `GoStrings.SplitJoin` | printer.go:65 | splitting the join of pieces that contain no line break gives back exactly those pieces |
| `GoStrings.Utf8Width` | printer.go:46 | a character takes 1 to 4 bytes, and exactly 1 when it is ASCII |
| `GoStrings.ByteLen` | printer.go:46 | `len` of a string is between its character count and four times that, and equals the character count exactly for ASCII strings |
| `Printer.MaxByteLen` | printer.go:44-49 | the width is at least the byte length of every identifier, is attained by one of them, and is 0 for no identifiers |
| `Printer.Pieces` | printer.go:65 | the pieces the loop visits: the trimmed message split at line breaks |
| `Printer.Kept` | printer.go:66-70 | the loop emits at most one line per piece |
| `Printer.KeptAreTrimmed` | printer.go:67-70 | every emitted content is non-empty and trimmed |
| `Printer.KeptAppend` | printer.go:66-70 | pieces are filtered independently and in order: filtering a concatenation concatenates the results |
| `Printer.KeptSingle` | printer.go:67-70 | a single piece yields its trimmed text, or nothing when that text is empty |
| `Printer.KeptIgnoresLeadingSpace` | printer.go:65-70 | white space before a message, line breaks included, changes none of the emitted lines |
| `Printer.KeptIgnoresTrailingSpace` | printer.go:65-70 | white space after a message, line breaks included, changes none of the emitted lines |
| `Printer.Lines` | printer.go:65-70 | the contents a Write emits: the pieces, each trimmed, the blank ones dropped |
| `Printer.LinesAreNonBlankLines` | printer.go:65-70 | the contents a Write emits are exactly the non-blank lines of the message, each trimmed, in order: the outer trim changes nothing |
| `Printer.LinesEmpty` | printer.go:65-70 | a Write emits no line exactly when its message is all white space |
| `Printer.Step` | printer.go:67-89 | one turn of the loop on one piece: a blank piece changes nothing; otherwise one line is added, labelled with the key and preceded by a separator (when the last key is non-empty) if the key differs from the last key, which then becomes the key; unlabelled otherwise |
| `Printer.Run` | printer.go:66-90 | all turns of the loop, from the last key on entry, piece by piece in order |
| `Printer.Layout` | printer.go:71-89 | one line per content, each with the content, the width and the writing key; only the first line can carry the label (the key when it differs from the last key) and a separator (when the key changed from a non-empty one); all later lines are unlabelled continuation lines, and an empty key never shows a label |
| `Printer.LayoutSnoc` | printer.go:71-89 | one more content adds one more line at the end: the labelled first line, or a continuation line |
| `Printer.RunIsLayout` | printer.go:66-90 | the loop, one piece at a time, emits exactly the layout of the kept contents and leaves the last key at `key` when it emitted anything, otherwise unchanged |
| `Printer.Coherent` | printer.go:71-78 | a line's label is its owner exactly when the owner differs from the previous line's, empty otherwise; a separator comes first exactly when the owner differs and the previous owner is non-empty |
| `Printer.WellFormed` | printer.go:58-91 | the state every Write keeps: the last line's owner is the last key, every line has the session width and a non-empty trimmed content, and the output is coherent |
| `Printer.Printer.Valid` | printer.go:16-21 | the renderer's invariant: output only reaches a bound sink, and the output is well formed for the current last key and width |
| `Printer.CoherentAppend` | printer.go:71-78 | a Write that starts from the owner of the last line keeps the whole output coherent: each line is labelled with its owner exactly when the owner differs from the previous line's (empty label otherwise), and has a separator exactly when the owner differs and the previous owner is non-empty |
| `Printer.WriteKeepsWellFormed` | printer.go:58-91 | a Write keeps every output line at the session width, non-empty and trimmed, keeps the output coherent, and keeps the last key equal to the last line's owner |
| `Printer.Printer.constructor` | printer.go:12-14 | a new renderer has no sink, width 0, no last key and no output |
| `Printer.Printer.Writer` | printer.go:26-28 | the adapter for `id` is bound to this renderer and to `id` |
| `Printer.Printer.Start` | printer.go:42-56 | binds the given sink, empty, or leaves the renderer without one when the writer is nil (unbinding an earlier sink); sets the width to the largest identifier byte length (0 for none), keeps the last key and returns no error |
| `Printer.Printer.Write` | printer.go:58-91 | needs a bound sink; appends exactly the layout of the message's non-blank trimmed lines; the last key becomes `key` if a line was emitted and is unchanged otherwise; the width is unchanged; the second sink check is unreachable |
| `Printer.PrinterWriter.Write` | printer.go:37-40 | forwards the payload under the adapter's identifier and reports its full byte length with no error |
| `Printer.SingleLine` | printer.go:65-70 | a non-blank line without a line break is emitted as itself |
| `Printer.PiecesAroundBlank` | printer.go:65 | two lines around a blank line split into the two lines with an empty piece between them |
| `Printer.KeptAroundBlank` | printer.go:67-70 | the empty piece between two lines is dropped and both lines are kept |
| `Printer.BlankLineDropped` | printer.go:65-70 | a message of two lines with a blank line between them emits exactly the two lines |
| `Printer.TwoStreamSession` | printer.go:58-91 | a two-stream session: `a` writes two lines around a blank one, then `b` writes one line, then `a` again. The output is `a`'s labelled line, an unlabelled continuation line, then a separator and `b`'s label, then a separator and `a`'s label again, all at the width of the longer identifier |

## Left out

- The mutex that serialises writes (`printer.go:13`, `printer.go:59`). Every
  `Write` is one atomic method call, so interleavings between tasks are not
  modelled.
- The `ready` channel and the wait on `ctx.Done()` in `Start`. Goroutine
  coordination is not modelled, and `Start` returns as soon as it has
  computed the width.
- Terminal styling: lipgloss styles, `JoinHorizontal`, right alignment, the
  border and the margins. A written line is a `Line` record, and the
  separator is its `sep` flag, not an actual `"\n"` prefix.
- `colorHash`, which is not part of this model. The colour of a label is
  represented by the line's `owner` (the key whose hash gives the colour).
- The sink as an `io.Writer`. It is reduced to whether `Start` was given a
  non-nil writer (`sinkSet`) and the records written to it since (`out`,
  emptied by `Start`); write errors from the sink are not modelled, as the
  Go code ignores them.
- Byte slices that are not valid UTF-8. Strings are sequences of Unicode
  scalar values, and Go's `len` is their UTF-8 byte count (`ByteLen`).
- The panic on a nil sink. It becomes the precondition `sinkSet` of `Write`,
  so a call before `Start`, or after a `Start` given a nil writer, is a
  caller error.
- `example_bring_your_own_ui_test.go`, which drives the task-running API
  (not part of this model) with a pass-through UI that writes to standard
  output; it holds no renderer logic.
- The rest of the `strings` and `unicode` packages. Only the white-space
  set, `TrimSpace`, `Split` on a one-character separator, and `len` are
  modelled.
