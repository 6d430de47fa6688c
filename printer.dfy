/**
 * The line-labelling renderer of printer.go: many named streams write text
 * into one shared sink, and the renderer turns each chunk into labelled
 * terminal lines, showing a stream's identifier only when the stream that
 * writes changes.
 *
 * What reaches the sink is modelled as a sequence of `Line` records rather
 * than styled text: the terminal styling is left to the styling library.
 */
module Printer {
  import opened GoStrings

  datatype Option<T> = None | Some(value: T)

  /**
   * One line written to the sink.
   *   sep       - a blank separator line comes first
   *   labelText - the text of the label column: the key, or empty
   *   width     - the width of the label column
   *   owner     - the key of the Write that produced the line; the
   *               label's colour is derived from it
   *   content   - the text beside the label
   */
  datatype Line = Line(sep: bool, labelText: string, width: nat, owner: string, content: string)

  /**
   * The width Start gives the label column: the largest `len(id)` (in bytes)
   * over `ids`, or 0 when there are none.
   */
  function MaxByteLen(ids: seq<string>): (m: nat)
    ensures forall i :: 0 <= i < |ids| ==> ByteLen(ids[i]) <= m
    ensures ids == [] ==> m == 0
    ensures ids != [] ==> exists i :: 0 <= i < |ids| && ByteLen(ids[i]) == m
    decreases |ids|
  {
    if ids == [] then 0
    else
      var m := MaxByteLen(ids[..|ids| - 1]);
      var n := ByteLen(ids[|ids| - 1]);
      if n > m then n else m
  }

  /** The pieces Write's loop visits: the trimmed message split at line breaks. */
  function Pieces(message: string): seq<string> {
    Split(TrimSpace(message), '\n')
  }

  /**
   * What the pieces leave to be written: each piece trimmed, the blank ones
   * dropped, the others kept in order.
   */
  function Kept(pieces: seq<string>): (r: seq<string>)
    ensures |r| <= |pieces|
    decreases |pieces|
  {
    if pieces == [] then []
    else
      var r := Kept(pieces[..|pieces| - 1]);
      var l := TrimSpace(pieces[|pieces| - 1]);
      if l == [] then r else r + [l]
  }

  /** Every kept content is non-empty and trimmed. */
  lemma {:induction false} KeptAreTrimmed(pieces: seq<string>)
    ensures forall i :: 0 <= i < |Kept(pieces)| ==> Kept(pieces)[i] != [] && IsTrimmed(Kept(pieces)[i])
    decreases |pieces|
  {
    if pieces != [] {
      KeptAreTrimmed(pieces[..|pieces| - 1]);
      TrimSpaceIsTrimmed(pieces[|pieces| - 1]);
    }
  }

  /** The contents of the lines that a Write of `message` emits. */
  function Lines(message: string): seq<string> {
    Kept(Pieces(message))
  }

  /** Keeping distributes over concatenation. */
  lemma {:induction false} KeptAppend(ps: seq<string>, qs: seq<string>)
    ensures Kept(ps + qs) == Kept(ps) + Kept(qs)
    decreases |qs|
  {
    if qs != [] {
      var init := qs[..|qs| - 1];
      assert (ps + qs)[..|ps + qs| - 1] == ps + init;
      assert (ps + qs)[|ps + qs| - 1] == qs[|qs| - 1];
      KeptAppend(ps, init);
    } else {
      assert ps + qs == ps;
    }
  }

  /** What a single piece leaves: its trimmed text, unless that is empty. */
  lemma KeptSingle(p: string)
    ensures Kept([p]) == if TrimSpace(p) == [] then [] else [TrimSpace(p)]
  {
    assert [p][..0] == [];
  }

  /** Extending the first piece by a white-space character in front changes nothing kept. */
  lemma KeptFirstExtended(first: string, rest: seq<string>, c: char)
    requires IsSpace(c)
    ensures Kept([[c] + first] + rest) == Kept([first] + rest)
  {
    assert [c] + first + [] == [c] + first && [] + first + [] == first;
    assert AllSpace([c]);
    TrimSpaceIgnoresPadding([c], first, []);
    KeptSingle(first);
    KeptSingle([c] + first);
    KeptAppend([[c] + first], rest);
    KeptAppend([first], rest);
  }

  /** A leading empty piece changes nothing kept. */
  lemma KeptEmptyFirst(rest: seq<string>)
    ensures Kept([[]] + rest) == Kept(rest)
  {
    KeptSingle([]);
    KeptAppend([[]], rest);
  }

  /** White space in front of a message changes no line that is kept. */
  lemma {:induction false} KeptIgnoresLeadingSpace(w: string, s: string)
    requires AllSpace(w)
    ensures Kept(Split(w + s, '\n')) == Kept(Split(s, '\n'))
    decreases |w|
  {
    if w == [] {
      assert w + s == s;
    } else {
      var c, y := w[0], w[1..] + s;
      assert w + s == [c] + y;
      assert ([c] + y)[1..] == y;
      assert AllSpace(w[1..]) by {
        forall i | 0 <= i < |w[1..]| ensures IsSpace(w[1..][i]) { assert w[1..][i] == w[i + 1]; }
      }
      KeptIgnoresLeadingSpace(w[1..], s);
      var r := Split(y, '\n');
      if c == '\n' {
        assert Split(w + s, '\n') == [[]] + r;
        KeptEmptyFirst(r);
      } else {
        assert Split(w + s, '\n') == [[c] + r[0]] + r[1..];
        KeptFirstExtended(r[0], r[1..], c);
        assert [r[0]] + r[1..] == r;
      }
    }
  }

  /** White space after a message changes no line that is kept. */
  lemma {:induction false} KeptIgnoresTrailingSpace(s: string, w: string)
    requires AllSpace(w)
    ensures Kept(Split(s + w, '\n')) == Kept(Split(s, '\n'))
    decreases |w|
  {
    if w == [] {
      assert s + w == s;
    } else {
      var init, c := w[..|w| - 1], w[|w| - 1];
      assert s + w == (s + init) + [c];
      assert AllSpace(init) by {
        forall i | 0 <= i < |init| ensures IsSpace(init[i]) { assert init[i] == w[i]; }
      }
      KeptIgnoresTrailingSpace(s, init);
      KeptSnocSpace(s + init, c);
    }
  }

  /** One white-space character after a message changes no line that is kept. */
  lemma KeptSnocSpace(t: string, c: char)
    requires IsSpace(c)
    ensures Kept(Split(t + [c], '\n')) == Kept(Split(t, '\n'))
  {
    var r := Split(t, '\n');
    if c == '\n' {
      SplitSnocSeparator(t, '\n');
      KeptAppend(r, [[]]);
      KeptSingle([]);
    } else {
      SplitSnocOther(t, c, '\n');
      assert r == r[..|r| - 1] + [r[|r| - 1]];
      KeptLastExtended(r[..|r| - 1], r[|r| - 1], c);
    }
  }

  /** Extending the last piece by a white-space character changes nothing kept. */
  lemma KeptLastExtended(init: seq<string>, last: string, c: char)
    requires IsSpace(c)
    ensures Kept(init + [last + [c]]) == Kept(init + [last])
  {
    assert [] + last + [c] == last + [c] && [] + last + [] == last;
    assert AllSpace([c]);
    TrimSpaceIgnoresPadding([], last, [c]);
    KeptSingle(last);
    KeptSingle(last + [c]);
    KeptAppend(init, [last + [c]]);
    KeptAppend(init, [last]);
  }

  /**
   * The lines a Write emits are exactly the lines of the message that are
   * not blank, each trimmed, in order: trimming the whole message first
   * changes none of them.
   */
  lemma LinesAreNonBlankLines(message: string)
    ensures Lines(message) == Kept(Split(message, '\n'))
  {
    var a := TrimSpaceIsSlice(message);
    var t := TrimSpace(message);
    var lead, trail := message[..a], message[a + |t|..];
    assert message == lead + (t + trail);
    KeptIgnoresLeadingSpace(lead, t + trail);
    KeptIgnoresTrailingSpace(t, trail);
  }

  /** A Write emits nothing exactly when its message is blank. */
  lemma LinesEmpty(message: string)
    ensures Lines(message) == [] <==> AllSpace(message)
  {
    var t := TrimSpace(message);
    TrimSpaceEmpty(message);
    TrimSpaceIsTrimmed(message);
    if AllSpace(message) {
      assert Split(t, '\n') == [[]];
    } else {
      var r := Split(t, '\n');
      assert t[0] != '\n';
      assert r[0] == [t[0]] + Split(t[1..], '\n')[0];
      TrimSpaceEmpty(r[0]);
      assert r == [r[0]] + r[1..];
      KeptAppend([r[0]], r[1..]);
    }
  }

  /** Proof aid: regrouping three runs of output lines, kept apart to keep Write's loop proof small. */
  lemma LinesAssoc(a: seq<Line>, b: seq<Line>, c: seq<Line>)
    ensures (a + b) + c == a + (b + c)
  {
  }

  /** What Write's loop carries from piece to piece: the lines emitted so far and the last key. */
  datatype Progress = Progress(lines: seq<Line>, lastKey: string)

  /** One turn of Write's loop, on one piece. */
  function Step(p: Progress, key: string, width: nat, piece: string): Progress {
    var l := TrimSpace(piece);
    if l == [] then p
    else if key != p.lastKey then Progress(p.lines + [Line(p.lastKey != [], key, width, key, l)], key)
    else Progress(p.lines + [Line(false, [], width, key, l)], p.lastKey)
  }

  /** Write's loop over `pieces`, started with `lastKey` as the last key. */
  function Run(lastKey: string, key: string, width: nat, pieces: seq<string>): Progress
    decreases |pieces|
  {
    if pieces == [] then Progress([], lastKey)
    else Step(Run(lastKey, key, width, pieces[..|pieces| - 1]), key, width, pieces[|pieces| - 1])
  }

  /** Running the loop one piece further is one more Step. */
  lemma RunSnoc(lastKey: string, key: string, width: nat, pieces: seq<string>, i: nat)
    requires i < |pieces|
    ensures Run(lastKey, key, width, pieces[..i + 1]) == Step(Run(lastKey, key, width, pieces[..i]), key, width, pieces[i])
  {
    assert pieces[..i + 1][..i] == pieces[..i];
  }

  /**
   * The lines one Write of `key` lays out for `contents` after `lastKey` was
   * the last key rendered. Only the first line can carry the label, and does
   * so when the key changed; it is preceded by a separator when the key
   * changed from a non-empty one. Every later line is a continuation line.
   */
  function Layout(lastKey: string, key: string, width: nat, contents: seq<string>): (r: seq<Line>)
    ensures |r| == |contents|
    ensures forall j :: 0 <= j < |r| ==> r[j].content == contents[j] && r[j].width == width && r[j].owner == key
    ensures r != [] ==> r[0].labelText == (if key != lastKey then key else []) && r[0].sep == (key != lastKey && lastKey != [])
    ensures forall j :: 0 < j < |r| ==> r[j].labelText == [] && !r[j].sep
    decreases |contents|
  {
    if contents == [] then []
    else
      [Line(key != lastKey && lastKey != [], if key != lastKey then key else [], width, key, contents[0])]
      + Layout(key, key, width, contents[1..])
  }

  /** Laying out one more content adds one line: the labelled first line, or a continuation line. */
  lemma {:induction false} LayoutSnoc(lastKey: string, key: string, width: nat, contents: seq<string>, c: string)
    ensures Layout(lastKey, key, width, contents + [c]) == Layout(lastKey, key, width, contents) +
      [if contents == [] then Line(key != lastKey && lastKey != [], if key != lastKey then key else [], width, key, c)
       else Line(false, [], width, key, c)]
    decreases |contents|
  {
    if contents != [] {
      assert (contents + [c])[1..] == contents[1..] + [c];
      LayoutSnoc(key, key, width, contents[1..], c);
    }
  }

  /**
   * Write's loop, piece by piece, emits exactly the layout of the kept
   * contents, and leaves the last key at `key` if it emitted anything and
   * unchanged otherwise.
   */
  lemma {:induction false} RunIsLayout(lastKey: string, key: string, width: nat, pieces: seq<string>)
    ensures Run(lastKey, key, width, pieces)
         == Progress(Layout(lastKey, key, width, Kept(pieces)), if Kept(pieces) == [] then lastKey else key)
    decreases |pieces|
  {
    if pieces != [] {
      var init := pieces[..|pieces| - 1];
      RunIsLayout(lastKey, key, width, init);
      if TrimSpace(pieces[|pieces| - 1]) != [] {
        LayoutSnoc(lastKey, key, width, Kept(init), TrimSpace(pieces[|pieces| - 1]));
      }
    }
  }

  /**
   * The output reads as one log: a line carries a label exactly when its
   * owner differs from the previous line's, the label is then the owner,
   * and a separator comes first exactly when the previous owner is
   * non-empty.
   */
  predicate Coherent(lines: seq<Line>) {
    forall j :: 0 < j < |lines| ==>
      && lines[j].labelText == (if lines[j].owner != lines[j - 1].owner then lines[j].owner else [])
      && lines[j].sep == (lines[j].owner != lines[j - 1].owner && lines[j - 1].owner != [])
  }

  /** A Write that starts from the owner of the last line keeps the output coherent. */
  lemma CoherentAppend(out: seq<Line>, lastKey: string, key: string, width: nat, contents: seq<string>)
    requires Coherent(out)
    requires out != [] ==> out[|out| - 1].owner == lastKey
    ensures Coherent(out + Layout(lastKey, key, width, contents))
  {
    var add := Layout(lastKey, key, width, contents);
    var all := out + add;
    forall j | 0 < j < |all|
      ensures all[j].labelText == (if all[j].owner != all[j - 1].owner then all[j].owner else [])
      ensures all[j].sep == (all[j].owner != all[j - 1].owner && all[j - 1].owner != [])
    {
      if j < |out| {
        assert all[j] == out[j] && all[j - 1] == out[j - 1];
      } else if j == |out| {
        assert all[j] == add[0] && all[j - 1] == out[j - 1];
      } else {
        assert all[j] == add[j - |out|] && all[j - 1] == add[j - 1 - |out|];
      }
    }
  }

  /**
   * What holds of the output at all times: every line has the column width
   * `width` and a non-empty, trimmed content, the output is coherent, and
   * its last line is owned by `lastKey`.
   */
  predicate WellFormed(out: seq<Line>, lastKey: string, width: nat) {
    && (out != [] ==> out[|out| - 1].owner == lastKey)
    && (forall j :: 0 <= j < |out| ==> out[j].width == width && out[j].content != [] && IsTrimmed(out[j].content))
    && Coherent(out)
  }

  /**
   * A Write of non-empty, trimmed contents keeps the output well formed, with
   * `key` as the new last key if it wrote anything.
   */
  lemma WriteKeepsWellFormed(out: seq<Line>, lastKey: string, key: string, width: nat, contents: seq<string>)
    requires WellFormed(out, lastKey, width)
    requires forall i :: 0 <= i < |contents| ==> contents[i] != [] && IsTrimmed(contents[i])
    ensures WellFormed(out + Layout(lastKey, key, width, contents), if contents == [] then lastKey else key, width)
  {
    CoherentAppend(out, lastKey, key, width, contents);
    var all := out + Layout(lastKey, key, width, contents);
    forall j | 0 <= j < |all|
      ensures all[j].width == width && all[j].content != [] && IsTrimmed(all[j].content)
    {
      if j >= |out| {
        assert all[j] == Layout(lastKey, key, width, contents)[j - |out|];
      }
    }
  }

  /** The renderer, `printer` in printer.go. */
  class Printer {
    /** Whether a sink is bound (`p.stdout != nil`). */
    var sinkSet: bool
    /** The width of the label column. */
    var keyLength: nat
    /** The key of the last line written. */
    var lastKey: string
    /** The lines written to the sink that the latest Start bound, oldest first. */
    var out: seq<Line>

    /** Output reaches only a bound sink, and it is well formed. */
    ghost predicate Valid()
      reads this
    {
      (out != [] ==> sinkSet) && WellFormed(out, lastKey, keyLength)
    }

    /** `newPrinter`: no sink bound yet, and no key rendered. */
    constructor ()
      ensures Valid()
      ensures !sinkSet && keyLength == 0 && lastKey == [] && out == []
    {
      sinkSet, keyLength, lastKey, out := false, 0, [], [];
    }

    /** The endpoint through which the stream `id` writes; it changes nothing. */
    method Writer(id: string) returns (w: PrinterWriter)
      ensures w.printer == this && w.id == id
    {
      w := PrinterWriter(this, id);
    }

    /**
     * Binds the given sink, which is new and empty, and sets the label column
     * to the length of the longest identifier. `sink` says whether the writer
     * passed in is non-nil: a nil writer leaves the renderer without a sink,
     * even one bound by an earlier Start. The last key is kept.
     */
    method Start(sink: bool, ids: seq<string>) returns (err: Option<string>)
      requires Valid()
      modifies this
      ensures err == None
      ensures Valid()
      ensures sinkSet == sink && out == [] && lastKey == old(lastKey)
      ensures keyLength == MaxByteLen(ids)
      ensures forall i :: 0 <= i < |ids| ==> ByteLen(ids[i]) <= keyLength
      ensures ids == [] ==> keyLength == 0
    {
      var width: nat := 0;
      for i := 0 to |ids|
        invariant width == MaxByteLen(ids[..i])
      {
        assert ids[..i + 1][..i] == ids[..i];
        if ByteLen(ids[i]) > width {
          width := ByteLen(ids[i]);
        }
      }
      assert ids[..|ids|] == ids;
      sinkSet, out, keyLength := sink, [], width;
      err := None;
    }

    /**
     * Renders `message` as written by the stream `key`: appends one line per
     * non-blank line of the message and leaves `key` as the last key if it
     * appended any. The sink must be bound; the width never changes.
     */
    method Write(key: string, message: string)
      requires Valid() && sinkSet
      modifies this
      ensures Valid() && sinkSet && keyLength == old(keyLength)
      ensures out == old(out) + Layout(old(lastKey), key, keyLength, Lines(message))
      ensures lastKey == if Lines(message) == [] then old(lastKey) else key
    {
      ghost var before, last0 := out, lastKey;
      var width := keyLength;
      var lines := Split(TrimSpace(message), '\n');
      ghost var done := Progress([], lastKey);
      for i := 0 to |lines|
        invariant sinkSet && keyLength == width
        invariant done == Run(last0, key, width, lines[..i])
        invariant out == before + done.lines && lastKey == done.lastKey
      {
        RunSnoc(last0, key, width, lines, i);
        ghost var prev := done;
        done := Step(done, key, width, lines[i]);
        var l := TrimSpace(lines[i]);
        if l == [] {
          continue;
        }
        var k: string, space := [], false;
        if key != lastKey {
          if lastKey != [] {
            space := true;
          }
          k, lastKey := key, key;
        }
        if !sinkSet {
          // the second nil check cannot fire: the sink was checked on entry
          assert false;
        }
        assert done.lines == prev.lines + [Line(space, k, width, key, l)] && done.lastKey == lastKey;
        out := out + [Line(space, k, width, key, l)];
        LinesAssoc(before, prev.lines, [Line(space, k, width, key, l)]);
      }
      assert lines[..|lines|] == lines;
      RunIsLayout(last0, key, width, lines);
      KeptAreTrimmed(lines);
      WriteKeepsWellFormed(before, last0, key, keyLength, Lines(message));
    }
  }

  /** `printerWriter`: the endpoint bound to one renderer and one identifier. */
  datatype PrinterWriter = PrinterWriter(printer: Printer, id: string) {
    /**
     * Forwards the whole payload to the renderer under `id` and reports it
     * consumed in full (its length in bytes) with no error.
     */
    method Write(payload: string) returns (n: nat, err: Option<string>)
      requires printer.Valid() && printer.sinkSet
      modifies printer
      ensures n == ByteLen(payload) && err == None
      ensures printer.Valid() && printer.sinkSet && printer.keyLength == old(printer.keyLength)
      ensures printer.out == old(printer.out) + Layout(old(printer.lastKey), id, printer.keyLength, Lines(payload))
      ensures printer.lastKey == if Lines(payload) == [] then old(printer.lastKey) else id
    {
      printer.Write(id, payload);
      n, err := ByteLen(payload), None;
    }
  }

  /** A non-empty line without surrounding white space or line breaks. */
  predicate IsPlainLine(l: string) {
    l != [] && IsTrimmed(l) && '\n' !in l
  }

  /** A plain line is a message of exactly one line, itself. */
  lemma SingleLine(l: string)
    requires IsPlainLine(l)
    ensures Lines(l) == [l]
  {
    TrimSpaceOfTrimmed(l);
    SplitJoin([l], '\n');
    KeptSingle(l);
  }

  /** Two plain lines around one blank line split into the two lines and an empty piece between them. */
  lemma PiecesAroundBlank(a: string, b: string)
    requires IsPlainLine(a) && IsPlainLine(b)
    ensures Pieces(a + "\n\n" + b) == [a, [], b]
  {
    var m := a + "\n\n" + b;
    var parts := [a, [], b];
    assert parts[1..] == [[], b] && parts[1..][1..] == [b];
    assert Join([[], b], '\n') == [] + ['\n'] + b;
    assert Join(parts, '\n') == a + ['\n'] + ([] + ['\n'] + b);
    assert Join(parts, '\n') == m;
    SplitJoin(parts, '\n');
    assert m[0] == a[0] && m[|m| - 1] == b[|b| - 1];
    TrimSpaceOfTrimmed(m);
  }

  /** Of two plain lines around an empty piece, both lines are kept and the empty piece is dropped. */
  lemma KeptAroundBlank(a: string, b: string)
    requires IsPlainLine(a) && IsPlainLine(b)
    ensures Kept([a, [], b]) == [a, b]
  {
    TrimSpaceOfTrimmed(a);
    KeptSingle(a);
    KeptEmptyFirst([b]);
    TrimSpaceOfTrimmed(b);
    KeptSingle(b);
    KeptAppend([a], [[], b]);
    assert [a] + [[], b] == [a, [], b] && [[]] + [b] == [[], b];
  }

  /** A blank line between two plain lines is dropped and the two lines are kept. */
  lemma BlankLineDropped(a: string, b: string)
    requires IsPlainLine(a) && IsPlainLine(b)
    ensures Lines(a + "\n\n" + b) == [a, b]
  {
    PiecesAroundBlank(a, b);
    KeptAroundBlank(a, b);
  }

  /** Proof aid: regrouping four output lines into one display, kept apart to keep the session's proof small. */
  lemma FourLines(x1: Line, x2: Line, x3: Line, x4: Line)
    ensures [x1, x2] + [x3] + [x4] == [x1, x2, x3, x4]
  {
  }

  /** The first write of a session labels its first line only, without a separator. */
  lemma LayoutOpening(key: string, width: nat, l1: string, l2: string)
    requires key != []
    ensures Layout([], key, width, [l1, l2]) == [Line(false, key, width, key, l1), Line(false, [], width, key, l2)]
  {
  }

  /** A single line from a stream other than the last one opens a new labelled block. */
  lemma LayoutSwitch(lastKey: string, key: string, width: nat, l: string)
    requires lastKey != [] && lastKey != key
    ensures Layout(lastKey, key, width, [l]) == [Line(true, key, width, key, l)]
  {
  }

  /**
   * A two-stream session: `a` writes two lines with a blank line between
   * them, then `b` writes a line, then `a` again. The blank line is dropped, the second
   * line of `a` is a continuation line, and each change of stream brings a
   * separator and the label back.
   */
  method TwoStreamSession(a: string, b: string, l1: string, l2: string, l3: string, l4: string)
    returns (out: seq<Line>)
    requires a != [] && b != [] && a != b
    requires IsPlainLine(l1) && IsPlainLine(l2) && IsPlainLine(l3) && IsPlainLine(l4)
    ensures var w := MaxByteLen([a, b]);
      out == [Line(false, a, w, a, l1), Line(false, [], w, a, l2), Line(true, b, w, b, l3), Line(true, a, w, a, l4)]
  {
    BlankLineDropped(l1, l2);
    SingleLine(l3);
    SingleLine(l4);
    var p := new Printer();
    var _ := p.Start(true, [a, b]);
    ghost var w := MaxByteLen([a, b]);
    assert p.out == [] && p.lastKey == [] && p.keyLength == w;
    p.Write(a, l1 + "\n\n" + l2);
    LayoutOpening(a, w, l1, l2);
    ghost var first := [Line(false, a, w, a, l1), Line(false, [], w, a, l2)];
    assert p.out == first && p.lastKey == a;
    p.Write(b, l3);
    LayoutSwitch(a, b, w, l3);
    ghost var second := first + [Line(true, b, w, b, l3)];
    assert p.out == second && p.lastKey == b;
    p.Write(a, l4);
    LayoutSwitch(b, a, w, l4);
    assert p.out == second + [Line(true, a, w, a, l4)];
    out := p.out;
    FourLines(first[0], first[1], Line(true, b, w, b, l3), Line(true, a, w, a, l4));
  }
}
