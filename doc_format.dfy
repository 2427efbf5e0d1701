/**
 * `get_csharp_formatted_doc`: a packet's documentation text is XML-escaped,
 * split into lines and rewritten line by line from a subset of
 * reStructuredText (notes, warnings, csv tables) into C# XML-doc markup;
 * after the shared post-processing the lines are joined so that each
 * continues a `///` comment.
 */
module DocFormat {
  import opened Text
  import opened DeviceModel

  /** The four flags of the line translator. */
  datatype DocState = DocState(inNote: bool, inWarning: bool, inTableHead: bool, inTableBody: bool)

  const Start := DocState(false, false, false, false)

  const HeaderPrefix := ":header: "

  /** What separates the lines of a formatted doc comment. */
  const DocLineBreak := "\n\t\t///  "

  /** Python's `s[n:]`: empty when `s` is shorter than `n`. */
  function DropPrefix(s: string, n: nat): string {
    if n <= |s| then s[n..] else []
  }

  /** How the translator's tests classify a line, before looking at the flags. */
  datatype LineKind = NoteOpen | WarningOpen | BlankLine | TableOpen | HeaderOption | WidthsOption | TextLine

  /** The tests of the translator, on the stripped line, in their `elif` order. */
  function KindOf(line: string): LineKind {
    var t := Strip(line);
    if t == ".. note::" then NoteOpen
    else if t == ".. warning::" then WarningOpen
    else if |t| == 0 then BlankLine
    else if t == ".. csv-table::" then TableOpen
    else if StartsWith(t, HeaderPrefix) then HeaderOption
    else if StartsWith(t, ":widths:") then WidthsOption
    else TextLine
  }

  /** One line of the translator, its tests in their `elif` order: the new flags and the lines it emits. */
  function StepLine(st: DocState, line: string): (DocState, seq<string>) {
    var t := Strip(line);
    if t == ".. note::" then
      (st.(inNote := true), ["<note>"])
    else if t == ".. warning::" then
      (st.(inWarning := true), ["<note type=\"caution\">"])
    else if |t| == 0 && (st.inNote || st.inWarning) then
      (st.(inNote := false, inWarning := false), ["</note>", ""])
    else if t == ".. csv-table::" then
      (st.(inTableHead := true), ["<code>"])
    else if StartsWith(t, HeaderPrefix) && st.inTableHead then
      // the test strips the line, the slice does not
      (st, [DropPrefix(line, |HeaderPrefix|)])
    else if StartsWith(t, ":widths:") && st.inTableHead then
      (st, [])
    else if |t| == 0 && st.inTableHead then
      (st.(inTableHead := false, inTableBody := true), [""])
    else if |t| == 0 && st.inTableBody then
      (st.(inTableBody := false), ["</code>", ""])
    else
      (st, [line])
  }

  /** The same step, read by the kind of the line. */
  lemma StepLineByKind(st: DocState, line: string)
    ensures var kind := KindOf(line);
      StepLine(st, line) ==
        if kind == NoteOpen then (st.(inNote := true), ["<note>"])
        else if kind == WarningOpen then (st.(inWarning := true), ["<note type=\"caution\">"])
        else if kind == BlankLine && (st.inNote || st.inWarning) then (st.(inNote := false, inWarning := false), ["</note>", ""])
        else if kind == TableOpen then (st.(inTableHead := true), ["<code>"])
        else if kind == HeaderOption && st.inTableHead then (st, [DropPrefix(line, |HeaderPrefix|)])
        else if kind == WidthsOption && st.inTableHead then (st, [])
        else if kind == BlankLine && st.inTableHead then (st.(inTableHead := false, inTableBody := true), [""])
        else if kind == BlankLine && st.inTableBody then (st.(inTableBody := false), ["</code>", ""])
        else (st, [line])
  {
  }

  /** The lines emitted for `lines` starting in state `st`. */
  function Translate(st: DocState, lines: seq<string>): seq<string>
    decreases |lines|
  {
    if lines == [] then []
    else
      var (st', out) := StepLine(st, lines[0]);
      out + Translate(st', lines[1..])
  }

  /** The state after translating `lines` from `st`. */
  function StateAfter(st: DocState, lines: seq<string>): DocState
    decreases |lines|
  {
    if lines == [] then st else StateAfter(StepLine(st, lines[0]).0, lines[1..])
  }

  lemma TranslateCons(st: DocState, line: string, rest: seq<string>)
    ensures Translate(st, [line] + rest) == StepLine(st, line).1 + Translate(StepLine(st, line).0, rest)
    ensures StateAfter(st, [line] + rest) == StateAfter(StepLine(st, line).0, rest)
  {
    assert ([line] + rest)[1..] == rest;
  }

  /** The translation loop of `get_csharp_formatted_doc`, with its four flags. */
  method TranslateDocLines(lines: seq<string>) returns (replaced: seq<string>)
    ensures replaced == Translate(Start, lines)
  {
    replaced := [];
    var inNote, inWarning, inTableHead, inTableBody := false, false, false, false;
    for i := 0 to |lines|
      invariant replaced + Translate(DocState(inNote, inWarning, inTableHead, inTableBody), lines[i..])
                == Translate(Start, lines)
    {
      var line := lines[i];
      var t := Strip(line);
      ghost var before := replaced;
      ghost var st := DocState(inNote, inWarning, inTableHead, inTableBody);
      if t == ".. note::" {
        inNote := true;
        replaced := replaced + ["<note>"];
      } else if t == ".. warning::" {
        inWarning := true;
        replaced := replaced + ["<note type=\"caution\">"];
      } else if |t| == 0 && (inNote || inWarning) {
        if inNote {
          inNote := false;
        }
        if inWarning {
          inWarning := false;
        }
        replaced := replaced + ["</note>", ""];
      } else if t == ".. csv-table::" {
        inTableHead := true;
        replaced := replaced + ["<code>"];
      } else if StartsWith(t, HeaderPrefix) && inTableHead {
        replaced := replaced + [DropPrefix(line, |HeaderPrefix|)];
      } else if StartsWith(t, ":widths:") && inTableHead {
      } else if |t| == 0 && inTableHead {
        inTableHead := false;
        inTableBody := true;
        replaced := replaced + [""];
      } else if |t| == 0 && inTableBody {
        inTableBody := false;
        replaced := replaced + ["</code>", ""];
      } else {
        replaced := replaced + [line];
      }
      assert StepLine(st, line).0 == DocState(inNote, inWarning, inTableHead, inTableBody);
      assert replaced == before + StepLine(st, line).1;
      StepAppends(before, StepLine(st, line).1, StepLine(st, line).0, st, lines, i);
    }
  }

  lemma StepAppends(before: seq<string>, emitted: seq<string>, st': DocState, st: DocState, lines: seq<string>, i: nat)
    requires i < |lines|
    requires StepLine(st, lines[i]) == (st', emitted)
    ensures (before + emitted) + Translate(st', lines[i + 1..]) == before + Translate(st, lines[i..])
  {
    var rest := lines[i + 1..];
    assert lines[i..] == [lines[i]] + rest;
    TranslateCons(st, lines[i], rest);
    assert Translate(st, lines[i..]) == emitted + Translate(st', rest);
  }

  // ---------------------------------------------------------------------------
  // What the translation does to documents

  /** A line the translator treats as a directive in any state. */
  predicate IsDirective(line: string) {
    KindOf(line) in {NoteOpen, WarningOpen, TableOpen}
  }

  /** An ordinary line outside a table head: not blank and not a directive. */
  predicate IsTextLine(line: string) {
    KindOf(line) in {TextLine, HeaderOption, WidthsOption}
  }

  /** No line is a directive. */
  predicate NoDirectives(lines: seq<string>) {
    lines == [] || (!IsDirective(lines[0]) && NoDirectives(lines[1..]))
  }

  /** Every line is a text line (stated recursively, so that it unfolds one line at a time). */
  predicate AllTextLines(lines: seq<string>) {
    lines == [] || (IsTextLine(lines[0]) && AllTextLines(lines[1..]))
  }

  predicate IsBlank(line: string) {
    KindOf(line) == BlankLine
  }

  lemma {:induction false} TranslateAppend(st: DocState, a: seq<string>, b: seq<string>)
    ensures Translate(st, a + b) == Translate(st, a) + Translate(StateAfter(st, a), b)
    ensures StateAfter(st, a + b) == StateAfter(StateAfter(st, a), b)
    decreases |a|
  {
    if a != [] {
      assert (a + b)[1..] == a[1..] + b;
      TranslateAppend(StepLine(st, a[0]).0, a[1..], b);
    } else {
      assert a + b == b;
    }
  }

  /** Text without directives passes through unchanged, and the translator stays in its start state. */
  lemma {:induction false} PlainTextUnchanged(lines: seq<string>)
    requires NoDirectives(lines)
    ensures Translate(Start, lines) == lines
    ensures StateAfter(Start, lines) == Start
  {
    if lines != [] {
      PlainTextUnchanged(lines[1..]);
      assert StepLine(Start, lines[0]) == (Start, [lines[0]]);
      TranslateCons(Start, lines[0], lines[1..]);
      assert lines == [lines[0]] + lines[1..];
    }
  }

  /** Text lines outside a table head pass through unchanged and keep the flags. */
  lemma {:induction false} TextLinesUnchanged(st: DocState, lines: seq<string>)
    requires !st.inTableHead
    requires AllTextLines(lines)
    ensures Translate(st, lines) == lines
    ensures StateAfter(st, lines) == st
  {
    if lines != [] {
      TextLinesUnchanged(st, lines[1..]);
      assert StepLine(st, lines[0]) == (st, [lines[0]]);
      TranslateCons(st, lines[0], lines[1..]);
      assert lines == [lines[0]] + lines[1..];
    }
  }

  /** The directive lines as written in the documentation texts. */
  lemma DirectiveKinds()
    ensures KindOf(".. note::") == NoteOpen
    ensures KindOf(".. warning::") == WarningOpen
    ensures KindOf(".. csv-table::") == TableOpen
    ensures KindOf("") == BlankLine
  {
    StripOfTrimmed(".. note::");
    StripOfTrimmed(".. warning::");
    StripOfTrimmed(".. csv-table::");
  }

  /** The tag a note or warning directive opens. */
  function NoteTag(kind: LineKind): string {
    if kind == WarningOpen then "<note type=\"caution\">" else "<note>"
  }

  lemma OpenNoteStep(open: string)
    requires KindOf(open) in {NoteOpen, WarningOpen}
    ensures StepLine(Start, open) ==
      (DocState(KindOf(open) == NoteOpen, KindOf(open) == WarningOpen, false, false), [NoteTag(KindOf(open))])
  {
    StepLineByKind(Start, open);
  }

  lemma CloseNoteStep(st: DocState, blank: string)
    requires (st.inNote || st.inWarning) && IsBlank(blank)
    ensures StepLine(st, blank) == (st.(inNote := false, inWarning := false), ["</note>", ""])
  {
    StepLineByKind(st, blank);
  }

  /**
   * A note block becomes `<note>` ... `</note>` and a warning block
   * `<note type="caution">` ... `</note>`; the blank line that ends the
   * block adds an empty line, and the flags are clear again afterwards.
   */
  lemma NoteBlock(open: string, body: seq<string>, blank: string)
    requires KindOf(open) in {NoteOpen, WarningOpen}
    requires AllTextLines(body)
    requires IsBlank(blank)
    ensures Translate(Start, [open] + body + [blank]) == [NoteTag(KindOf(open))] + body + ["</note>", ""]
    ensures StateAfter(Start, [open] + body + [blank]) == Start
  {
    OpenNoteStep(open);
    var inside := StepLine(Start, open).0;
    assert [open] + body + [blank] == [open] + (body + [blank]);
    TranslateCons(Start, open, body + [blank]);
    TranslateAppend(inside, body, [blank]);
    TextLinesUnchanged(inside, body);
    CloseNoteStep(inside, blank);
    TranslateCons(inside, blank, []);
  }

  /**
   * A csv table: the directive opens `<code>`, the `:header:` line gives
   * its text, `:widths:` gives nothing, the first blank line ends the head
   * with an empty line, the rows pass through, and the second blank line
   * closes with `</code>` and an empty line.
   */
  lemma CsvTable(open: string, header: string, widths: string, blank1: string, rows: seq<string>, blank2: string)
    requires KindOf(open) == TableOpen && KindOf(header) == HeaderOption && KindOf(widths) == WidthsOption
    requires IsBlank(blank1) && IsBlank(blank2)
    requires AllTextLines(rows)
    ensures Translate(Start, [open, header, widths, blank1] + rows + [blank2])
            == ["<code>", DropPrefix(header, |HeaderPrefix|), ""] + rows + ["</code>", ""]
    ensures StateAfter(Start, [open, header, widths, blank1] + rows + [blank2]) == Start
  {
    var head := [open, header, widths, blank1];
    var body := rows + [blank2];
    TableHead(open, header, widths, blank1);
    TranslateAppend(Start, head, body);
    assert head + rows + [blank2] == head + body;
    TableBody(rows, blank2);
  }

  /** The rows of a table body pass through; the blank line after them closes with `</code>` and an empty line. */
  lemma TableBody(rows: seq<string>, blank: string)
    requires IsBlank(blank)
    requires AllTextLines(rows)
    ensures var inBody := DocState(false, false, false, true);
            Translate(inBody, rows + [blank]) == rows + ["</code>", ""]
            && StateAfter(inBody, rows + [blank]) == Start
  {
    var inBody := DocState(false, false, false, true);
    TranslateAppend(inBody, rows, [blank]);
    TextLinesUnchanged(inBody, rows);
    StepLineByKind(inBody, blank);
    TranslateCons(inBody, blank, []);
    assert [blank] == [blank] + [];
  }

  lemma TableHead(open: string, header: string, widths: string, blank: string)
    requires KindOf(open) == TableOpen && KindOf(header) == HeaderOption && KindOf(widths) == WidthsOption
    requires IsBlank(blank)
    ensures Translate(Start, [open, header, widths, blank]) == ["<code>", DropPrefix(header, |HeaderPrefix|), ""]
    ensures StateAfter(Start, [open, header, widths, blank]) == DocState(false, false, false, true)
  {
    var inHead := DocState(false, false, true, false);
    TableHeadSteps(open, header, widths, blank);
    TranslateCons(Start, open, [header, widths, blank]);
    TranslateCons(inHead, header, [widths, blank]);
    TranslateCons(inHead, widths, [blank]);
    TranslateCons(inHead, blank, []);
    assert [header, widths, blank] == [header] + [widths, blank];
    assert [widths, blank] == [widths] + [blank];
    assert [blank] == [blank] + [];
    assert [open, header, widths, blank] == [open] + [header, widths, blank];
  }

  lemma TableHeadSteps(open: string, header: string, widths: string, blank: string)
    requires KindOf(open) == TableOpen && KindOf(header) == HeaderOption && KindOf(widths) == WidthsOption
    requires IsBlank(blank)
    ensures var inHead := DocState(false, false, true, false);
      StepLine(Start, open) == (inHead, ["<code>"]) &&
      StepLine(inHead, header) == (inHead, [DropPrefix(header, |HeaderPrefix|)]) &&
      StepLine(inHead, widths) == (inHead, []) &&
      StepLine(inHead, blank) == (DocState(false, false, false, true), [""])
  {
    var inHead := DocState(false, false, true, false);
    StepLineByKind(Start, open);
    StepLineByKind(inHead, header);
    StepLineByKind(inHead, widths);
    StepLineByKind(inHead, blank);
  }

  /**
   * The `elif` order lets a blank line close an open note before it can end
   * a table head: inside a table head, a note directive and a blank line give
   * `<note>`, `</note>`, `''` and leave the table head open.
   */
  lemma NoteClosesBeforeTableHead(open: string, note: string, blank: string)
    requires KindOf(open) == TableOpen && KindOf(note) == NoteOpen && IsBlank(blank)
    ensures Translate(Start, [open, note, blank]) == ["<code>", "<note>", "</note>", ""]
    ensures StateAfter(Start, [open, note, blank]).inTableHead
  {
    var inHead := DocState(false, false, true, false);
    var both := DocState(true, false, true, false);
    StepLineByKind(Start, open);
    StepLineByKind(inHead, note);
    StepLineByKind(both, blank);
    TranslateCons(Start, open, [note, blank]);
    TranslateCons(inHead, note, [blank]);
    TranslateCons(both, blank, []);
    assert [open, note, blank] == [open] + [note, blank];
    assert [note, blank] == [note] + [blank];
    assert [blank] == [blank] + [];
  }

  /**
   * The `:header:` test looks at the stripped line but the slice drops nine
   * characters of the line as written: a header line indented by `w <= 9`
   * whitespace characters emits the last `w` characters of `:header: `
   * before its text (nothing extra when unindented, a space for one
   * character of indentation, `r: ` for three).
   */
  lemma IndentedHeaderSlice(indent: string, x: string)
    requires AllSpace(indent) && |indent| <= |HeaderPrefix|
    requires |x| > 0 && !IsSpace(x[|x| - 1])
    ensures KindOf(indent + HeaderPrefix + x) == HeaderOption
    ensures StepLine(DocState(false, false, true, false), indent + HeaderPrefix + x).1
            == [HeaderPrefix[|HeaderPrefix| - |indent|..] + x]
  {
    var line := indent + HeaderPrefix + x;
    IndentedHeaderKind(indent, x);
    StepLineByKind(DocState(false, false, true, false), line);
    HeaderSlice(indent, x);
  }

  lemma IndentedHeaderKind(indent: string, x: string)
    requires AllSpace(indent)
    requires |x| > 0 && !IsSpace(x[|x| - 1])
    ensures KindOf(indent + HeaderPrefix + x) == HeaderOption
  {
    var core := HeaderPrefix + x;
    assert indent + HeaderPrefix + x == indent + core;
    assert core[0] == ':' && core[|core| - 1] == x[|x| - 1];
    StripIndented(indent, core);
    assert core[..|HeaderPrefix|] == HeaderPrefix;
    assert core != ".. note::" && core != ".. warning::" && core != ".. csv-table::" by {
      assert core[0] != ".. note::"[0];
    }
  }

  lemma HeaderSlice(indent: string, x: string)
    requires |indent| <= |HeaderPrefix|
    ensures DropPrefix(indent + HeaderPrefix + x, |HeaderPrefix|) == HeaderPrefix[|HeaderPrefix| - |indent|..] + x
  {
    var line := indent + HeaderPrefix + x;
    var n := |HeaderPrefix|;
    var w := |indent|;
    assert |line| >= n;
    forall j | 0 <= j < |line| - n
      ensures line[n..][j] == (HeaderPrefix[n - w..] + x)[j]
    {
      if j < w {
        assert line[n + j] == HeaderPrefix[n - w + j];
      } else {
        assert line[n + j] == x[j - w];
      }
    }
  }

  // ---------------------------------------------------------------------------
  // The whole formatter

  /** The translated lines of a packet's (language-selected) documentation text. */
  function DocLines(text: string): seq<string> {
    Translate(Start, Split(Escape(text), '\n'))
  }

  /**
   * `get_csharp_formatted_doc`: translate, join with newlines, apply the
   * shared post-processing (links, parameters, substitutions, firmware
   * note), strip, and continue every line as a `///` comment line.
   */
  function FormattedDoc(m: Mapper, p: Packet): string {
    var text := Join(DocLines(p.docText), "\n");
    var post := m.docPostProcess(p, text);
    Join(Split(Strip(post), '\n'), DocLineBreak)
  }

  method FormatDoc(m: Mapper, p: Packet) returns (doc: string)
    ensures doc == FormattedDoc(m, p)
  {
    var text := Escape(p.docText);
    var lines := Split(text, '\n');
    var replaced := TranslateDocLines(lines);
    var joined := Join(replaced, "\n");
    var post := m.docPostProcess(p, joined);
    doc := Join(Split(Strip(post), '\n'), DocLineBreak);
  }

  /**
   * Every line break of a formatted doc is followed by the comment prefix,
   * so the whole text stays inside the `///` comment it is placed in, and
   * nothing else of the post-processed text changes.
   */
  lemma FormattedDocStaysInComment(m: Mapper, p: Packet)
    ensures var post := m.docPostProcess(p, Join(DocLines(p.docText), "\n"));
            FormattedDoc(m, p) == ReplaceChar(Strip(post), '\n', DocLineBreak)
    ensures BreaksContinueComment(FormattedDoc(m, p))
  {
    var post := m.docPostProcess(p, Join(DocLines(p.docText), "\n"));
    JoinSplit(Strip(post), '\n', DocLineBreak);
    BreaksFollowedByPrefix(Strip(post));
  }

  /** Every line break is followed by the rest of the comment prefix. */
  predicate BreaksContinueComment(d: string) {
    forall k :: 0 <= k < |d| && d[k] == '\n' ==> k + 7 < |d| && d[k + 1..k + 8] == "\t\t///  "
  }

  lemma {:induction false} BreaksFollowedByPrefix(s: string)
    ensures BreaksContinueComment(ReplaceChar(s, '\n', DocLineBreak))
  {
    if s != [] {
      BreaksFollowedByPrefix(s[1..]);
      var head := if s[0] == '\n' then DocLineBreak else [s[0]];
      var tail := ReplaceChar(s[1..], '\n', DocLineBreak);
      var d := head + tail;
      assert d == ReplaceChar(s, '\n', DocLineBreak);
      forall k | 0 <= k < |d| && d[k] == '\n' ensures k + 7 < |d| && d[k + 1..k + 8] == "\t\t///  " {
        if k < |head| {
          assert head == DocLineBreak && k == 0;
          BreakFromHead(tail);
        } else {
          BreakFromTail(head, tail, k - |head|);
        }
      }
    }
  }

  lemma BreakFromHead(tail: string)
    ensures var d := DocLineBreak + tail;
            7 < |d| && d[1..8] == "\t\t///  "
  {
    var d := DocLineBreak + tail;
    assert d[1..8] == DocLineBreak[1..];
  }

  lemma BreakFromTail(head: string, tail: string, q: nat)
    requires BreaksContinueComment(tail)
    requires q < |tail| && tail[q] == '\n'
    ensures var d, k := head + tail, |head| + q;
            k + 7 < |d| && d[k + 1..k + 8] == "\t\t///  "
  {
    assert q + 7 < |tail| && tail[q + 1..q + 8] == "\t\t///  ";
    SliceOfConcat(head, tail, q + 1, q + 8);
  }

  lemma SliceOfConcat(a: string, b: string, i: nat, j: nat)
    requires i <= j <= |b|
    ensures (a + b)[|a| + i..|a| + j] == b[i..j]
  {
  }

  /**
   * The doc links of `specialize_csharp_doc_function_links`: a callback
   * links to `<Name>Callback`, a function to `<Name>`.
   */
  function DocLink(m: Mapper, className: string, p: Packet, highLevel: bool): string {
    var name := m.camelCase(p.name, if highLevel then -2 else 0);
    "<see cref=\"Tinkerforge." + className + "." + name + (if p.kind == Callback then "Callback" else "") + "\"/>"
  }

  /**
   * Why callback and function names must not collide: a function whose
   * camel-case name is a callback's name followed by `Callback` gets the
   * same doc link, and the same C# member name, as that callback.
   */
  lemma CollidingNamesShareLink(m: Mapper, className: string, f: Packet, c: Packet, highLevel: bool)
    requires f.kind == Function && c.kind == Callback
    requires var skip := if highLevel then -2 else 0;
             m.camelCase(f.name, skip) == m.camelCase(c.name, skip) + "Callback"
    ensures DocLink(m, className, f, highLevel) == DocLink(m, className, c, highLevel)
  {
  }
}
