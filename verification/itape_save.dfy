/** What a saved settings file reads back as.

    `save` writes every raw entry as its stored line followed by a newline, but a
    stored line already ends in the newline `readlines()` kept, so every such line
    comes back followed by an extra empty line: saving a file that was loaded and
    never changed does not reproduce it. `SaveCorrected` writes raw lines as they
    are; with it a loaded file reads back one line per entry, its unmatched lines
    unchanged. */
module ITapeSave {
  import opened Wrappers
  import opened Text
  import opened Runtime
  import opened ITape

  /** A text with no newline except possibly as its last character. */
  predicate AtMostOneLine(s: string) {
    |s| == 0 || IsLine(s)
  }

  /** Every comment is a single line and every raw entry holds at most one line. */
  predicate SingleLineEntries(values: seq<Entry>) {
    forall k :: 0 <= k < |values| ==>
      (values[k].Numeric? ==> '\n' !in values[k].comment)
      && (values[k].Raw? ==> AtMostOneLine(values[k].text))
  }

  /** The raw entries have the shape `readlines()` gives them: each is a line, and
      each but a final one ends in a newline. */
  predicate ReadLinesShaped(values: seq<Entry>) {
    forall k :: 0 <= k < |values| && values[k].Raw? ==>
      IsLine(values[k].text) && (k < |values| - 1 ==> EndsWithNewline(values[k].text))
  }

  /** The lines `readlines()` returns for the text `save` writes for one entry. */
  function ReadBackOf(e: Entry, width: int, b: Builtins): seq<string> {
    match e
    case Numeric(_, _, _) => [SaveLine(e, width, b)]
    case Raw(text) => if EndsWithNewline(text) then [text, "\n"] else [text + "\n"]
  }

  function ReadBack(values: seq<Entry>, width: int, b: Builtins): seq<string> {
    if |values| == 0 then [] else ReadBackOf(values[0], width, b) + ReadBack(values[1..], width, b)
  }

  /** Number of raw entries whose line ends in a newline. */
  function RawLinesWithNewline(values: seq<Entry>): nat {
    if |values| == 0 then 0
    else (if values[0].Raw? && EndsWithNewline(values[0].text) then 1 else 0)
         + RawLinesWithNewline(values[1..])
  }

  /** The line `save` writes for a numeric entry holds a newline only at its end. */
  lemma NumericLineIsLine(v: Num, comment: string, fmt: Fmt, width: int, b: Builtins)
    requires RenderSound(b)
    requires '\n' !in comment
    ensures IsLine(NumericLine(v, comment, fmt, width, b) + "\n")
  {
    var rendered := b.render(fmt, v);
    var num := RemoveAll(rendered, '+');
    assert '\n' !in rendered;
    assert multiset(num)['\n'] == multiset(rendered)['\n'] == 0;
    var padded := LJust(num, width);
    var line := padded + "!" + comment;
    forall i | 0 <= i < |line| ensures line[i] != '\n' {
      if i < |num| {
        assert line[i] == num[i] && num[i] in multiset(num);
      } else if i < |padded| {
        assert line[i] == padded[i] == ' ';
      } else if i > |padded| {
        assert line[i] == comment[i - |padded| - 1];
      }
    }
    assert (line + "\n")[..|line + "\n"| - 1] == line;
  }

  /** `readlines()` of one entry's saved text is its `ReadBackOf`. */
  lemma ReadBackOfEntry(e: Entry, width: int, b: Builtins)
    requires RenderSound(b)
    requires e.Numeric? ==> '\n' !in e.comment
    requires e.Raw? ==> AtMostOneLine(e.text)
    ensures ReadLines(SaveLine(e, width, b)) == ReadBackOf(e, width, b)
  {
    var ls := ReadBackOf(e, width, b);
    match e
    case Numeric(v, comment, fmt) =>
      NumericLineIsLine(v, comment, fmt, width, b);
      assert Concat(ls) == SaveLine(e, width, b);
      ReadLinesConcatInverse(ls);
    case Raw(text) =>
      if EndsWithNewline(text) {
        assert IsLine("\n");
        assert ls[1..] == ["\n"] && ls[1..][1..] == [];
        assert Concat(ls[1..]) == "\n" + Concat(ls[1..][1..]) == "\n";
        assert Concat(ls) == text + "\n";
        ReadLinesConcatInverse(ls);
      } else {
        assert '\n' !in text by {
          if |text| > 0 {
            assert text == text[..|text| - 1] + [text[|text| - 1]];
          }
        }
        assert (text + "\n")[..|text + "\n"| - 1] == text;
        assert Concat(ls) == text + "\n";
        ReadLinesConcatInverse(ls);
      }
  }

  /** Reading back a saved file gives, entry by entry, the entry's `ReadBackOf`:
      one line per numeric entry, one per raw entry without a newline, and two,
      the line and an empty line, per raw entry that ends in a newline. */
  lemma {:induction false} SaveReadBack(t: Tape, b: Builtins)
    requires RenderSound(b)
    requires SingleLineEntries(t.values)
    ensures ReadLines(Concat(Save(t, b))) == ReadBack(t.values, t.width, b)
    decreases |t.values|
  {
    if |t.values| > 0 {
      var rest := t.(values := t.values[1..]);
      var saved := Save(t, b);
      assert saved[1..] == Save(rest, b);
      assert SingleLineEntries(rest.values) by {
        forall k | 0 <= k < |rest.values| ensures rest.values[k] == t.values[k + 1] { }
      }
      assert Concat(saved) == saved[0] + Concat(saved[1..]);
      ReadLinesAppend(saved[0], Concat(saved[1..]));
      ReadBackOfEntry(t.values[0], t.width, b);
      SaveReadBack(rest, b);
    }
  }

  /** The read-back holds one line per entry plus one per raw line ending in a
      newline. */
  lemma {:induction false} ReadBackLength(values: seq<Entry>, width: int, b: Builtins)
    ensures |ReadBack(values, width, b)| == |values| + RawLinesWithNewline(values)
    decreases |values|
  {
    if |values| > 0 {
      ReadBackLength(values[1..], width, b);
    }
  }

  /** Loading keeps the shape of `readlines()`: comments are single lines, and the
      raw entries are the file's own lines. */
  lemma LoadedShape(prior: Option<Tape>, name: string, text: string, b: Builtins)
    requires MatcherSound(b)
    requires Open(prior, name, Some(ReadLines(text)), b).Success?
    ensures var t := Open(prior, name, Some(ReadLines(text)), b).value;
      && SingleLineEntries(t.values)
      && ReadLinesShaped(t.values)
      && forall k :: 0 <= k < |t.values| && t.values[k].Raw? ==> t.values[k].text == ReadLines(text)[k]
  {
    var lines := ReadLines(text);
    var t := Open(prior, name, Some(lines), b).value;
    forall k | 0 <= k < |t.values|
      ensures t.values[k].Numeric? ==> '\n' !in t.values[k].comment
      ensures t.values[k].Raw? ==> t.values[k].text == lines[k]
    {
      assert ClassifyLine(lines[k], b) == Some(t.values[k]);
      if t.values[k].Numeric? {
        var m := b.matchLine(lines[k]);
        assert m.Some?;
        var comment := m.value.1;
        assert forall i :: 0 <= i < |comment| ==> IsCommentChar(comment[i]);
      }
    }
  }

  /** As written, saving an unchanged loaded file adds an empty line after every
      raw line that ends in a newline, so the file read back is longer than the
      file that was loaded. */
  lemma SaveAddsBlankLines(prior: Option<Tape>, name: string, text: string, b: Builtins, k: nat)
    requires MatcherSound(b) && RenderSound(b)
    requires Open(prior, name, Some(ReadLines(text)), b).Success?
    requires k < |ReadLines(text)| && b.matchLine(ReadLines(text)[k]).None?
    requires EndsWithNewline(ReadLines(text)[k])
    ensures var t := Open(prior, name, Some(ReadLines(text)), b).value;
      |ReadLines(Concat(Save(t, b)))| > |ReadLines(text)|
  {
    var lines := ReadLines(text);
    var t := Open(prior, name, Some(lines), b).value;
    LoadedShape(prior, name, text, b);
    OpenKeepsUnmatchedLines(prior, name, lines, b, k);
    SaveReadBack(t, b);
    ReadBackLength(t.values, t.width, b);
    RawLinesWithNewlinePositive(t.values, k);
  }

  lemma {:induction false} RawLinesWithNewlinePositive(values: seq<Entry>, k: nat)
    requires k < |values| && values[k].Raw? && EndsWithNewline(values[k].text)
    ensures RawLinesWithNewline(values) > 0
    decreases k
  {
    if k > 0 {
      RawLinesWithNewlinePositive(values[1..], k - 1);
    }
  }

  /** Loading the one-line file `title\n`, which the pattern does not match. */
  lemma LoadTitle(b: Builtins)
    requires b.matchLine("title\n").None?
    ensures Open(None, "itapeERC", Some(["title\n"]), b).Success?
    ensures Open(None, "itapeERC", Some(["title\n"]), b).value.values == [Raw("title\n")]
  {
    var lines := ["title\n"];
    assert lines[1..] == [];
    assert LoadEntries(lines[1..], b) == Success([]);
    assert ClassifyLine(lines[0], b) == Some(Raw("title\n"));
    assert [Raw("title\n")] + [] == [Raw("title\n")];
    assert LoadEntries(lines, b) == Success([Raw("title\n")]);
  }

  /** A file holding the one line `title\n`, which the pattern does not match,
      is saved as `title\n\n` and so reads back as two lines. */
  lemma SaveAddsBlankLineExample(b: Builtins)
    requires b.matchLine("title\n").None?
    ensures Open(None, "itapeERC", Some(["title\n"]), b).Success?
    ensures var t := Open(None, "itapeERC", Some(["title\n"]), b).value;
      ReadLines(Concat(Save(t, b))) == ["title\n", "\n"]
  {
    var lines := ["title\n"];
    LoadTitle(b);
    var t := Open(None, "itapeERC", Some(lines), b).value;
    var saved := Save(t, b);
    assert |saved| == 1 && saved[0] == "title\n" + "\n";
    assert saved[1..] == [];
    assert Concat(saved) == "title\n" + "\n";
    ReadTitleBlank();
  }

  /** `title\n\n` reads as the line `title\n` followed by an empty line. */
  lemma ReadTitleBlank()
    ensures ReadLines("title\n" + "\n") == ["title\n", "\n"]
  {
    var one: seq<string> := ["\n"];
    assert one[1..] == [] && IsLine(one[0]);
    assert Concat(one) == one[0] + Concat(one[1..]) == "\n";
    ReadLinesConcatInverse(one);
    assert IsLine("title\n") by {
      assert "title\n"[..5] == "title";
    }
    FirstLineSplit("title\n", "\n");
  }

  /** `save` with raw lines written as they are: numeric entries as before, each
      raw entry exactly as loaded. */
  function SaveCorrected(t: Tape, b: Builtins): (r: seq<string>)
    ensures |r| == |t.values|
    ensures forall k :: 0 <= k < |r| && t.values[k].Raw? ==> r[k] == t.values[k].text
    ensures forall k :: 0 <= k < |r| && t.values[k].Numeric? ==> r[k] == Save(t, b)[k]
  {
    seq(|t.values|, k requires 0 <= k < |t.values| =>
      match t.values[k]
      case Raw(text) => text
      case Numeric(_, _, _) => SaveLine(t.values[k], t.width, b))
  }

  /** With raw lines written as they are, a file of `readlines()` shape reads back
      as exactly the written lines: one line per entry, raw lines unchanged. */
  lemma CorrectedSaveReadBack(t: Tape, b: Builtins)
    requires RenderSound(b)
    requires SingleLineEntries(t.values) && ReadLinesShaped(t.values)
    ensures ReadLines(Concat(SaveCorrected(t, b))) == SaveCorrected(t, b)
  {
    var r := SaveCorrected(t, b);
    forall k | 0 <= k < |r| ensures IsLine(r[k]) && (k < |r| - 1 ==> EndsWithNewline(r[k])) {
      var e := t.values[k];
      if e.Numeric? {
        NumericLineIsLine(e.value, e.comment, e.fmt, t.width, b);
      }
    }
    ReadLinesConcatInverse(r);
  }

  /** The intended round trip: a loaded file saved with raw lines kept as they
      are reads back with as many lines as it had, every unmatched line in its
      place and unchanged. */
  lemma LoadSaveCorrected(prior: Option<Tape>, name: string, text: string, b: Builtins)
    requires MatcherSound(b) && RenderSound(b)
    requires Open(prior, name, Some(ReadLines(text)), b).Success?
    ensures
      var lines := ReadLines(text);
      var back := ReadLines(Concat(SaveCorrected(Open(prior, name, Some(lines), b).value, b)));
      && |back| == |lines|
      && forall k :: 0 <= k < |lines| && b.matchLine(lines[k]).None? ==> back[k] == lines[k]
  {
    var lines := ReadLines(text);
    var t := Open(prior, name, Some(lines), b).value;
    LoadedShape(prior, name, text, b);
    CorrectedSaveReadBack(t, b);
    forall k | 0 <= k < |lines| && b.matchLine(lines[k]).None?
      ensures SaveCorrected(t, b)[k] == lines[k]
    {
      OpenKeepsUnmatchedLines(prior, name, lines, b, k);
    }
  }

  /** The same file saved with raw lines written as they are reads back as the
      one line it holds. */
  lemma SaveCorrectedExample(b: Builtins)
    requires b.matchLine("title\n").None?
    ensures Open(None, "itapeERC", Some(["title\n"]), b).Success?
    ensures var t := Open(None, "itapeERC", Some(["title\n"]), b).value;
      ReadLines(Concat(SaveCorrected(t, b))) == ["title\n"]
  {
    var lines := ["title\n"];
    LoadTitle(b);
    var t := Open(None, "itapeERC", Some(lines), b).value;
    var saved := SaveCorrected(t, b);
    assert |saved| == 1 && saved[0] == "title\n";
    assert saved == lines;
    assert WellSplit(lines) by {
      assert "title\n"[..5] == "title";
    }
    ReadLinesConcatInverse(lines);
  }
}
