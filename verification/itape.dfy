/** `ITapeFile`, the keyed numeric settings-file codec of the simulator input
    files (`itapeERC`, `itapeRs`).

    Loading turns each line of the file into one entry: a line the line pattern
    matches becomes a number with its comment key and a format descriptor derived
    from how the number was written; any other line is kept verbatim. Entries are
    looked up by comment key, updated in place with their kind kept, and saved
    back with each `!` at the column of the `!` on the file's first line (no
    padding when that line has none), or right after a wider number. */
module ITape {
  import opened Wrappers
  import opened Text
  import opened Runtime
  import DecimalPlaces

  /** One line of a settings file as the loader stores it: a number with its
      comment key and format descriptor, or the raw line, newline included. */
  datatype Entry = Numeric(value: Num, comment: string, fmt: Fmt) | Raw(text: string)

  /** A loaded settings file: its path, the column of the first `!` on its first
      line (-1 when that line has none), and one entry per line. */
  datatype Tape = Tape(name: string, width: int, values: seq<Entry>)

  /** Why opening a file gives no usable tape: the file is missing when the tape
      is first created, the file is empty (`lines[0]` raises `IndexError`), or a
      matched token does not parse (`int()`/`float()` raise `ValueError`; the
      index of the first such line is kept). */
  datatype OpenError = Missing | EmptyFile | BadNumber(line: nat)

  /** The value read from an entry: `values[id][0]` is the number of a numeric
      entry and the line itself of a raw one. */
  datatype Field = Number(num: Num) | Line(text: string)

  /** The kind of the number agrees with its format descriptor: an `int` is
      rendered with the integer format `d`, a `float` with a fixed-point or
      exponential format. */
  predicate Consistent(e: Entry) {
    e.Numeric? ==> (e.value.IntNum? <==> e.fmt.IntFmt?)
  }

  predicate AllConsistent(values: seq<Entry>) {
    forall k :: 0 <= k < |values| ==> Consistent(values[k])
  }

  /** The format descriptor derived from a matched token: `d` for a token
      without a point; otherwise fixed-point, or exponential when the token has
      an `e`, with the places the decimal-places pattern counts. */
  function FormatOf(token: string): (r: Fmt)
    ensures r.IntFmt? <==> '.' !in token
    ensures '.' in token ==> r.places == DecimalPlaces.Places(token) && (r.ExpFmt? <==> 'e' in token)
  {
    if '.' in token then
      var places := DecimalPlaces.Places(token);
      if 'e' in token then ExpFmt(places) else FixedFmt(places)
    else IntFmt
  }

  /** One line turned into an entry; `None` where `int()` or `float()` raises. */
  function ClassifyLine(line: string, b: Builtins): (r: Option<Entry>)
    ensures b.matchLine(line).None? ==> r == Some(Raw(line))
    ensures r.Some? ==> Consistent(r.value)
    ensures b.matchLine(line).Some? ==>
      var (token, comment) := b.matchLine(line).value;
      && (r.Some? ==> r.value.Numeric? && r.value.comment == comment)
      && ('.' !in token ==>
            && (r.Some? <==> b.parseInt(token).Some?)
            && (r.Some? ==> r.value.value == IntNum(b.parseInt(token).value)))
      && ('.' in token ==>
            && (r.Some? <==> b.parseFloat(token).Some?)
            && (r.Some? ==> r.value.value == FloatNum(b.parseFloat(token).value))
            && (r.Some? ==> r.value.fmt.places == DecimalPlaces.Places(token))
            && (r.Some? ==> (r.value.fmt.ExpFmt? <==> 'e' in token)))
  {
    match b.matchLine(line)
    case None => Some(Raw(line))
    case Some((token, comment)) =>
      if '.' in token then
        match b.parseFloat(token)
        case None => None
        case Some(x) => Some(Numeric(FloatNum(x), comment, FormatOf(token)))
      else
        match b.parseInt(token)
        case None => None
        case Some(i) => Some(Numeric(IntNum(i), comment, IntFmt))
  }

  /** All lines turned into entries, one per line and in order, or the index of
      the first line whose token does not parse. */
  function LoadEntries(lines: seq<string>, b: Builtins): (r: Result<seq<Entry>, nat>)
    ensures r.Success? <==> forall k :: 0 <= k < |lines| ==> ClassifyLine(lines[k], b).Some?
    ensures r.Success? ==> |r.value| == |lines|
    ensures r.Success? ==> forall k :: 0 <= k < |lines| ==> ClassifyLine(lines[k], b) == Some(r.value[k])
    ensures r.Failure? ==> r.error < |lines| && ClassifyLine(lines[r.error], b).None?
    ensures r.Failure? ==> forall k :: 0 <= k < r.error ==> ClassifyLine(lines[k], b).Some?
  {
    if |lines| == 0 then Success([])
    else
      match ClassifyLine(lines[0], b)
      case None => Failure(0)
      case Some(e) =>
        match LoadEntries(lines[1..], b)
        case Failure(k) =>
          assert forall j :: 1 <= j < k + 1 ==> lines[j] == lines[1..][j - 1];
          Failure(k + 1)
        case Success(es) =>
          assert forall j :: 1 <= j < |lines| ==> lines[j] == lines[1..][j - 1];
          Success([e] + es)
  }

  /** `_open(name)`: (re)load a settings file. `file` is the result of
      `readlines()`, `None` when the file does not exist; `prior` is the tape
      being reloaded, `None` when the constructor opens the file. A missing file
      on reload leaves the width and the entries as they were. The alignment of
      `!` on later lines plays no part in whether loading succeeds. */
  function Open(prior: Option<Tape>, name: string, file: Option<seq<string>>, b: Builtins)
    : (r: Result<Tape, OpenError>)
    ensures file.None? && prior.None? ==> r == Failure(Missing)
    ensures file.None? && prior.Some? ==>
      r.Success? && r.value.name == name && r.value.width == prior.value.width
      && r.value.values == prior.value.values
    ensures file == Some([]) ==> r == Failure(EmptyFile)
    ensures file.Some? && |file.value| > 0 ==>
      (r.Success? <==> forall k :: 0 <= k < |file.value| ==> ClassifyLine(file.value[k], b).Some?)
    ensures file.Some? && r.Success? ==>
      var lines := file.value;
      && r.value.name == name
      && r.value.width == Find(lines[0], '!')
      && |r.value.values| == |lines|
      && (forall k :: 0 <= k < |lines| ==> ClassifyLine(lines[k], b) == Some(r.value.values[k]))
    ensures file.Some? && r.Failure? && |file.value| > 0 ==>
      r.error.BadNumber? && r.error.line < |file.value|
      && ClassifyLine(file.value[r.error.line], b).None?
  {
    match file
    case None =>
      if prior.None? then Failure(Missing) else Success(prior.value.(name := name))
    case Some(lines) =>
      if |lines| == 0 then Failure(EmptyFile)
      else
        match LoadEntries(lines, b)
        case Failure(k) => Failure(BadNumber(k))
        case Success(es) => Success(Tape(name, Find(lines[0], '!'), es))
  }

  /** Loading keeps the entry invariant: every entry of a loaded tape whose prior
      state (if any) satisfied it agrees with its format descriptor. */
  lemma OpenConsistent(prior: Option<Tape>, name: string, file: Option<seq<string>>, b: Builtins)
    requires prior.Some? ==> AllConsistent(prior.value.values)
    requires Open(prior, name, file, b).Success?
    ensures AllConsistent(Open(prior, name, file, b).value.values)
  {
    var t := Open(prior, name, file, b).value;
    if file.Some? {
      forall k | 0 <= k < |t.values| ensures Consistent(t.values[k]) {
        assert ClassifyLine(file.value[k], b) == Some(t.values[k]);
      }
    }
  }

  /** A line the pattern does not match is kept verbatim, at its own index. */
  lemma OpenKeepsUnmatchedLines(prior: Option<Tape>, name: string, lines: seq<string>, b: Builtins, k: nat)
    requires Open(prior, name, Some(lines), b).Success?
    requires k < |lines| && b.matchLine(lines[k]).None?
    ensures Open(prior, name, Some(lines), b).value.values[k] == Raw(lines[k])
  {
    var t := Open(prior, name, Some(lines), b).value;
    assert ClassifyLine(lines[k], b) == Some(t.values[k]);
  }

  /** Line number `n` (counted from `first`) has a `!`, and not at column
      `width`. */
  predicate Misaligned(lines: seq<string>, width: int, first: nat, n: int) {
    first <= n < first + |lines| && 0 <= Find(lines[n - first], '!') != width
  }

  /** The 1-based numbers of the lines whose first `!` is not at column `width`
      (the loader warns about each, in order, and carries on). */
  function AlignmentWarnings(lines: seq<string>, width: int, first: nat): (r: seq<nat>)
    ensures forall n :: n in r <==> Misaligned(lines, width, first, n)
    ensures forall i, j :: 0 <= i < j < |r| ==> r[i] < r[j]
    decreases |lines|
  {
    if |lines| == 0 then []
    else
      var rest := AlignmentWarnings(lines[1..], width, first + 1);
      var warn := Misaligned(lines, width, first, first);
      WarningsStep(lines, width, first, rest, warn);
      if warn then [first] + rest else rest
  }

  /** One step of `AlignmentWarnings`: the first line's warning, if any, in front
      of the later lines' warnings. */
  lemma WarningsStep(lines: seq<string>, width: int, first: nat, rest: seq<nat>, warn: bool)
    requires |lines| > 0
    requires warn <==> Misaligned(lines, width, first, first)
    requires forall n :: n in rest <==> Misaligned(lines[1..], width, first + 1, n)
    requires forall i, j :: 0 <= i < j < |rest| ==> rest[i] < rest[j]
    ensures var r := if warn then [first] + rest else rest;
      && (forall n :: n in r <==> Misaligned(lines, width, first, n))
      && (forall i, j :: 0 <= i < j < |r| ==> r[i] < r[j])
  {
    var r := if warn then [first] + rest else rest;
    forall n ensures n in r <==> Misaligned(lines, width, first, n) {
      if first < n < first + |lines| {
        assert lines[1..][n - (first + 1)] == lines[n - first];
        assert Misaligned(lines[1..], width, first + 1, n) == Misaligned(lines, width, first, n);
      }
    }
    if warn {
      SortedCons(first, rest);
    }
  }

  /** A number below every element of an ascending sequence can go in front. */
  lemma SortedCons(x: nat, s: seq<nat>)
    requires forall n :: n in s ==> x < n
    requires forall i, j :: 0 <= i < j < |s| ==> s[i] < s[j]
    ensures forall i, j :: 0 <= i < j < |[x] + s| ==> ([x] + s)[i] < ([x] + s)[j]
  {
    var r := [x] + s;
    forall i, j | 0 <= i < j < |r| ensures r[i] < r[j] {
      assert r[j] == s[j - 1] && s[j - 1] in s;
      if i > 0 {
        assert r[i] == s[i - 1];
      }
    }
  }

  /** The first line is never reported as misaligned: its `!` defines the column. */
  lemma FirstLineAligned(lines: seq<string>)
    requires |lines| > 0
    ensures 1 !in AlignmentWarnings(lines, Find(lines[0], '!'), 1)
  {
  }

  /** The entry names `name`: a numeric entry with that comment. */
  predicate Names(e: Entry, name: string) {
    e.Numeric? && e.comment == name
  }

  /** `getId(name)`: the index of the first numeric entry whose comment is
      `name`, or -1. Raw entries take up an index but never match. */
  function GetId(values: seq<Entry>, name: string): (r: int)
    ensures -1 <= r < |values|
    ensures r == -1 <==> forall k :: 0 <= k < |values| ==> !Names(values[k], name)
    ensures 0 <= r ==> Names(values[r], name)
    ensures 0 <= r ==> forall k :: 0 <= k < r ==> !Names(values[k], name)
  {
    if |values| == 0 then -1
    else if Names(values[0], name) then 0
    else
      var k := GetId(values[1..], name);
      assert forall j :: 1 <= j < |values| ==> values[j] == values[1..][j - 1];
      if k < 0 then -1 else k + 1
  }

  /** The entry a Python index `id` denotes: negative indices count from the end. */
  function Slot(n: nat, id: int): (i: nat)
    requires -(n as int) <= id < n
    ensures i < n
    ensures id >= 0 ==> i == id
    ensures id < 0 ==> i + (-id) == n
  {
    if id < 0 then n + id else id
  }

  /** `getValue(id)`: the number of a numeric entry, the line of a raw one. */
  function GetValue(t: Tape, id: int): (r: Field)
    requires -|t.values| <= id < |t.values|
    ensures r.Number? <==> t.values[Slot(|t.values|, id)].Numeric?
    ensures r.Number? ==> r.num == t.values[Slot(|t.values|, id)].value
    ensures r.Line? ==> r.text == t.values[Slot(|t.values|, id)].text
  {
    match t.values[Slot(|t.values|, id)]
    case Numeric(v, _, _) => Number(v)
    case Raw(text) => Line(text)
  }

  /** `setValue(id, x)`: store `x` in a numeric entry, converted to the kind the
      entry already has; a raw entry is left as it is (the source only warns).
      Nothing else changes. */
  function SetValue(t: Tape, id: int, x: Num): (r: Tape)
    requires -|t.values| <= id < |t.values|
    ensures r.name == t.name && r.width == t.width
    ensures |r.values| == |t.values|
    ensures forall k :: 0 <= k < |t.values| && k != Slot(|t.values|, id) ==> r.values[k] == t.values[k]
    ensures t.values[Slot(|t.values|, id)].Raw? ==> r == t
    ensures
      var e := t.values[Slot(|t.values|, id)];
      var e' := r.values[Slot(|t.values|, id)];
      e.Numeric? ==>
        && e'.Numeric? && e'.comment == e.comment && e'.fmt == e.fmt
        && (e.value.IntNum? ==> e'.value == IntNum(ToInt(x)))
        && (e.value.FloatNum? ==> e'.value == FloatNum(ToFloat(x)))
  {
    var i := Slot(|t.values|, id);
    match t.values[i]
    case Raw(_) => t
    case Numeric(v, comment, fmt) =>
      var v' := if v.IntNum? then IntNum(ToInt(x)) else FloatNum(ToFloat(x));
      t.(values := t.values[i := Numeric(v', comment, fmt)])
  }

  /** Type preservation: after `setValue` on an int entry `getValue` yields an
      int, and after `setValue` on a float entry it yields a float. */
  lemma GetAfterSet(t: Tape, id: int, x: Num)
    requires -|t.values| <= id < |t.values|
    ensures
      var before := GetValue(t, id);
      var after := GetValue(SetValue(t, id, x), id);
      && (before.Number? && before.num.IntNum? ==> after == Number(IntNum(ToInt(x))))
      && (before.Number? && before.num.FloatNum? ==> after == Number(FloatNum(ToFloat(x))))
      && (before.Line? ==> after == before)
  {
  }

  /** `setValue` keeps the entry invariant of every entry. */
  lemma SetValueConsistent(t: Tape, id: int, x: Num)
    requires -|t.values| <= id < |t.values|
    requires AllConsistent(t.values)
    ensures AllConsistent(SetValue(t, id, x).values)
  {
  }

  /** Writing the same value twice is the same as writing it once. */
  lemma SetValueIdempotent(t: Tape, id: int, x: Num)
    requires -|t.values| <= id < |t.values|
    ensures SetValue(SetValue(t, id, x), id, x) == SetValue(t, id, x)
  {
    var i := Slot(|t.values|, id);
    var once := SetValue(t, id, x);
    var twice := SetValue(once, id, x);
    assert twice.values == once.values;
  }

  /** Updating a value never changes which entry a key looks up. */
  lemma GetIdAfterSet(t: Tape, id: int, x: Num, name: string)
    requires -|t.values| <= id < |t.values|
    ensures GetId(SetValue(t, id, x).values, name) == GetId(t.values, name)
  {
    var r := SetValue(t, id, x);
    assert forall k :: 0 <= k < |t.values| ==> (Names(r.values[k], name) <==> Names(t.values[k], name));
  }

  /** The text `save` writes for a numeric entry, without its newline: the
      rendered number with every `+` deleted, padded to the width, then `!` and
      the comment. */
  function NumericLine(v: Num, comment: string, fmt: Fmt, width: int, b: Builtins): string {
    LJust(RemoveAll(b.render(fmt, v), '+'), width) + "!" + comment
  }

  /** The text `save` writes for one entry. */
  function SaveLine(e: Entry, width: int, b: Builtins): string {
    match e
    case Numeric(v, comment, fmt) => NumericLine(v, comment, fmt, width, b) + "\n"
    case Raw(text) => text + "\n"
  }

  /** `save(name)`: the texts written to the file, one per entry and in order. A
      numeric entry is written as its rendered number without any `+`, padded
      with blanks to the width but never cut, then `!`, the comment and a newline.
      A raw entry is written as its stored line followed by a newline. */
  function Save(t: Tape, b: Builtins): (r: seq<string>)
    ensures |r| == |t.values|
    ensures forall k :: 0 <= k < |r| ==> EndsWithNewline(r[k])
    ensures forall k :: 0 <= k < |r| && t.values[k].Raw? ==> r[k] == t.values[k].text + "\n"
    ensures forall k :: 0 <= k < |r| && t.values[k].Numeric? ==> NumericLineShape(t.values[k], t.width, b, r[k])
  {
    var r := seq(|t.values|, k requires 0 <= k < |t.values| => SaveLine(t.values[k], t.width, b));
    assert forall k :: 0 <= k < |r| && t.values[k].Numeric? ==> NumericLineShape(t.values[k], t.width, b, r[k]) by {
      forall k | 0 <= k < |r| && t.values[k].Numeric?
        ensures NumericLineShape(t.values[k], t.width, b, r[k])
      {
        SaveLineShape(t.values[k], t.width, b);
      }
    }
    r
  }

  /** The layout of the line `save` writes for a numeric entry: the `+`-free
      rendered number, blanks up to the width, `!` at the column, then the
      comment and a newline. */
  predicate NumericLineShape(e: Entry, width: int, b: Builtins, line: string)
    requires e.Numeric?
  {
    var num := RemoveAll(b.render(e.fmt, e.value), '+');
    var col := if width > |num| then width else |num|;
    && '+' !in num
    && |line| == col + 1 + |e.comment| + 1
    && line[..|num|] == num
    && (forall i :: |num| <= i < col ==> line[i] == ' ')
    && line[col] == '!'
    && line[col + 1..] == e.comment + "\n"
  }

  lemma SaveLineShape(e: Entry, width: int, b: Builtins)
    requires e.Numeric?
    ensures NumericLineShape(e, width, b, SaveLine(e, width, b))
  {
    var num := RemoveAll(b.render(e.fmt, e.value), '+');
    var padded := LJust(num, width);
    assert SaveLine(e, width, b) == padded + "!" + e.comment + "\n";
    assert SaveLine(e, width, b)[..|num|] == padded[..|num|];
  }

  /** A saved numeric line has its `!` at the width, or right after the number
      when the rendered number is wider than that: comments line up at the
      column of the `!` on the loaded file's first line, and when that line
      has no `!` (width -1) no line is padded at all. */
  lemma SavedCommentColumn(t: Tape, b: Builtins, k: nat)
    requires RenderSound(b)
    requires k < |t.values| && t.values[k].Numeric?
    ensures
      var e := t.values[k];
      var num := RemoveAll(b.render(e.fmt, e.value), '+');
      Find(Save(t, b)[k], '!') == if t.width > |num| then t.width else |num|
  {
    var e := t.values[k];
    var rendered := b.render(e.fmt, e.value);
    var num := RemoveAll(rendered, '+');
    var col := if t.width > |num| then t.width else |num|;
    var line := Save(t, b)[k];
    assert '!' !in rendered;
    assert multiset(num)['!'] == multiset(rendered)['!'] == 0;
    assert forall i :: 0 <= i < |num| ==> line[i] == num[i];
    assert '!' !in line[..col] by {
      forall i | 0 <= i < col ensures line[i] != '!' {
        if i < |num| {
          assert num[i] in multiset(num);
        }
      }
    }
  }
}
