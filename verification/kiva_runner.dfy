/** The decision rules of `KivaRunner`, which runs the simulator once per
    comparison point and scores the results: the working-directory ownership
    check, parameter range checks, loading and replacing the parameter vector,
    reading the reference rows, patching the temperature line of each run's
    `itape5`, pairing each run's ignition delay with its reference time, and the
    fitness of a batch. */
module KivaRunner {
  import opened Wrappers
  import opened Text
  import opened Runtime
  import opened ITape

  /** The input files parameters can be read from and written to. */
  const SettingsFiles: seq<string> := ["itapeERC", "itapeRs"]

  /** The file that marks a directory as a working directory of the runner. */
  const Marker: string := "kivagen.working.dir"

  /** The 1-based number of the line of `itape5` holding the start temperature. */
  const TemperatureLine: nat := 230

  const TemperaturePrefix: string := "'tempi',     "

  /** A working directory as the constructor finds it: absent, or its regular
      files and sub-directories. */
  datatype Dir = NoDir | Dir(files: set<string>, subdirs: set<string>)

  /** The outcome of the constructor's working-directory check: the error flag,
      the working directory kept (`None` once rejected), the directory afterwards,
      and whether construction carries on (a foreign non-empty directory makes the
      constructor return at once). */
  datatype DirCheck = DirCheck(error: bool, workingDir: Option<string>, dir: Dir, proceeds: bool)

  predicate IsEmpty(d: Dir)
    requires d.Dir?
  {
    d.files == {} && d.subdirs == {}
  }

  /** A directory the runner may use: it exists and is empty or holds the marker. */
  predicate Owned(d: Dir) {
    d.Dir? && (IsEmpty(d) || Marker in d.files)
  }

  /** The working-directory check at construction. A missing directory sets the
      error flag and drops the directory; a non-empty directory without the
      marker does the same and ends construction; an empty directory gets the
      marker; a non-empty directory with the marker is taken as it is. */
  function CheckWorkingDir(path: string, d: Dir): (r: DirCheck)
    ensures r.error <==> r.workingDir.None?
    ensures r.workingDir.Some? ==> r.workingDir.value == path
    ensures !r.proceeds <==> d.Dir? && !IsEmpty(d) && Marker !in d.files
    ensures d.NoDir? ==> r.error && r.dir == d
    ensures d.Dir? && IsEmpty(d) ==> !r.error && r.dir == Dir({Marker}, {})
    ensures d.Dir? && !IsEmpty(d) ==> r.dir == d && (r.error <==> Marker !in d.files)
  {
    match d
    case NoDir => DirCheck(true, None, d, true)
    case Dir(files, subdirs) =>
      if files != {} || subdirs != {} then
        if Marker !in files then DirCheck(true, None, d, false)
        else DirCheck(false, Some(path), d, true)
      else DirCheck(false, Some(path), Dir({Marker}, {}), true)
  }

  /** A directory is accepted exactly when it is owned, and an accepted
      directory holds the marker afterwards. */
  lemma AcceptedIffOwned(path: string, d: Dir)
    ensures CheckWorkingDir(path, d).workingDir.Some? <==> Owned(d)
    ensures CheckWorkingDir(path, d).workingDir.Some? ==>
      var after := CheckWorkingDir(path, d).dir;
      after.Dir? && Marker in after.files && !IsEmpty(after)
  {
  }

  /** Checking a directory again after it was accepted accepts it unchanged. */
  lemma CheckWorkingDirStable(path: string, d: Dir)
    requires CheckWorkingDir(path, d).workingDir.Some?
    ensures CheckWorkingDir(path, CheckWorkingDir(path, d).dir) == CheckWorkingDir(path, d)
  {
  }

  /** One row of `parameter_format`: the file, the comment key, and the inclusive
      bounds (the row's step is not used by the runner). */
  datatype ParamSpec = ParamSpec(file: string, name: string, min: real, max: real)

  predicate InRange(n: Num, p: ParamSpec) {
    p.min <= AsReal(n) <= p.max
  }

  /** `_checkParameter(value, p)`: the value itself when it lies within the bounds,
      both ends included, and `None` otherwise. This is Python 2, where `None` is
      ordered below every number, so a `None` value fails the lower bound. */
  function CheckParameter(v: Option<Num>, p: ParamSpec): (r: Option<Num>)
    ensures r.Some? <==> v.Some? && InRange(v.value, p)
    ensures r.Some? ==> r == v
  {
    match v
    case None => None
    case Some(n) =>
      if AsReal(n) < p.min then None
      else if AsReal(n) > p.max then None
      else v
  }

  /** A parameter vector `setParameters` accepts: one value per row, each in range. */
  predicate ValidVector(params: seq<Option<Num>>, format: seq<ParamSpec>) {
    |params| == |format| && forall i :: 0 <= i < |params| ==> CheckParameter(params[i], format[i]).Some?
  }

  /** The value of the first numeric entry named `name`, if there is one. */
  function FirstValue(values: seq<Entry>, name: string): (r: Option<Num>)
    ensures r.Some? <==> exists k :: 0 <= k < |values| && Names(values[k], name)
  {
    var id := GetId(values, name);
    if id < 0 then None else Some(values[id].value)
  }

  /** `loadParameters()`, the slot list: one slot per row of `parameter_format`,
      in order, holding the value of the first entry with the row's key in the
      row's file, or `None` when the key is missing or the value is out of range.
      `tapes` holds the settings files once opened and reloaded. A row naming a
      file other than `itapeERC` or `itapeRs` makes the source raise, so every
      row must name one of them. */
  function LoadParameters(tapes: map<string, Tape>, format: seq<ParamSpec>): (r: seq<Option<Num>>)
    requires forall i :: 0 <= i < |format| ==> format[i].file in SettingsFiles && format[i].file in tapes
    ensures |r| == |format|
    ensures forall i :: 0 <= i < |r| ==>
      var first := FirstValue(tapes[format[i].file].values, format[i].name);
      && (r[i].Some? <==> first.Some? && InRange(first.value, format[i]))
      && (r[i].Some? ==> r[i] == first)
  {
    seq(|format|, i requires 0 <= i < |format| =>
      var values := tapes[format[i].file].values;
      var id := GetId(values, format[i].name);
      if id < 0 then None else CheckParameter(Some(values[id].value), format[i]))
  }

  /** A loaded vector with no empty slot is one `setParameters` accepts. */
  lemma LoadedVectorValid(tapes: map<string, Tape>, format: seq<ParamSpec>)
    requires forall i :: 0 <= i < |format| ==> format[i].file in SettingsFiles && format[i].file in tapes
    requires forall i :: 0 <= i < |format| ==> LoadParameters(tapes, format)[i].Some?
    ensures ValidVector(LoadParameters(tapes, format), format)
  {
    var r := LoadParameters(tapes, format);
    forall i | 0 <= i < |r| ensures CheckParameter(r[i], format[i]).Some? {
      assert r[i].Some? && InRange(r[i].value, format[i]);
    }
  }

  /** How `setParameters` ended: the vector was stored; the element at `index`
      failed its range check; or the lengths differed, where the source raises
      `NameError` (it calls `sel.log`) before anything is stored. */
  datatype SetOutcome = Replaced | OutOfRange(index: nat) | LengthMismatch

  datatype SetResult = SetResult(paramList: seq<Option<Num>>, outcome: SetOutcome)

  /** `setParameters(params)`: the stored vector is replaced only when the lengths
      agree and every element passes its range check; otherwise it is left as it
      was. */
  method SetParameters(current: seq<Option<Num>>, params: seq<Option<Num>>, format: seq<ParamSpec>)
    returns (r: SetResult)
    ensures r.outcome.LengthMismatch? <==> |params| != |format|
    ensures r.outcome.Replaced? <==> ValidVector(params, format)
    ensures r.outcome.Replaced? ==> r.paramList == params
    ensures !r.outcome.Replaced? ==> r.paramList == current
    ensures r.outcome.OutOfRange? ==>
      && r.outcome.index < |params| == |format|
      && CheckParameter(params[r.outcome.index], format[r.outcome.index]).None?
      && forall j :: 0 <= j < r.outcome.index ==> CheckParameter(params[j], format[j]).Some?
  {
    if |params| != |format| {
      return SetResult(current, LengthMismatch);
    }
    var ii := 0;
    while ii < |params|
      invariant 0 <= ii <= |params|
      invariant forall j :: 0 <= j < ii ==> CheckParameter(params[j], format[j]).Some?
    {
      if CheckParameter(params[ii], format[ii]).None? {
        return SetResult(current, OutOfRange(ii));
      }
      ii := ii + 1;
    }
    return SetResult(params, Replaced);
  }

  /** One comparison point: the temperature derived from the first column and the
      reference ignition delay of the second. */
  datatype ComparePoint = ComparePoint(temperature: real, time: real)

  /** A row the source reads without raising anything but `ValueError`: it has a
      first field, and when that field parses it is not zero (the source divides
      by it) and a second field follows. */
  predicate RowSafe(row: seq<string>, b: Builtins) {
    |row| >= 1
    && (b.parseFloat(row[0]).Some? ==> b.parseFloat(row[0]).value != 0.0 && |row| >= 2)
  }

  /** A row both of whose fields parse as floats. */
  predicate RowParses(row: seq<string>, b: Builtins) {
    |row| >= 2 && b.parseFloat(row[0]).Some? && b.parseFloat(row[1]).Some?
  }

  /** The comparison point of a parsing row: `[round(1000.0 / r0, 0), r1]`. */
  function RowPoint(row: seq<string>, b: Builtins): ComparePoint
    requires RowSafe(row, b) && RowParses(row, b)
  {
    ComparePoint(b.round(1000.0 / b.parseFloat(row[0]).value), b.parseFloat(row[1]).value)
  }

  /** `p` is the comparison point of some parsing row of `rows`. */
  predicate DrawnFrom(p: ComparePoint, rows: seq<seq<string>>, b: Builtins) {
    exists i :: 0 <= i < |rows| && RowSafe(rows[i], b) && RowParses(rows[i], b) && p == RowPoint(rows[i], b)
  }

  predicate AllRowsSafe(rows: seq<seq<string>>, b: Builtins) {
    forall i :: 0 <= i < |rows| ==> RowSafe(rows[i], b)
  }

  /** The points one row contributes. */
  function RowPoints(row: seq<string>, b: Builtins): seq<ComparePoint>
    requires RowSafe(row, b)
  {
    if RowParses(row, b) then [RowPoint(row, b)] else []
  }

  /** `_readCompareFile`: the comparison points of the rows that parse, in file
      order; rows that raise `ValueError` are dropped. */
  function ReadCompareFile(rows: seq<seq<string>>, b: Builtins): (r: seq<ComparePoint>)
    requires AllRowsSafe(rows, b)
    ensures |r| <= |rows|
    ensures |r| == |rows| <==> forall i :: 0 <= i < |rows| ==> RowParses(rows[i], b)
    ensures (forall i :: 0 <= i < |rows| ==> RowParses(rows[i], b)) ==>
      forall i :: 0 <= i < |rows| ==> r[i] == RowPoint(rows[i], b)
    ensures forall k :: 0 <= k < |r| ==> DrawnFrom(r[k], rows, b)
  {
    if |rows| == 0 then []
    else
      var rest := ReadCompareFile(rows[1..], b);
      CompareStep(rows, rest, b);
      RowPoints(rows[0], b) + rest
  }

  /** One step of `ReadCompareFile`: the first row's point, if it parses, in
      front of the points of the later rows. */
  lemma CompareStep(rows: seq<seq<string>>, rest: seq<ComparePoint>, b: Builtins)
    requires |rows| > 0 && AllRowsSafe(rows, b)
    requires |rest| <= |rows[1..]|
    requires |rest| == |rows[1..]| <==> forall i :: 0 <= i < |rows[1..]| ==> RowParses(rows[1..][i], b)
    requires (forall i :: 0 <= i < |rows[1..]| ==> RowParses(rows[1..][i], b)) ==>
      forall i :: 0 <= i < |rows[1..]| ==> rest[i] == RowPoint(rows[1..][i], b)
    requires forall k :: 0 <= k < |rest| ==> DrawnFrom(rest[k], rows[1..], b)
    ensures var r := RowPoints(rows[0], b) + rest;
      && |r| <= |rows|
      && (|r| == |rows| <==> forall i :: 0 <= i < |rows| ==> RowParses(rows[i], b))
      && ((forall i :: 0 <= i < |rows| ==> RowParses(rows[i], b)) ==>
            forall i :: 0 <= i < |rows| ==> r[i] == RowPoint(rows[i], b))
      && (forall k :: 0 <= k < |r| ==> DrawnFrom(r[k], rows, b))
  {
    assert forall i :: 1 <= i < |rows| ==> rows[i] == rows[1..][i - 1];
    ShiftPoints(rows, rest, b);
    var r := RowPoints(rows[0], b) + rest;
    if RowParses(rows[0], b) {
      assert forall k :: 1 <= k < |r| ==> r[k] == rest[k - 1];
      assert DrawnFrom(r[0], rows, b);
    } else {
      assert r == rest;
    }
  }

  /** Every point drawn from `rows[1..]` is drawn from `rows`. */
  lemma ShiftPoints(rows: seq<seq<string>>, points: seq<ComparePoint>, b: Builtins)
    requires |rows| > 0
    requires forall k :: 0 <= k < |points| ==> DrawnFrom(points[k], rows[1..], b)
    ensures forall k :: 0 <= k < |points| ==> DrawnFrom(points[k], rows, b)
  {
    forall k | 0 <= k < |points| ensures DrawnFrom(points[k], rows, b) {
      var i :| 0 <= i < |rows[1..]| && RowSafe(rows[1..][i], b) && RowParses(rows[1..][i], b)
               && points[k] == RowPoint(rows[1..][i], b);
      assert rows[i + 1] == rows[1..][i];
    }
  }

  /** Reading one row and then the rest. */
  lemma ReadCompareFileCons(rows: seq<seq<string>>, b: Builtins)
    requires |rows| > 0 && AllRowsSafe(rows, b)
    ensures AllRowsSafe(rows[1..], b)
    ensures ReadCompareFile(rows, b) == RowPoints(rows[0], b) + ReadCompareFile(rows[1..], b)
  {
    assert forall i :: 0 <= i < |rows| - 1 ==> rows[1..][i] == rows[i + 1];
  }

  lemma AllRowsSafeAppend(a: seq<seq<string>>, c: seq<seq<string>>, b: Builtins)
    requires AllRowsSafe(a, b) && AllRowsSafe(c, b)
    ensures AllRowsSafe(a + c, b)
  {
    forall i | 0 <= i < |a + c| ensures RowSafe((a + c)[i], b) {
      if i < |a| { assert (a + c)[i] == a[i]; } else { assert (a + c)[i] == c[i - |a|]; }
    }
  }

  /** Concatenation is associative; stated apart so that the proof of
      `ReadCompareFileAppend` need not derive it among the points' quantifiers. */
  lemma AppendAssociative<T>(x: seq<T>, y: seq<T>, z: seq<T>)
    ensures x + (y + z) == (x + y) + z
  {
  }

  /** Reading is row by row: the points of two blocks of rows are the points of
      the first block followed by those of the second. */
  lemma {:induction false} ReadCompareFileAppend(a: seq<seq<string>>, c: seq<seq<string>>, b: Builtins)
    requires AllRowsSafe(a, b) && AllRowsSafe(c, b)
    ensures AllRowsSafe(a + c, b)
    ensures ReadCompareFile(a + c, b) == ReadCompareFile(a, b) + ReadCompareFile(c, b)
    decreases |a|
  {
    AllRowsSafeAppend(a, c, b);
    if |a| == 0 {
      assert a + c == c;
    } else {
      var ac := a + c;
      assert ac[0] == a[0];
      assert ac[1..] == a[1..] + c;
      ReadCompareFileCons(ac, b);
      ReadCompareFileCons(a, b);
      ReadCompareFileAppend(a[1..], c, b);
      var head := RowPoints(a[0], b);
      var left := ReadCompareFile(a[1..], b);
      var right := ReadCompareFile(c, b);
      AppendAssociative(head, left, right);
    }
  }

  /** A row whose second field does not parse, such as `2,abc`, is dropped with no
      error: the comparison set is one point shorter than the rows. */
  lemma DropsUnparsableRow(rows: seq<seq<string>>, row: seq<string>, b: Builtins)
    requires AllRowsSafe(rows, b) && RowSafe(row, b)
    requires b.parseFloat(row[0]).Some? && b.parseFloat(row[1]).None?
    ensures AllRowsSafe(rows + [row], b)
    ensures ReadCompareFile(rows + [row], b) == ReadCompareFile(rows, b)
  {
    ReadCompareFileAppend(rows, [row], b);
    assert [row][1..] == [];
  }

  /** The temperature patch of one run's `itape5`: line 230 becomes `'tempi',`,
      five blanks, the temperature to one decimal place and a newline. The file
      must have at least 230 lines (the source raises `IndexError` otherwise). */
  function PatchTemperature(data: seq<string>, temperature: real, b: Builtins): (r: seq<string>)
    requires |data| >= TemperatureLine
    ensures |r| == |data|
    ensures r[TemperatureLine - 1] == TemperaturePrefix + b.renderTemperature(temperature) + "\n"
    ensures forall k :: 0 <= k < |data| && k != TemperatureLine - 1 ==> r[k] == data[k]
  {
    data[TemperatureLine - 1 := TemperaturePrefix + b.renderTemperature(temperature) + "\n"]
  }

  /** A later patch overrides an earlier one entirely. */
  lemma PatchTwice(data: seq<string>, t1: real, t2: real, b: Builtins)
    requires |data| >= TemperatureLine
    ensures PatchTemperature(PatchTemperature(data, t1, b), t2, b) == PatchTemperature(data, t2, b)
  {
  }

  /** The `itape5` of every run directory after `_setupWorkingDir`: each is a copy
      of the one `itape5` the runner copies into `run0`, patched with its own
      comparison point's temperature. Without a working directory nothing is
      set up (the source returns `False`). */
  function SetupRuns(workingDir: Option<string>, itape5: seq<string>, compare: seq<ComparePoint>, b: Builtins)
    : (r: Option<seq<seq<string>>>)
    requires workingDir.Some? && |compare| > 0 ==> |itape5| >= TemperatureLine
    ensures r.None? <==> workingDir.None?
    ensures r.Some? ==> |r.value| == |compare|
    ensures r.Some? ==> forall i :: 0 <= i < |compare| ==>
      && |r.value[i]| == |itape5|
      && r.value[i][TemperatureLine - 1] == TemperaturePrefix + b.renderTemperature(compare[i].temperature) + "\n"
      && forall k :: 0 <= k < |itape5| && k != TemperatureLine - 1 ==> r.value[i][k] == itape5[k]
  {
    if workingDir.None? then None
    else Some(seq(|compare|, i requires 0 <= i < |compare| => PatchTemperature(itape5, compare[i].temperature, b)))
  }

  /** The run directories' `itape5` files differ from one another at most in the
      temperature line. */
  lemma RunsDifferOnlyInTemperature(workingDir: Option<string>, itape5: seq<string>, compare: seq<ComparePoint>, b: Builtins, i: nat, j: nat)
    requires workingDir.Some? && |compare| > 0 ==> |itape5| >= TemperatureLine
    requires SetupRuns(workingDir, itape5, compare, b).Some?
    requires i < |compare| && j < |compare|
    ensures var runs := SetupRuns(workingDir, itape5, compare, b).value;
      |runs[i]| == |runs[j]|
      && forall k :: 0 <= k < |runs[i]| && k != TemperatureLine - 1 ==> runs[i][k] == runs[j][k]
  {
  }

  /** The result of one run paired with its reference time. */
  datatype RunResult = RunResult(delay: real, reference: real)

  /** A run's `T_ign.dat` as the collector needs it: when present, it has a first
      line and that line, stripped, parses as a float. */
  predicate OutputReadable(output: Option<seq<string>>, b: Builtins) {
    output.Some? ==> |output.value| >= 1 && b.parseFloat(Strip(output.value[0])).Some?
  }

  /** The ignition delay a run yields: the number on the first line of its
      `T_ign.dat`, or 0 when the file is absent (the run was killed or failed). */
  function Delay(output: Option<seq<string>>, b: Builtins): (r: real)
    requires OutputReadable(output, b)
    ensures output.None? ==> r == 0.0
    ensures output.Some? ==> Some(r) == b.parseFloat(Strip(output.value[0]))
  {
    match output
    case None => 0.0
    case Some(lines) => b.parseFloat(Strip(lines[0])).value
  }

  /** `_collectIgnitionDelay`, the pairing: one `[delay, reference]` pair per
      comparison point, in order. `outputs[i]` is the content of run `i`'s
      `T_ign.dat`, `None` when it is absent. The source divides by each reference
      time to log a relative error, so none may be zero. */
  function CollectIgnitionDelay(compare: seq<ComparePoint>, outputs: seq<Option<seq<string>>>, b: Builtins)
    : (r: seq<RunResult>)
    requires |outputs| == |compare|
    requires forall i :: 0 <= i < |outputs| ==> OutputReadable(outputs[i], b)
    requires forall i :: 0 <= i < |compare| ==> compare[i].time != 0.0
    ensures |r| == |compare|
    ensures forall i :: 0 <= i < |r| ==> r[i].reference == compare[i].time
    ensures forall i :: 0 <= i < |r| ==> r[i].delay == Delay(outputs[i], b)
  {
    seq(|compare|, i requires 0 <= i < |compare| => RunResult(Delay(outputs[i], b), compare[i].time))
  }

  function Abs(x: real): real {
    if x < 0.0 then -x else x
  }

  /** The total absolute error of a batch, accumulated in order. */
  function TotalError(results: seq<RunResult>): (r: real)
    ensures r >= 0.0
  {
    if |results| == 0 then 0.0
    else TotalError(results[..|results| - 1])
         + Abs(results[|results| - 1].delay - results[|results| - 1].reference)
  }

  /** The total error is zero exactly when every run hit its reference time. */
  lemma {:induction false} TotalErrorZero(results: seq<RunResult>)
    ensures TotalError(results) == 0.0 <==> forall i :: 0 <= i < |results| ==> results[i].delay == results[i].reference
    decreases |results|
  {
    if |results| > 0 {
      var init := results[..|results| - 1];
      TotalErrorZero(init);
      assert forall i :: 0 <= i < |init| ==> init[i] == results[i];
    }
  }

  /** `getFitness()`: 1000 divided by the total error. The source does not guard
      a zero total, where it raises `ZeroDivisionError`. */
  function Fitness(results: seq<RunResult>): (r: real)
    requires TotalError(results) != 0.0
    ensures r > 0.0
    ensures r * TotalError(results) == 1000.0
  {
    1000.0 / TotalError(results)
  }

  lemma CancelPositive(x: real, y: real, z: real)
    requires z > 0.0 && x * z < y * z
    ensures x < y
  {
    assert (y - x) * z > 0.0;
  }

  /** Dividing 1000 by a larger positive number gives a smaller quotient. */
  lemma DivideAntitone(x: real, y: real)
    requires 0.0 < x < y
    ensures 1000.0 / y < 1000.0 / x
  {
    var p := 1000.0 / x;
    var q := 1000.0 / y;
    assert p * x == 1000.0 && q * y == 1000.0;
    assert q > 0.0;
    assert q * x < q * y;
    CancelPositive(q, p, x);
  }

  /** A strictly smaller total error gives a strictly larger fitness. */
  lemma FitnessMonotonic(a: seq<RunResult>, c: seq<RunResult>)
    requires 0.0 < TotalError(a) < TotalError(c)
    ensures Fitness(a) > Fitness(c)
  {
    DivideAntitone(TotalError(a), TotalError(c));
  }

  /** Delays 0.6 and 1.0 against references 0.5 and 1.2 give a total error of 0.3
      and a fitness of 1000 / 0.3. */
  lemma FitnessExample()
    ensures TotalError([RunResult(0.6, 0.5), RunResult(1.0, 1.2)]) == 0.3
    ensures Fitness([RunResult(0.6, 0.5), RunResult(1.0, 1.2)]) == 10000.0 / 3.0
  {
    var rs := [RunResult(0.6, 0.5), RunResult(1.0, 1.2)];
    assert rs[..1] == [RunResult(0.6, 0.5)];
    assert rs[..1][..0] == [];
  }
}
