/** The number of decimal places the settings-file loader records for a numeric
    token: the length of the `dec` group of the first match of the pattern
    `[\+\-0-9]+.(?P<dec>[0-9]+)`, or 0 when the pattern does not match.

    The `.` in that pattern is unescaped and so stands for any character but a
    newline. The search is modelled exactly: the leftmost start wins, and at that
    start the greedy first group takes as many characters as still let the rest
    match; the greedy `dec` group then takes the whole digit run. */
module DecimalPlaces {
  import opened Wrappers

  predicate IsDigit(c: char) {
    '0' <= c <= '9'
  }

  /** A character of the first group `[\+\-0-9]`. */
  predicate IsSignOrDigit(c: char) {
    c == '+' || c == '-' || IsDigit(c)
  }

  /** The pattern matches `t` at offset `s` with its first group `j` characters
      long: `j` signs or digits, then one character other than a newline, then at
      least one digit. */
  predicate MatchesAt(t: string, s: int, j: int) {
    && 0 <= s
    && 1 <= j
    && s + j + 1 < |t|
    && (forall k :: s <= k < s + j ==> IsSignOrDigit(t[k]))
    && t[s + j] != '\n'
    && IsDigit(t[s + j + 1])
  }

  /** Length of the run of signs and digits that starts at offset `i`. */
  function SignDigitRun(t: string, i: nat): (n: nat)
    requires i <= |t|
    ensures i + n <= |t|
    ensures forall k :: i <= k < i + n ==> IsSignOrDigit(t[k])
    ensures i + n == |t| || !IsSignOrDigit(t[i + n])
    decreases |t| - i
  {
    if i == |t| || !IsSignOrDigit(t[i]) then 0 else 1 + SignDigitRun(t, i + 1)
  }

  /** Length of the run of digits that starts at offset `i`. */
  function DigitRun(t: string, i: nat): (n: nat)
    requires i <= |t|
    ensures i + n <= |t|
    ensures forall k :: i <= k < i + n ==> IsDigit(t[k])
    ensures i + n == |t| || !IsDigit(t[i + n])
    decreases |t| - i
  {
    if i == |t| || !IsDigit(t[i]) then 0 else 1 + DigitRun(t, i + 1)
  }

  /** Backtracking of the greedy first group at offset `s`: the longest first
      group of at most `j` characters with which the pattern matches. */
  function LongestGroupAt(t: string, s: nat, j: nat): (r: Option<nat>)
    requires s + j <= |t|
    requires forall k :: s <= k < s + j ==> IsSignOrDigit(t[k])
    ensures r.Some? ==> r.value <= j && MatchesAt(t, s, r.value)
    ensures r.Some? ==> forall j' :: r.value < j' <= j ==> !MatchesAt(t, s, j')
    ensures r.None? ==> forall j' :: j' <= j ==> !MatchesAt(t, s, j')
    decreases j
  {
    if j == 0 then None
    else if s + j + 1 < |t| && t[s + j] != '\n' && IsDigit(t[s + j + 1]) then Some(j)
    else LongestGroupAt(t, s, j - 1)
  }

  /** A first group longer than the run of signs and digits cannot match. */
  lemma NoMatchBeyondRun(t: string, s: nat, j: int)
    requires s <= |t|
    requires j > SignDigitRun(t, s)
    ensures !MatchesAt(t, s, j)
  {
    var n := SignDigitRun(t, s);
    if s + n < |t| {
      assert !IsSignOrDigit(t[s + n]);
    }
  }

  /** The leftmost match at offset `s` or later, as (start, first-group length). */
  function FirstMatch(t: string, s: nat): (r: Option<(nat, nat)>)
    requires s <= |t|
    ensures r.Some? ==> s <= r.value.0 && MatchesAt(t, r.value.0, r.value.1)
    ensures r.Some? ==> forall s', j' :: s <= s' < r.value.0 ==> !MatchesAt(t, s', j')
    ensures r.Some? ==> forall j' :: r.value.1 < j' ==> !MatchesAt(t, r.value.0, j')
    ensures r.None? ==> forall s', j' :: s <= s' ==> !MatchesAt(t, s', j')
    decreases |t| - s
  {
    if s == |t| then None
    else
      var n := SignDigitRun(t, s);
      var here := LongestGroupAt(t, s, n);
      assert forall j' :: n < j' ==> !MatchesAt(t, s, j') by {
        forall j' | n < j' ensures !MatchesAt(t, s, j') {
          NoMatchBeyondRun(t, s, j');
        }
      }
      match here
      case Some(j) => Some((s, j))
      case None => FirstMatch(t, s + 1)
  }

  /** The decimal places recorded for a token: the length of the `dec` group of
      the first match, or 0 when the pattern does not match. */
  function Places(t: string): (r: nat)
    ensures r <= |t|
    ensures (forall s, j :: !MatchesAt(t, s, j)) ==> r == 0
  {
    match FirstMatch(t, 0)
    case Some((s, j)) => DigitRun(t, s + j + 1)
    case None => 0
  }

  /** For a token written `<signs and digits>.<digits><rest>`, where `rest` does
      not start with a digit (an exponent, or nothing), the places are exactly
      the number of digits after the point. */
  lemma PlacesOfDecimal(ip: string, fp: string, rest: string)
    requires |ip| >= 1 && forall k :: 0 <= k < |ip| ==> IsSignOrDigit(ip[k])
    requires |fp| >= 1 && forall k :: 0 <= k < |fp| ==> IsDigit(fp[k])
    requires |rest| == 0 || !IsDigit(rest[0])
    ensures Places(ip + "." + fp + rest) == |fp|
  {
    var t := ip + "." + fp + rest;
    var i := |ip|;
    assert t[i] == '.';
    assert forall k :: 0 <= k < i ==> t[k] == ip[k];
    assert forall k :: 0 <= k < |fp| ==> t[i + 1 + k] == fp[k];
    assert MatchesAt(t, 0, i);
    var m := FirstMatch(t, 0);
    assert m.Some? && m.value.0 == 0;
    var j := m.value.1;
    assert MatchesAt(t, 0, j);
    assert j == i;
    var d := DigitRun(t, i + 1);
    assert |rest| > 0 ==> t[i + 1 + |fp|] == rest[0];
    assert d == |fp|;
  }

  /** A token ending in a bare point, such as `123.`, still matches: the first
      group backs off by two characters so that the any-character `.` of the
      pattern takes the second digit and `dec` the third, so one place is
      recorded. */
  lemma PlacesOfTrailingPoint()
    ensures Places("123.") == 1
  {
    var t := "123.";
    assert !MatchesAt(t, 0, 3) && !MatchesAt(t, 0, 2) && MatchesAt(t, 0, 1);
    assert SignDigitRun(t, 3) == 0;
    assert SignDigitRun(t, 0) == 3;
    assert DigitRun(t, 3) == 0;
    assert DigitRun(t, 2) == 1;
  }

  /** A token with nothing before the point, such as `.5`, does not match, so no
      places are recorded. */
  lemma PlacesOfLeadingPoint()
    ensures Places(".5") == 0
  {
    var t := ".5";
    forall s, j ensures !MatchesAt(t, s, j) {
      assert t[0] == '.';
    }
  }
}
